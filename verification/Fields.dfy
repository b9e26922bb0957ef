/** Splitting at separator characters, dropping empty fields: `split_list`, `split_rs` and mount options. */
module Fields {

  function FirstSep(s: string, seps: set<char>): (k: nat)
    ensures k <= |s|
    ensures k < |s| ==> s[k] in seps
    ensures forall i :: 0 <= i < k ==> s[i] !in seps
  {
    if s == "" || s[0] in seps then 0 else 1 + FirstSep(s[1..], seps)
  }

  function NonEmpty(s: string): seq<string>
  {
    if s == "" then [] else [s]
  }

  /** The maximal runs of other characters between separators, in order. */
  function Split(s: string, seps: set<char>): seq<string>
    decreases |s|
  {
    var k := FirstSep(s, seps);
    NonEmpty(s[..k]) + if k == |s| then [] else Split(s[k + 1..], seps)
  }

  lemma FirstSepIs(s: string, seps: set<char>, k: nat)
    requires k <= |s| && (k < |s| ==> s[k] in seps) && forall i :: 0 <= i < k ==> s[i] !in seps
    ensures FirstSep(s, seps) == k
  {
  }

  lemma SplitAt(s: string, seps: set<char>, k: nat)
    requires k <= |s| && (k < |s| ==> s[k] in seps) && forall i :: 0 <= i < k ==> s[i] !in seps
    ensures Split(s, seps) == NonEmpty(s[..k]) + if k == |s| then [] else Split(s[k + 1..], seps)
  {
    hide FirstSep, NonEmpty;
    FirstSepIs(s, seps, k);
  }

  lemma Associative(x: seq<string>, y: seq<string>, z: seq<string>)
    ensures x + (y + z) == x + y + z
  {
  }

  /** A separator splits the fields. */
  lemma {:induction false} SplitConcat(a: string, c: char, b: string, seps: set<char>)
    requires c in seps
    ensures Split(a + [c] + b, seps) == Split(a, seps) + Split(b, seps)
    decreases |a|
  {
    hide Split, FirstSep, NonEmpty;
    var k, s := FirstSep(a, seps), a + [c] + b;
    assert s[..k] == a[..k];
    SplitAt(s, seps, k);
    SplitAt(a, seps, k);
    if k == |a| {
      assert s[k + 1..] == b;
    } else {
      SplitConcat(a[k + 1..], c, b, seps);
      assert s[k + 1..] == a[k + 1..] + [c] + b;
      Associative(NonEmpty(a[..k]), Split(a[k + 1..], seps), Split(b, seps));
    }
  }

  lemma SplitNothing(seps: set<char>)
    ensures Split("", seps) == []
  {
  }

  lemma SkipSep(c: char, b: string, seps: set<char>)
    requires c in seps
    ensures Split([c] + b, seps) == Split(b, seps)
  {
    hide Split;
    SplitConcat("", c, b, seps);
    SplitNothing(seps);
    assert "" + [c] + b == [c] + b;
  }

  /** A field without separators is itself. */
  lemma SplitPlain(s: string, seps: set<char>)
    requires forall i :: 0 <= i < |s| ==> s[i] !in seps
    ensures Split(s, seps) == NonEmpty(s)
  {
    SplitAt(s, seps, |s|);
    assert s[..|s|] == s;
  }

  /** No field is empty or contains a separator. */
  lemma {:induction false} SplitFields(s: string, seps: set<char>, i: nat)
    requires i < |Split(s, seps)|
    ensures Split(s, seps)[i] != "" && forall c :: c in Split(s, seps)[i] ==> c !in seps
    decreases |s|
  {
    var k := FirstSep(s, seps);
    hide Split;
    SplitAt(s, seps, k);
    var head := NonEmpty(s[..k]);
    if i >= |head| {
      SplitFields(s[k + 1..], seps, i - |head|);
      assert Split(s, seps)[i] == Split(s[k + 1..], seps)[i - |head|];
    } else {
      assert Split(s, seps)[i] == s[..k];
    }
  }

  /** `split_list` over any separator set: skip separators, take a field, repeat. */
  method SplitList(sv: string, seps: set<char>) returns (r: seq<string>)
    ensures r == Split(sv, seps)
  {
    hide Split;
    SplitNothing(seps);
    r := [];
    var pos := 0;
    assert sv[0..] == sv;
    assert [] + Split(sv, seps) == Split(sv, seps);
    while pos < |sv|
      invariant 0 <= pos <= |sv|
      invariant r + Split(sv[pos..], seps) == Split(sv, seps)
    {
      var s := SkipSeps(sv, pos, seps);
      if s == |sv| {
        pos := s;
        break;
      }
      var e := FieldEnd(sv, s, seps);
      TakeField(sv, s, e, seps);
      Associative(r, [sv[s..e]], Split(sv[e..], seps));
      r := r + [sv[s..e]];
      pos := e;
    }
    assert sv[pos..] == "";
  }

  method SkipSeps(sv: string, pos: nat, seps: set<char>) returns (s: nat)
    requires pos <= |sv|
    ensures pos <= s <= |sv| && (s < |sv| ==> sv[s] !in seps)
    ensures Split(sv[s..], seps) == Split(sv[pos..], seps)
  {
    hide Split;
    s := pos;
    while s < |sv| && sv[s] in seps
      invariant pos <= s <= |sv|
      invariant Split(sv[s..], seps) == Split(sv[pos..], seps)
    {
      SkipSep(sv[s], sv[s + 1..], seps);
      assert sv[s..] == [sv[s]] + sv[s + 1..];
      s := s + 1;
    }
  }

  method FieldEnd(sv: string, s: nat, seps: set<char>) returns (e: nat)
    requires s <= |sv|
    ensures s <= e <= |sv| && (e < |sv| ==> sv[e] in seps)
    ensures forall i :: s <= i < e ==> sv[i] !in seps
  {
    e := s;
    while e < |sv| && sv[e] !in seps
      invariant s <= e <= |sv|
      invariant forall i :: s <= i < e ==> sv[i] !in seps
    {
      e := e + 1;
    }
  }

  lemma TakeField(sv: string, s: nat, e: nat, seps: set<char>)
    requires s < e <= |sv| && (e < |sv| ==> sv[e] in seps) && forall i :: s <= i < e ==> sv[i] !in seps
    ensures Split(sv[s..], seps) == [sv[s..e]] + Split(sv[e..], seps)
  {
    hide Split;
    SplitNothing(seps);
    var t := sv[s..];
    SplitAt(t, seps, e - s);
    assert t[..e - s] == sv[s..e];
    if e < |sv| {
      assert t[e - s + 1..] == sv[e + 1..];
      SkipSep(sv[e], sv[e + 1..], seps);
      assert sv[e..] == [sv[e]] + sv[e + 1..];
    } else {
      assert sv[e..] == "";
    }
  }
}
