/** `parse_environment`: KEY=value and KEY="value" assignments separated by blanks. */
module Environment {
  import opened Strings

  function SkipBlanks(s: string): (t: string)
    ensures |t| <= |s| && (t != "" ==> !IsBlank(t[0]))
  {
    if s != "" && IsBlank(s[0]) then SkipBlanks(s[1..]) else s
  }

  /** The body of a quoted value and what follows its closing quote. */
  function QuotedValue(s: string): (r: (string, string))
    ensures |r.1| <= |s|
  {
    if s == "" then ("", "")
    else if s[0] == '"' then ("", s[1..])
    else if s[0] == '\\' && |s| > 1 then
      var r := QuotedValue(s[2..]);
      ([s[1]] + r.0, r.1)
    else
      var r := QuotedValue(s[1..]);
      ([s[0]] + r.0, r.1)
  }

  function BareValue(s: string): (r: (string, string))
    ensures |r.1| <= |s|
  {
    if s == "" || IsBlank(s[0]) then ("", s)
    else
      var r := BareValue(s[1..]);
      ([s[0]] + r.0, r.1)
  }

  function Value(s: string): (r: (string, string))
    ensures |r.1| <= |s|
  {
    if s != "" && s[0] == '"' then QuotedValue(s[1..]) else BareValue(s)
  }

  function Assign(env: map<string, string>, key: string, val: string): map<string, string>
  {
    if key == "" then env else env[key := val]
  }

  /** The meaning of the unread text `s`, on top of `env`. */
  function Parse(s: string, env: map<string, string>): map<string, string>
    decreases |s|
  {
    var t := SkipBlanks(s);
    var eq := Find(t, '=', 0);
    if eq == |t| then env
    else
      var v := Value(t[eq + 1..]);
      Parse(v.1, Assign(env, t[..eq], v.0))
  }

  // ---------------------------------------------------------------- the loops

  method SkipBlanksFrom(raw: string, start: nat) returns (i: nat)
    requires start <= |raw|
    ensures start <= i <= |raw| && raw[i..] == SkipBlanks(raw[start..])
  {
    i := start;
    while i < |raw| && IsBlank(raw[i])
      invariant start <= i <= |raw|
      invariant SkipBlanks(raw[i..]) == SkipBlanks(raw[start..])
    {
      assert raw[i..][1..] == raw[i + 1..];
      i := i + 1;
    }
  }

  lemma QuotedStep(raw: string, i: nat)
    requires i < |raw| && raw[i] != '"'
    ensures var j := if raw[i] == '\\' && i + 1 < |raw| then i + 1 else i;
      QuotedValue(raw[i..]) == ([raw[j]] + QuotedValue(raw[j + 1..]).0, QuotedValue(raw[j + 1..]).1)
  {
    assert raw[i..][1..] == raw[i + 1..];
    if i + 1 < |raw| { assert raw[i..][2..] == raw[i + 2..]; }
  }

  lemma QuotedEnd(raw: string, i: nat)
    requires i <= |raw| && (i < |raw| ==> raw[i] == '"')
    ensures QuotedValue(raw[i..]) == ("", if i < |raw| then raw[i + 1..] else "")
  {
    if i < |raw| { assert raw[i..][1..] == raw[i + 1..]; }
  }

  method ReadQuoted(raw: string, start: nat) returns (val: string, i: nat)
    requires start <= |raw|
    ensures start <= i <= |raw| && (val, raw[i..]) == QuotedValue(raw[start..])
  {
    hide QuotedValue;
    val, i := "", start;
    Prefixed(QuotedValue(raw[start..]).0);
    while i < |raw| && raw[i] != '"'
      invariant start <= i <= |raw|
      invariant QuotedValue(raw[start..]) == (val + QuotedValue(raw[i..]).0, QuotedValue(raw[i..]).1)
    {
      QuotedStep(raw, i);
      if raw[i] == '\\' && i + 1 < |raw| {
        i := i + 1;
      }
      Shift(val, raw[i], QuotedValue(raw[i + 1..]).0);
      val := val + [raw[i]];
      i := i + 1;
    }
    QuotedEnd(raw, i);
    Prefixed(val);
    if i < |raw| {
      i := i + 1;
    }
  }

  lemma Prefixed(a: string)
    ensures "" + a == a && a + "" == a
  {
  }

  method ReadBare(raw: string, start: nat) returns (val: string, i: nat)
    requires start <= |raw|
    ensures start <= i <= |raw| && (val, raw[i..]) == BareValue(raw[start..])
  {
    i := start;
    Prefixed(BareValue(raw[start..]).0);
    assert raw[start..i] == "";
    while i < |raw| && !IsBlank(raw[i])
      invariant start <= i <= |raw|
      invariant BareValue(raw[start..]) == (raw[start..i] + BareValue(raw[i..]).0, BareValue(raw[i..]).1)
    {
      assert raw[i..][1..] == raw[i + 1..];
      Shift(raw[start..i], raw[i], BareValue(raw[i + 1..]).0);
      assert raw[start..i] + [raw[i]] == raw[start..i + 1];
      i := i + 1;
    }
    val := raw[start..i];
    Prefixed(val);
  }

  /** The index strictly advances on every input, so the loop ends. */
  method ParseEnvironment(raw: string, out: map<string, string>) returns (env: map<string, string>)
    ensures env == Parse(raw, out)
  {
    hide Value, SkipBlanks, QuotedValue, BareValue;
    env := out;
    var i := 0;
    assert raw[0..] == raw;
    while i < |raw|
      invariant 0 <= i <= |raw|
      invariant Parse(raw[i..], env) == Parse(raw, out)
      decreases |raw| - i
    {
      ghost var unread := raw[i..];
      var j := SkipBlanksFrom(raw, i);
      if j >= |raw| {
        break;
      }
      var eq := Find(raw, '=', j);
      FindSuffix(raw, '=', j);
      if eq == |raw| {
        return;
      }
      var key := raw[j..eq];
      assert raw[j..][..eq - j] == key && raw[j..][eq - j + 1..] == raw[eq + 1..];
      var val;
      val, i := ReadValue(raw, eq + 1);
      if key != "" {
        env := env[key := val];
      }
    }
  }

  lemma FindSuffix(s: string, c: char, from: nat)
    requires from <= |s|
    ensures Find(s[from..], c, 0) == Find(s, c, from) - from
  {
    var t, n := s[from..], Find(s, c, from) - from;
    assert forall k :: 0 <= k < n ==> t[k] == s[from + k];
    FindIs(t, c, n);
  }

  method ReadValue(raw: string, start: nat) returns (val: string, i: nat)
    requires start <= |raw|
    ensures start <= i <= |raw| && (val, raw[i..]) == Value(raw[start..])
  {
    hide QuotedValue, BareValue;
    if start < |raw| && raw[start] == '"' {
      assert raw[start..][1..] == raw[start + 1..];
      val, i := ReadQuoted(raw, start + 1);
    } else {
      val, i := ReadBare(raw, start);
    }
  }

  // ---------------------------------------------------------------- round trip

  function Escape(v: string): string
  {
    if v == "" then "" else (if v[0] == '"' || v[0] == '\\' then ['\\', v[0]] else [v[0]]) + Escape(v[1..])
  }

  /** An assignment, and whether its value is written in quotes. */
  datatype Assignment = Assignment(key: string, val: string, quoted: bool)

  /** KEY="value" with quote and backslash escaped, or KEY=value. */
  function PrintOne(a: Assignment): string
  {
    if a.quoted then a.key + ['=', '"'] + Escape(a.val) + ['"'] else a.key + ['='] + a.val
  }

  function Print(assigns: seq<Assignment>, gap: string): string
  {
    if assigns == [] then ""
    else PrintOne(assigns[0]) + (if |assigns| > 1 then gap + Print(assigns[1..], gap) else "")
  }

  function Collect(assigns: seq<Assignment>, env: map<string, string>): map<string, string>
  {
    if assigns == [] then env else Collect(assigns[1..], env[assigns[0].key := assigns[0].val])
  }

  predicate GoodKey(k: string)
  {
    k != "" && '=' !in k && k[0] != ' ' && k[0] != '\t'
  }

  /** Quoted values are arbitrary; bare ones hold no blank and do not begin with a quote. */
  predicate GoodValue(a: Assignment)
  {
    a.quoted || (' ' !in a.val && '\t' !in a.val && (a.val != "" ==> a.val[0] != '"'))
  }

  lemma {:induction false} QuotedOfEscaped(v: string, rest: string)
    ensures QuotedValue(Escape(v) + ['"'] + rest) == (v, rest)
  {
    var s := Escape(v) + ['"'] + rest;
    if v != "" {
      QuotedOfEscaped(v[1..], rest);
      assert v == [v[0]] + v[1..];
      var tail := Escape(v[1..]) + ['"'] + rest;
      if v[0] == '"' || v[0] == '\\' {
        assert s == ['\\', v[0]] + tail;
        assert s[2..] == tail;
      } else {
        assert s == [v[0]] + tail;
        assert s[1..] == tail;
      }
    } else {
      assert s == ['"'] + rest && s[1..] == rest;
    }
  }

  /** A value may end in front of `rest`. */
  predicate EndsHere(rest: string)
  {
    rest != "" ==> rest[0] == ' ' || rest[0] == '\t'
  }

  lemma {:induction false} BareOfPlain(v: string, rest: string)
    requires ' ' !in v && '\t' !in v && EndsHere(rest)
    ensures BareValue(v + rest) == (v, rest)
  {
    if v == "" {
      assert v + rest == rest;
    } else {
      BareOfPlain(v[1..], rest);
      assert (v + rest)[1..] == v[1..] + rest;
      assert v == [v[0]] + v[1..];
    }
  }

  /** The value part of a printed assignment reads back as the value and leaves the rest. */
  lemma ValueOfPrinted(a: Assignment, rest: string)
    requires GoodValue(a) && EndsHere(rest)
    ensures Value(if a.quoted then ['"'] + (Escape(a.val) + ['"'] + rest) else a.val + rest) == (a.val, rest)
  {
    hide QuotedValue, BareValue, Escape;
    if a.quoted {
      QuotedOfEscaped(a.val, rest);
      var body := Escape(a.val) + ['"'] + rest;
      assert (['"'] + body)[1..] == body;
    } else {
      BareOfPlain(a.val, rest);
    }
  }

  lemma ParseAssign(key: string, body: string, env: map<string, string>)
    requires key == "" || GoodKey(key)
    ensures Parse(key + ['='] + body, env) == Parse(Value(body).1, Assign(env, key, Value(body).0))
  {
    hide Value;
    var s, n := key + ['='] + body, |key|;
    assert SkipBlanks(s) == s;
    assert s[n] == '=' && forall k :: 0 <= k < n ==> s[k] == key[k];
    FindIs(s, '=', n);
    assert s[..n] == key && s[n + 1..] == body;
  }

  lemma PrintedShape(a: Assignment, rest: string)
    ensures PrintOne(a) + rest ==
      a.key + ['='] + if a.quoted then ['"'] + (Escape(a.val) + ['"'] + rest) else a.val + rest
  {
    hide Escape;
  }

  /** Reading one printed assignment binds its key, unless that is empty, to its value and leaves the rest. */
  lemma ParsePrinted(a: Assignment, rest: string, env: map<string, string>)
    requires (a.key == "" || GoodKey(a.key)) && GoodValue(a) && EndsHere(rest)
    ensures Parse(PrintOne(a) + rest, env) == Parse(rest, if a.key == "" then env else env[a.key := a.val])
  {
    hide Value, Escape, GoodValue, Parse, PrintOne;
    var body := if a.quoted then ['"'] + (Escape(a.val) + ['"'] + rest) else a.val + rest;
    PrintedShape(a, rest);
    ParseAssign(a.key, body, env);
    ValueOfPrinted(a, rest);
  }

  lemma {:induction false} ParseAfterGap(gap: string, s: string, env: map<string, string>)
    requires IsGap(gap)
    ensures Parse(gap + s, env) == Parse(s, env)
  {
    BlanksSkipped(gap, s);
  }

  lemma {:induction false} BlanksSkipped(gap: string, s: string)
    requires forall i :: 0 <= i < |gap| ==> gap[i] == ' ' || gap[i] == '\t'
    ensures SkipBlanks(gap + s) == SkipBlanks(s)
  {
    if gap == "" {
      assert gap + s == s;
    } else {
      BlanksSkipped(gap[1..], s);
      assert (gap + s)[1..] == gap[1..] + s;
    }
  }

  /** Parsing undoes printing, for all good keys and values, quoted or bare, with any gap between them. */
  lemma {:induction false} EnvironmentRoundTrip(assigns: seq<Assignment>, gap: string, env: map<string, string>)
    requires IsGap(gap)
    requires forall i :: 0 <= i < |assigns| ==> GoodKey(assigns[i].key) && GoodValue(assigns[i])
    ensures Parse(Print(assigns, gap), env) == Collect(assigns, env)
    decreases |assigns|
  {
    hide Parse, PrintOne, GoodValue;
    if assigns == [] {
      ParseNothing(env);
    } else {
      var a := assigns[0];
      assert GoodKey(assigns[0].key);
      var next := env[a.key := a.val];
      if |assigns| > 1 {
        ParsePrinted(a, gap + Print(assigns[1..], gap), env);
        ParseAfterGap(gap, Print(assigns[1..], gap), next);
        EnvironmentRoundTrip(assigns[1..], gap, next);
      } else {
        ParsePrinted(a, "", env);
        ParseNothing(next);
      }
    }
  }

  /** Text without '=' assigns nothing. */
  lemma NoAssignment(s: string, env: map<string, string>)
    requires '=' !in s
    ensures Parse(s, env) == env
  {
    var t := SkipBlanks(s);
    Suffix(s);
    FindIs(t, '=', |t|);
  }

  lemma {:induction false} Suffix(s: string)
    ensures forall c :: c in SkipBlanks(s) ==> c in s
  {
    if s != "" && IsBlank(s[0]) {
      Suffix(s[1..]);
    }
  }

  /** A quoted value that is never closed runs to the end; a backslash that ends the text is kept. */
  lemma {:induction false} UnclosedQuote(v: string, dangling: bool)
    ensures Value(['"'] + Escape(v) + if dangling then ['\\'] else "") ==
      (v + (if dangling then ['\\'] else ""), "")
  {
    var tail := if dangling then ['\\'] else "";
    UnclosedBody(v, tail);
    assert (['"'] + Escape(v) + tail)[1..] == Escape(v) + tail;
  }

  lemma {:induction false} UnclosedBody(v: string, tail: string)
    requires tail == "" || tail == ['\\']
    ensures QuotedValue(Escape(v) + tail) == (v + tail, "")
  {
    var s := Escape(v) + tail;
    if v == "" {
      assert s == tail && v + tail == tail;
      if tail != "" {
        assert s[1..] == "" && [s[0]] + "" == s;
      }
    } else {
      UnclosedBody(v[1..], tail);
      var rest := Escape(v[1..]) + tail;
      assert v + tail == [v[0]] + (v[1..] + tail);
      if v[0] == '"' || v[0] == '\\' {
        assert s == ['\\', v[0]] + rest && s[2..] == rest;
      } else {
        assert s == [v[0]] + rest && s[1..] == rest;
      }
    }
  }

  lemma ParseNothing(env: map<string, string>)
    ensures Parse("", env) == env
  {
  }

  predicate Mentions(assigns: seq<Assignment>, k: string)
  {
    exists i :: 0 <= i < |assigns| && assigns[i].key == k
  }

  /** `assigns` lists the bindings of `m`, possibly some more than once. */
  ghost predicate Lists(assigns: seq<Assignment>, m: map<string, string>)
  {
    && (forall i :: 0 <= i < |assigns| ==> assigns[i].key in m && m[assigns[i].key] == assigns[i].val)
    && (forall k :: k in m ==> Mentions(assigns, k))
  }

  lemma {:induction false} CollectOf(assigns: seq<Assignment>, env: map<string, string>,
                                     m: map<string, string>, k: string)
    requires forall i :: 0 <= i < |assigns| ==> assigns[i].key in m && m[assigns[i].key] == assigns[i].val
    ensures k in Collect(assigns, env) <==> k in env || Mentions(assigns, k)
    ensures k in Collect(assigns, env) && (k in env ==> k in m && env[k] == m[k]) ==>
      k in m && Collect(assigns, env)[k] == m[k]
    decreases |assigns|
  {
    if assigns != [] {
      var rest := assigns[1..];
      CollectOf(rest, env[assigns[0].key := assigns[0].val], m, k);
      if Mentions(assigns, k) && k != assigns[0].key {
        var i :| 0 <= i < |assigns| && assigns[i].key == k;
        assert rest[i - 1] == assigns[i];
      }
      if Mentions(rest, k) {
        var i :| 0 <= i < |rest| && rest[i].key == k;
        assert assigns[i + 1].key == k;
      }
    }
  }

  /** A printed map parses back to the same map, in whatever order its bindings are printed. */
  lemma MapRoundTrip(assigns: seq<Assignment>, gap: string, m: map<string, string>)
    requires IsGap(gap)
    requires Lists(assigns, m) && forall k :: k in m ==> GoodKey(k)
    requires forall i :: 0 <= i < |assigns| ==> GoodValue(assigns[i])
    ensures Parse(Print(assigns, gap), map[]) == m
  {
    hide Parse, Print, Collect;
    EnvironmentRoundTrip(assigns, gap, map[]);
    var r := Collect(assigns, map[]);
    forall k
      ensures k in r <==> k in m
      ensures k in r ==> r[k] == m[k]
    {
      CollectOf(assigns, map[], m, k);
      if Mentions(assigns, k) {
        var i :| 0 <= i < |assigns| && assigns[i].key == k;
      }
    }
    assert r == m;
  }
}
