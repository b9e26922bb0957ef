/** Specifier expansion (`%i`, `%n`, ...), unit-name decomposition and unescaping. */
module Specifiers {
  import opened Strings
  import opened UnitFiles

  // ---------------------------------------------------------------- unescaping

  function HexValue(c: char): (v: int)
    ensures -1 <= v < 16
  {
    if '0' <= c <= '9' then c as int - '0' as int
    else if 'a' <= c <= 'f' then c as int - 'a' as int + 10
    else if 'A' <= c <= 'F' then c as int - 'A' as int + 10
    else -1
  }

  predicate StartsWithEscape(s: string)
  {
    |s| > 3 && s[0] == '\\' && s[1] == 'x' && HexValue(s[2]) >= 0 && HexValue(s[3]) >= 0
  }

  function Unescape(s: string): string
  {
    if s == "" then ""
    else if StartsWithEscape(s) then [(16 * HexValue(s[2]) + HexValue(s[3])) as char] + Unescape(s[4..])
    else [s[0]] + Unescape(s[1..])
  }

  method UnitNameUnescape(s: string) returns (result: string)
    ensures result == Unescape(s)
  {
    hide Unescape, HexValue;
    result := "";
    var i := 0;
    assert s[0..] == s;
    while i < |s|
      invariant 0 <= i <= |s|
      invariant result + Unescape(s[i..]) == Unescape(s)
    {
      UnescapeFirst(s, i);
      ghost var before := result;
      if s[i] == '\\' && i + 3 < |s| && s[i + 1] == 'x' && HexValue(s[i + 2]) >= 0 && HexValue(s[i + 3]) >= 0 {
        var c := (16 * HexValue(s[i + 2]) + HexValue(s[i + 3])) as char;
        result := result + [c];
        Shift(before, c, Unescape(s[i + 4..]));
        i := i + 3;
      } else {
        result := result + [s[i]];
        Shift(before, s[i], Unescape(s[i + 1..]));
      }
      i := i + 1;
    }
    UnescapeNothing();
    assert s[i..] == "";
  }

  lemma UnescapeNothing()
    ensures Unescape("") == ""
  {
  }

  lemma UnescapeFirst(s: string, i: nat)
    requires i < |s|
    ensures Unescape(s[i..]) ==
      if s[i] == '\\' && i + 3 < |s| && s[i + 1] == 'x' && HexValue(s[i + 2]) >= 0 && HexValue(s[i + 3]) >= 0
      then [(16 * HexValue(s[i + 2]) + HexValue(s[i + 3])) as char] + Unescape(s[i + 4..])
      else [s[i]] + Unescape(s[i + 1..])
  {
    assert s[i..][1..] == s[i + 1..];
    if i + 3 < |s| { assert s[i..][4..] == s[i + 4..]; }
  }

  const LOWER_DIGITS := "0123456789abcdef"
  const UPPER_DIGITS := "0123456789ABCDEF"

  /** `c` is the hexadecimal digit of value `v`, in either case. */
  predicate IsDigit(c: char, v: int)
  {
    0 <= v < 16 && (c == LOWER_DIGITS[v] || c == UPPER_DIGITS[v])
  }

  lemma DigitHasItsValue(c: char, v: int)
    ensures IsDigit(c, v) <==> HexValue(c) == v && v >= 0
  {
  }

  lemma DigitsExact(c: char)
    ensures HexValue(c) >= 0 <==> c in LOWER_DIGITS || c in UPPER_DIGITS
  {
    if HexValue(c) >= 0 {
      DigitHasItsValue(c, HexValue(c));
    } else if c in LOWER_DIGITS {
      var v :| 0 <= v < 16 && LOWER_DIGITS[v] == c;
      DigitHasItsValue(c, v);
      assert false;
    } else if c in UPPER_DIGITS {
      var v :| 0 <= v < 16 && UPPER_DIGITS[v] == c;
      DigitHasItsValue(c, v);
      assert false;
    }
  }

  /** `t` begins with the \xNN escape of `c`. */
  predicate BeginsWithEscapeOf(t: string, c: char)
  {
    && |t| > 3 && t[0] == '\\' && t[1] == 'x'
    && IsDigit(t[2], c as int / 16) && IsDigit(t[3], c as int % 16)
  }

  /** `t` writes `s` with some characters as \xNN, in either case of hex digit; backslashes never stay bare. */
  predicate IsEscaping(s: string, t: string)
  {
    if s == "" then t == ""
    else
      || (t != "" && t[0] == s[0] && s[0] != '\\' && IsEscaping(s[1..], t[1..]))
      || (BeginsWithEscapeOf(t, s[0]) && IsEscaping(s[1..], t[4..]))
  }

  lemma EscapeRead(t: string, c: char)
    requires BeginsWithEscapeOf(t, c)
    ensures Unescape(t) == [c] + Unescape(t[4..])
  {
    DigitHasItsValue(t[2], c as int / 16);
    DigitHasItsValue(t[3], c as int % 16);
  }

  /** Unescaping inverts every such escaping. */
  lemma {:induction false} UnescapeInverts(s: string, t: string)
    requires IsEscaping(s, t)
    ensures Unescape(t) == s
  {
    hide HexValue, IsDigit;
    if s != "" {
      if t != "" && t[0] == s[0] && s[0] != '\\' && IsEscaping(s[1..], t[1..]) {
        UnescapeInverts(s[1..], t[1..]);
      } else {
        EscapeRead(t, s[0]);
        UnescapeInverts(s[1..], t[4..]);
      }
    }
  }

  function WriteEscape(c: char): string
    requires c as int < 256
  {
    ['\\', 'x', LOWER_DIGITS[c as int / 16], LOWER_DIGITS[c as int % 16]]
  }

  /** The text with every character outside `plain` escaped. */
  function EscapeName(s: string, plain: set<char>): string
    requires forall i :: 0 <= i < |s| ==> s[i] as int < 256
  {
    if s == "" then ""
    else (if s[0] in plain then [s[0]] else WriteEscape(s[0])) + EscapeName(s[1..], plain)
  }

  lemma {:induction false} EscapeNameEscapes(s: string, plain: set<char>)
    requires (forall i :: 0 <= i < |s| ==> s[i] as int < 256) && '\\' !in plain
    ensures IsEscaping(s, EscapeName(s, plain))
  {
    if s != "" {
      EscapeNameEscapes(s[1..], plain);
      var t, rest := EscapeName(s, plain), EscapeName(s[1..], plain);
      if s[0] in plain {
        assert t[1..] == rest;
      } else {
        assert t[4..] == rest;
      }
    }
  }

  /** Escaping a name and unescaping it gives the name back. */
  lemma EscapeRoundTrip(s: string, plain: set<char>)
    requires (forall i :: 0 <= i < |s| ==> s[i] as int < 256) && '\\' !in plain
    ensures Unescape(EscapeName(s, plain)) == s
  {
    EscapeNameEscapes(s, plain);
    UnescapeInverts(s, EscapeName(s, plain));
  }

  /** The text holds a complete escape at position `i`. */
  predicate EscapeAt(s: string, i: nat)
  {
    && i + 3 < |s| && s[i] == '\\' && s[i + 1] == 'x'
    && (s[i + 2] in LOWER_DIGITS || s[i + 2] in UPPER_DIGITS)
    && (s[i + 3] in LOWER_DIGITS || s[i + 3] in UPPER_DIGITS)
  }

  /** Text without a complete escape stays as it is, stray backslashes included. */
  lemma {:induction false} UnescapePlain(s: string)
    requires forall i: nat :: i < |s| ==> !EscapeAt(s, i)
    ensures Unescape(s) == s
  {
    hide HexValue;
    if s != "" {
      var rest := s[1..];
      forall i: nat | i < |rest|
        ensures !EscapeAt(rest, i)
      {
        assert !EscapeAt(s, i + 1);
      }
      UnescapePlain(rest);
      assert s == [s[0]] + rest;
      assert !EscapeAt(s, 0);
      if |s| > 3 {
        DigitsExact(s[2]);
        DigitsExact(s[3]);
      }
    }
  }

  // ---------------------------------------------------------------- expansion

  /** Expansion text for each known specifier letter. */
  type Table = map<char, string>

  function Resolve(s: string, table: Table): string
  {
    if s == "" then ""
    else if s[0] == '%' && |s| > 1 then
      (if s[1] in table then table[s[1]] else s[..2]) + Resolve(s[2..], table)
    else [s[0]] + Resolve(s[1..], table)
  }

  lemma ResolveNothing(table: Table)
    ensures Resolve("", table) == ""
  {
  }

  lemma ResolveFirst(s: string, i: nat, table: Table)
    requires i < |s|
    ensures Resolve(s[i..], table) ==
      if s[i] == '%' && i + 1 < |s|
      then (if s[i + 1] in table then table[s[i + 1]] else [s[i], s[i + 1]]) + Resolve(s[i + 2..], table)
      else [s[i]] + Resolve(s[i + 1..], table)
  {
    assert s[i..][1..] == s[i + 1..];
    if i + 1 < |s| {
      assert s[i..][..2] == [s[i], s[i + 1]];
      assert s[i..][2..] == s[i + 2..];
    }
  }

  lemma ResolvePlain(c: char, rest: string, table: Table)
    requires c != '%'
    ensures Resolve([c] + rest, table) == [c] + Resolve(rest, table)
  {
    assert ([c] + rest)[1..] == rest;
  }

  lemma ExpandPair(c: char, rest: string, table: Table)
    ensures Resolve(['%', c] + rest, table) == (if c in table then table[c] else ['%', c]) + Resolve(rest, table)
  {
    assert (['%', c] + rest)[2..] == rest && (['%', c] + rest)[..2] == ['%', c];
  }

  /** Expanding the front of `s[i..]` after `done`. */
  lemma ResolveTurn(done: string, s: string, i: nat, table: Table)
    requires i < |s|
    ensures s[i] == '%' && i + 1 < |s| ==>
      var piece := if s[i + 1] in table then table[s[i + 1]] else [s[i], s[i + 1]];
      done + Resolve(s[i..], table) == done + piece + Resolve(s[i + 2..], table)
    ensures !(s[i] == '%' && i + 1 < |s|) ==>
      done + Resolve(s[i..], table) == done + [s[i]] + Resolve(s[i + 1..], table)
  {
    ResolveFirst(s, i, table);
    hide *;
    if s[i] == '%' && i + 1 < |s| {
      Join3(done, if s[i + 1] in table then table[s[i + 1]] else [s[i], s[i + 1]], Resolve(s[i + 2..], table));
    } else {
      Join3(done, [s[i]], Resolve(s[i + 1..], table));
    }
  }

  lemma ResolveEnds(s: string, table: Table)
    ensures s[0..] == s && Resolve(s[|s|..], table) == "" && "" + Resolve(s, table) == Resolve(s, table)
  {
    hide Resolve;
    assert s[|s|..] == "";
    ResolveNothing(table);
  }

  /** `SpecifierResolver::resolve`. */
  method ResolveSpecifiers(input: string, table: Table) returns (result: string)
    ensures result == Resolve(input, table)
  {
    hide *;
    result := "";
    var i := 0;
    ResolveEnds(input, table);
    while i < |input|
      invariant 0 <= i <= |input|
      invariant result + Resolve(input[i..], table) == Resolve(input, table)
    {
      ResolveTurn(result, input, i, table);
      if input[i] == '%' && i + 1 < |input| {
        var spec := input[i + 1];
        if spec in table {
          result := result + table[spec];
        } else {
          Pair(result, input[i], input[i + 1]);
          result := result + [input[i]];
          result := result + [input[i + 1]];
        }
        i := i + 1;
      } else {
        result := result + [input[i]];
      }
      i := i + 1;
    }
  }

  function DoublePercents(s: string): string
  {
    if s == "" then "" else (if s[0] == '%' then "%%" else [s[0]]) + DoublePercents(s[1..])
  }

  /** Doubling every '%' protects a string from expansion. */
  lemma {:induction false} DoubledIsLiteral(s: string, table: Table)
    requires '%' in table && table['%'] == "%"
    ensures Resolve(DoublePercents(s), table) == s
  {
    if s != "" {
      DoubledIsLiteral(s[1..], table);
      var rest := DoublePercents(s[1..]);
      if s[0] == '%' {
        assert DoublePercents(s) == ['%', '%'] + rest;
        ResolveFirst(['%', '%'] + rest, 0, table);
        assert (['%', '%'] + rest)[0..] == ['%', '%'] + rest;
        assert (['%', '%'] + rest)[2..] == rest;
      } else {
        assert (([s[0]] + rest)[1..]) == rest;
      }
    }
  }

  /** The left-to-right scan reads some '%%' pair. */
  predicate MeetsPercentPair(s: string)
  {
    s != "" &&
    if s[0] == '%' && |s| > 1 then s[1] == '%' || MeetsPercentPair(s[2..]) else MeetsPercentPair(s[1..])
  }

  predicate ExpansionsPlain(table: Table)
  {
    forall c :: c in table && c != '%' ==> '%' !in table[c]
  }

  lemma {:induction false} PlainPrefix(a: string, b: string, table: Table)
    requires '%' !in a
    ensures Resolve(a + b, table) == a + Resolve(b, table)
  {
    hide Resolve;
    if a == "" {
      assert a + b == b;
    } else {
      PlainPrefix(a[1..], b, table);
      assert (a + b)[1..] == a[1..] + b && (a + b)[0..] == a + b;
      ResolveFirst(a + b, 0, table);
      Rejoin(a, Resolve(b, table));
    }
  }

  lemma Rejoin(a: string, r: string)
    requires a != ""
    ensures [a[0]] + (a[1..] + r) == a + r
  {
  }

  lemma UnknownPair(z: char, b: string, table: Table)
    requires z !in table
    ensures Resolve(['%', z] + b, table) == ['%', z] + Resolve(b, table)
  {
    var s := ['%', z] + b;
    assert s[..2] == ['%', z] && s[2..] == b;
  }

  /** Resolving twice equals resolving once, unless a '%%' pair or an expansion brings in a new '%'. */
  lemma {:induction false} ResolveIdempotent(s: string, table: Table)
    requires ExpansionsPlain(table) && !MeetsPercentPair(s)
    ensures Resolve(Resolve(s, table), table) == Resolve(s, table)
  {
    hide Resolve;
    ResolveNothing(table);
    if s != "" {
      assert s[0..] == s;
      ResolveFirst(s, 0, table);
      if s[0] == '%' && |s| > 1 {
        var rest := s[2..];
        ResolveIdempotent(rest, table);
        if s[1] in table {
          PlainPrefix(table[s[1]], Resolve(rest, table), table);
        } else {
          UnknownPair(s[1], Resolve(rest, table), table);
        }
      } else {
        var rest := s[1..];
        ResolveIdempotent(rest, table);
        if s[0] == '%' {
          assert rest == "" && [s[0]] + "" == s;
          assert s[1..] == "";
        } else {
          PlainPrefix([s[0]], Resolve(rest, table), table);
        }
      }
    }
  }

  /** How many known specifiers the scan meets. */
  function KnownMet(s: string, table: Table): nat
  {
    if s == "" then 0
    else if s[0] == '%' && |s| > 1 then (if s[1] in table then 1 else 0) + KnownMet(s[2..], table)
    else KnownMet(s[1..], table)
  }

  function Percents(s: string): nat
  {
    if s == "" then 0 else (if s[0] == '%' then 1 else 0) + Percents(s[1..])
  }

  lemma {:induction false} PercentsConcat(a: string, b: string)
    ensures Percents(a + b) == Percents(a) + Percents(b)
  {
    if a == "" {
      assert a + b == b;
    } else {
      PercentsConcat(a[1..], b);
      assert (a + b)[1..] == a[1..] + b;
    }
  }

  lemma {:induction false} NoPercents(a: string)
    requires '%' !in a
    ensures Percents(a) == 0
  {
    if a != "" { NoPercents(a[1..]); }
  }

  /** Every specifier that the scan meets and knows, '%%' aside, expands to text without '%'. */
  predicate MetPlain(s: string, table: Table)
  {
    s != "" ==>
      if s[0] == '%' && |s| > 1 then
        (s[1] in table && s[1] != '%' ==> '%' !in table[s[1]]) && MetPlain(s[2..], table)
      else MetPlain(s[1..], table)
  }

  lemma {:induction false} PlainIsMetPlain(s: string, table: Table)
    requires ExpansionsPlain(table)
    ensures MetPlain(s, table)
  {
    if s != "" {
      PlainIsMetPlain(s[if s[0] == '%' && |s| > 1 then 2 else 1..], table);
    }
  }

  /** Each known specifier costs one '%'. */
  lemma {:induction false} ResolveSpendsPercents(s: string, table: Table)
    requires MetPlain(s, table) && '%' in table && table['%'] == "%"
    ensures Percents(Resolve(s, table)) + KnownMet(s, table) == Percents(s)
    ensures KnownMet(s, table) == 0 ==> Resolve(s, table) == s
  {
    hide Resolve;
    ResolveNothing(table);
    if s != "" {
      assert s[0..] == s;
      ResolveFirst(s, 0, table);
      if s[0] == '%' && |s| > 1 {
        var rest := s[2..];
        ResolveSpendsPercents(rest, table);
        assert s == [s[0], s[1]] + rest;
        PercentsConcat([s[0], s[1]], rest);
        if s[1] in table {
          PercentsConcat(table[s[1]], Resolve(rest, table));
          if s[1] != '%' { NoPercents(table[s[1]]); }
        } else {
          PercentsConcat([s[0], s[1]], Resolve(rest, table));
        }
      } else {
        ResolveSpendsPercents(s[1..], table);
        PercentsConcat([s[0]], Resolve(s[1..], table));
        assert [s[0]] + s[1..] == s;
      }
    }
  }

  /** A text that shows the scan no known specifier stays as it is, whatever the table. */
  lemma {:induction false} NothingKnown(s: string, table: Table)
    requires KnownMet(s, table) == 0
    ensures Resolve(s, table) == s
  {
    hide Resolve;
    ResolveNothing(table);
    if s != "" {
      assert s[0..] == s;
      ResolveFirst(s, 0, table);
      if s[0] == '%' && |s| > 1 {
        NothingKnown(s[2..], table);
        assert s == [s[0], s[1]] + s[2..];
      } else {
        NothingKnown(s[1..], table);
        assert s == [s[0]] + s[1..];
      }
    }
  }

  /** The texts that expansion leaves alone are exactly those that show the scan no known specifier. */
  lemma FixedExact(s: string, table: Table)
    requires MetPlain(s, table) && '%' in table && table['%'] == "%"
    ensures Resolve(s, table) == s <==> KnownMet(s, table) == 0
  {
    ResolveSpendsPercents(s, table);
  }

  // ---------------------------------------------------------------- expanding twice

  /** No '%' stands directly before a known letter. */
  predicate NoKnownPair(s: string, table: Table)
  {
    forall i :: 0 <= i < |s| - 1 && s[i] == '%' ==> s[i + 1] !in table
  }

  lemma NoKnownPairCons(c: char, s: string, table: Table)
    ensures NoKnownPair([c] + s, table) <==> NoKnownPair(s, table) && (c == '%' && s != "" ==> s[0] !in table)
  {
    var t := [c] + s;
    if NoKnownPair(s, table) && (c == '%' && s != "" ==> s[0] !in table) {
      forall i | 0 <= i < |t| - 1 && t[i] == '%' ensures t[i + 1] !in table {
        assert i > 0 ==> s[i - 1] == '%';
      }
    }
    if NoKnownPair(t, table) {
      assert s != "" ==> t[0] == c && t[1] == s[0];
      forall i | 0 <= i < |s| - 1 && s[i] == '%' ensures s[i + 1] !in table {
        assert t[i + 1] == '%' && t[i + 2] == s[i + 1];
      }
    }
  }

  lemma {:induction false} NoKnownPairAfter(e: string, s: string, table: Table)
    requires '%' !in e
    ensures NoKnownPair(e + s, table) <==> NoKnownPair(s, table)
  {
    hide NoKnownPair;
    if e == "" {
      assert e + s == s;
    } else {
      NoKnownPairAfter(e[1..], s, table);
      NoKnownPairCons(e[0], e[1..] + s, table);
      assert [e[0]] + (e[1..] + s) == e + s;
    }
  }

  /** Where '%' is known, no overlap can hide a known specifier from the scan. */
  lemma {:induction false} KnownMetExact(s: string, table: Table)
    ensures NoKnownPair(s, table) ==> KnownMet(s, table) == 0
    ensures '%' in table && KnownMet(s, table) == 0 ==> NoKnownPair(s, table)
  {
    hide NoKnownPair;
    if s == "" {
      NoPairInNothing(table);
    } else {
      KnownMetExact(s[1..], table);
      NoKnownPairCons(s[0], s[1..], table);
      assert [s[0]] + s[1..] == s;
      if s[0] == '%' && |s| > 1 {
        KnownMetExact(s[2..], table);
        NoKnownPairCons(s[1], s[2..], table);
        assert [s[1]] + s[2..] == s[1..];
      }
    }
  }

  lemma NoPairInNothing(table: Table)
    ensures NoKnownPair("", table)
  {
  }

  /**
   The scan of `s`, begun with a '%' already written if `percent`, writes a '%'
   directly before a known letter.
   */
  predicate WritesKnownPair(percent: bool, s: string, table: Table)
    decreases s
  {
    if s == "" then false
    else if s[0] == '%' && |s| > 1 && s[1] != '%' && s[1] in table then
      if table[s[1]] == "" then WritesKnownPair(percent, s[2..], table)
      else (percent && table[s[1]][0] in table) || WritesKnownPair(false, s[2..], table)
    else if s[0] == '%' then percent || (|s| > 1 && WritesKnownPair(s[1] == '%', s[2..], table))
    else (percent && s[0] in table) || WritesKnownPair(false, s[1..], table)
  }

  function PercentIf(b: bool): string
  {
    if b then "%" else ""
  }

  lemma PercentBefore(b: bool, s: string, table: Table)
    ensures NoKnownPair(PercentIf(b) + s, table) <==> NoKnownPair(s, table) && (b && s != "" ==> s[0] !in table)
  {
    NoKnownPairCons('%', s, table);
    assert PercentIf(false) + s == s && PercentIf(true) + s == ['%'] + s;
  }

  /** A piece without '%' decides nothing beyond its first letter. */
  lemma PlainPieceBefore(b: bool, e: string, s: string, table: Table)
    requires e != "" && '%' !in e
    ensures NoKnownPair(PercentIf(b) + (e + s), table) <==> NoKnownPair(s, table) && (b ==> e[0] !in table)
  {
    hide NoKnownPair;
    PercentBefore(b, e + s, table);
    NoKnownPairAfter(e, s, table);
  }

  /** A piece that begins with '%' is itself known if a '%' was already there. */
  lemma PercentPieceBefore(b: bool, s: string, table: Table)
    requires '%' in table
    ensures NoKnownPair(PercentIf(b) + (['%'] + s), table) <==> !b && NoKnownPair(['%'] + s, table)
  {
    hide NoKnownPair;
    PercentBefore(b, ['%'] + s, table);
  }

  lemma {:induction false} WrittenPairs(percent: bool, s: string, table: Table)
    requires ExpansionsPlain(table) && '%' in table && table['%'] == "%"
    ensures NoKnownPair(PercentIf(percent) + Resolve(s, table), table) <==> !WritesKnownPair(percent, s, table)
    decreases s
  {
    hide Resolve, NoKnownPair, PercentIf;
    if s == "" {
      ResolveNothing(table);
      PercentBefore(percent, "", table);
      NoPairInNothing(table);
    } else if s[0] == '%' && |s| > 1 {
      var z, rest := s[1], s[2..];
      assert s == ['%', z] + rest;
      ExpandPair(z, rest, table);
      WrittenPairs(percent, rest, table);
      WrittenPairs(z == '%', rest, table);
      WrittenPairs(false, rest, table);
      PairWritten(percent, z, Resolve(rest, table), table);
    } else if s[0] == '%' {
      assert s == ['%'] + "";
      LonePercent(table);
      PercentPieceBefore(percent, "", table);
      NoKnownPairCons('%', "", table);
      NoPairInNothing(table);
    } else {
      var rest := s[1..];
      assert s == [s[0]] + rest;
      ResolvePlain(s[0], rest, table);
      WrittenPairs(false, rest, table);
      NoPercentPrefix(Resolve(rest, table));
      PlainPieceBefore(percent, [s[0]], Resolve(rest, table), table);
    }
  }

  lemma NoPercentPrefix(t: string)
    ensures PercentIf(false) + t == t && PercentIf(true) + t == ['%'] + t
  {
  }

  lemma LonePercent(table: Table)
    ensures Resolve(['%'] + "", table) == ['%'] + ""
  {
    assert ['%'][1..] == "";
  }

  /** What the expansion of '%z' does in front of `t`. */
  lemma PairWritten(percent: bool, z: char, t: string, table: Table)
    requires ExpansionsPlain(table) && '%' in table && table['%'] == "%"
    ensures var piece := if z in table then table[z] else ['%', z];
      NoKnownPair(PercentIf(percent) + (piece + t), table) <==>
        if z in table && z != '%' then
          if table[z] == "" then NoKnownPair(PercentIf(percent) + t, table)
          else NoKnownPair(PercentIf(false) + t, table) && (percent ==> table[z][0] !in table)
        else !percent && NoKnownPair(PercentIf(z == '%') + t, table)
  {
    hide NoKnownPair, PercentIf;
    NoPercentPrefix(t);
    if z == '%' {
      PercentPieceBefore(percent, t, table);
    } else if z in table {
      if table[z] == "" {
        assert table[z] + t == t;
      } else {
        PlainPieceBefore(percent, table[z], t, table);
      }
    } else {
      assert ['%', z] + t == ['%'] + ([z] + t);
      PercentPieceBefore(percent, [z] + t, table);
      NoKnownPairCons('%', [z] + t, table);
      NoKnownPairAfter([z], t, table);
    }
  }

  /**
   Expanding twice equals expanding once if and only if the first scan writes no
   '%' directly before a known letter: a condition on the text as written.
   */
  lemma ResolveTwiceExact(s: string, table: Table)
    requires ExpansionsPlain(table) && '%' in table && table['%'] == "%"
    ensures Resolve(Resolve(s, table), table) == Resolve(s, table) <==> !WritesKnownPair(false, s, table)
  {
    hide *;
    var once := Resolve(s, table);
    PlainIsMetPlain(once, table);
    FixedExact(once, table);
    KnownMetExact(once, table);
    WrittenPairs(false, s, table);
    NoPercentPrefix(once);
  }

  // ---------------------------------------------------------------- the context of a unit

  datatype Context = Context(name: string, prefix: string, instance: string, unitType: string)

  /** `SpecifierContext`: the name taken apart at the first '@' and the last '.'. */
  function ContextOf(name: string): Context
  {
    var dot, at := RFind(name, '.'), Find(name, '@', 0);
    var unitType := if dot >= 0 then name[dot + 1..] else "";
    if at < |name| && dot >= 0 && at < dot then Context(name, name[..at], name[at + 1..dot], unitType)
    else if dot >= 0 then Context(name, name[..dot], "", unitType)
    else Context(name, name, "", unitType)
  }

  predicate IsTemplateName(name: string)
  {
    Find(name, '@', 0) < RFind(name, '.')
  }

  /** The parts put together again give the name. */
  lemma ContextRecomposes(name: string)
    ensures var c := ContextOf(name);
      && (IsTemplateName(name) ==> name == c.prefix + "@" + c.instance + "." + c.unitType && '@' !in c.prefix)
      && (!IsTemplateName(name) && '.' in name ==> name == c.prefix + "." + c.unitType && c.instance == "")
      && ('.' !in name ==> c.prefix == name && c.instance == "" && c.unitType == "")
      && '.' !in c.unitType
  {
    var dot, at := RFind(name, '.'), Find(name, '@', 0);
    if dot >= 0 {
      assert name == name[..dot] + "." + name[dot + 1..];
      if at < dot {
        assert name[..dot] == name[..at] + "@" + name[at + 1..dot];
      }
    }
  }

  /** A bare template is a template whose instance is empty. */
  lemma BareTemplateHasNoInstance(n: Name)
    ensures IsBareTemplate(n) <==> IsTemplateName(n.text) && ContextOf(n.text).instance == ""
  {
  }

  /** `t@.service` and the like are bare templates; with any text after the at sign they are not. */
  lemma TemplatesNamed(tp: string, ti: string, unitType: string)
    requires '@' !in tp && '.' !in unitType
    ensures IsBareTemplate(Name(tp + "@" + ti + "." + unitType)) <==> ti == ""
  {
    hide ContextOf;
    PartsOfInstance(tp, ti, unitType);
    BareTemplateHasNoInstance(Name(tp + "@" + ti + "." + unitType));
    if ti != "" {
      hide IsBareTemplate;
    } else {
      var name := tp + "@" + ti + "." + unitType;
      assert name[|tp|] == '@' && name[|tp| + 1] == '.';
      assert name[..|tp|] == tp && name[|tp| + 2..] == unitType;
      FirstAndLast(name, |tp|, |tp| + 1);
    }
  }

  /** What the host contributes to expansion. */
  datatype Host = Host(bootId: string, machineId: string, hostname: string, architecture: string, kernel: string,
                       login: string, uid: string, gid: string, home: string, shell: string)

  function AfterLastDash(s: string): string
  {
    s[RFind(s, '-') + 1..]
  }

  /** The letters that stand for parts of the unit's name. */
  function UnitLetters(c: Context): Table
  {
    map['n' := c.name, 'N' := Unescape(c.name),
        'p' := c.prefix, 'P' := Unescape(c.prefix),
        'i' := c.instance, 'I' := Unescape(c.instance),
        'f' := if c.instance == "" then "" else "/" + Unescape(c.instance),
        'j' := AfterLastDash(c.prefix), 'J' := Unescape(AfterLastDash(c.prefix))]
  }

  function HostLetters(h: Host): Table
  {
    map['b' := h.bootId, 'm' := h.machineId, 'H' := h.hostname, 'a' := h.architecture, 'v' := h.kernel,
        'u' := h.login, 'U' := h.uid, 'g' := h.gid, 'h' := h.home, 's' := h.shell]
  }

  const FIXED_LETTERS: Table := map[
    't' := "/run", 'S' := "/var/lib", 'C' := "/var/cache", 'L' := "/var/log", 'E' := "/etc",
    'o' := "", 'w' := "", 'W' := ""]

  /** The letters of `register_core_resolvers`. */
  function CoreTable(c: Context, h: Host): Table
  {
    FIXED_LETTERS + HostLetters(h) + UnitLetters(c) + map['%' := "%"]
  }

  /** The letters of a template instance, read off the escaped parts its name is written with. */
  lemma LettersOfInstance(p: string, tp: string, i: string, ti: string, unitType: string, h: Host)
    requires IsEscaping(p, tp) && IsEscaping(i, ti) && '@' !in tp && '.' !in unitType
    ensures var name := tp + "@" + ti + "." + unitType;
      var t := CoreTable(ContextOf(name), h);
      && {'n', 'N', 'p', 'P', 'i', 'I', 'f', 'j', 'J'} <= t.Keys
      && t['n'] == name && t['N'] == p + "@" + i + "." + Unescape(unitType)
      && t['p'] == tp && t['P'] == p && t['i'] == ti && t['I'] == i
      && t['f'] == (if ti == "" then "" else "/" + i)
  {
    hide ContextOf, CoreTable, Unescape, IsEscaping;
    PartsOfInstance(tp, ti, unitType);
    UnescapeInverts(p, tp);
    UnescapeInverts(i, ti);
    UnescapedInstance(tp, ti, unitType);
    CoreLetters(ContextOf(tp + "@" + ti + "." + unitType), h);
  }

  lemma UnescapedInstance(tp: string, ti: string, unitType: string)
    ensures Unescape(tp + "@" + ti + "." + unitType) ==
      Unescape(tp) + "@" + Unescape(ti) + "." + Unescape(unitType)
  {
    hide Unescape;
    UnescapeCut(tp, '@', ti);
    UnescapeCut(tp + "@" + ti, '.', unitType);
  }

  lemma UnitLettersKept(c: Context, h: Host)
    ensures UnitLetters(c).Keys == {'n', 'N', 'p', 'P', 'i', 'I', 'f', 'j', 'J'}
    ensures forall x :: x in UnitLetters(c) ==> x in CoreTable(c, h) && CoreTable(c, h)[x] == UnitLetters(c)[x]
  {
    UnitLetterSet(c);
    PercentIsNoLetter();
    hide UnitLetters, HostLetters, FIXED_LETTERS;
  }

  lemma PartsOfInstance(tp: string, ti: string, unitType: string)
    requires '@' !in tp && '.' !in unitType
    ensures var name := tp + "@" + ti + "." + unitType;
      ContextOf(name) == Context(name, tp, ti, unitType)
  {
    var name := tp + "@" + ti + "." + unitType;
    var at, dot := |tp|, |tp| + 1 + |ti|;
    assert name[at] == '@' && name[dot] == '.';
    assert name[..at] == tp && name[at + 1..dot] == ti && name[dot + 1..] == unitType;
    FirstAndLast(name, at, dot);
  }

  lemma FirstAndLast(name: string, at: nat, dot: nat)
    requires at < dot < |name| && name[at] == '@' && name[dot] == '.'
    requires '@' !in name[..at] && '.' !in name[dot + 1..]
    ensures Find(name, '@', 0) == at && RFind(name, '.') == dot
  {
    assert forall k :: 0 <= k < at ==> name[k] == name[..at][k];
    assert forall k :: dot < k < |name| ==> name[k] == name[dot + 1..][k - dot - 1];
  }

  /** `%j` and `%J` of a prefix that ends in a dash and the escaped text of `j`. */
  lemma LettersOfLastPart(c: Context, before: string, j: string, tj: string, h: Host)
    requires c.prefix == before + "-" + tj && '-' !in tj && IsEscaping(j, tj)
    ensures var t := CoreTable(c, h);
      'j' in t && 'J' in t && t['j'] == tj && t['J'] == j
  {
    var dash := |before|;
    assert c.prefix[dash] == '-' && forall k :: dash < k < |c.prefix| ==> c.prefix[k] == tj[k - dash - 1];
    assert RFind(c.prefix, '-') == dash;
    assert AfterLastDash(c.prefix) == tj;
    UnescapeInverts(j, tj);
    hide Unescape, CoreTable, IsEscaping, AfterLastDash;
    CoreLetters(c, h);
  }

  const FIXED_LETTER_SET: set<char> := {'t', 'S', 'C', 'L', 'E', 'o', 'w', 'W'}

  lemma FixedLettersApart(x: char)
    requires x in FIXED_LETTER_SET
    ensures x !in UNIT_LETTERS && x !in HOST_LETTERS && x != '%'
  {
  }

  lemma FixedLettersKept(c: Context, h: Host, x: char)
    requires x in FIXED_LETTER_SET && x in FIXED_LETTERS
    ensures x in CoreTable(c, h) && CoreTable(c, h)[x] == FIXED_LETTERS[x]
  {
    hide UnitLetters, HostLetters, FIXED_LETTERS, UNIT_LETTERS, HOST_LETTERS, FIXED_LETTER_SET;
    UnitLetterSet(c);
    HostLetterSet(h);
    FixedLettersApart(x);
  }

  lemma DirectoryTable(c: Context, h: Host)
    ensures var t := CoreTable(c, h);
      && {'t', 'S', 'C', 'L', 'E'} <= t.Keys
      && t['t'] == "/run" && t['S'] == "/var/lib" && t['C'] == "/var/cache" && t['L'] == "/var/log" && t['E'] == "/etc"
  {
    hide CoreTable;
    FixedLettersKept(c, h, 't');
    FixedLettersKept(c, h, 'S');
    FixedLettersKept(c, h, 'C');
    FixedLettersKept(c, h, 'L');
    FixedLettersKept(c, h, 'E');
  }

  /** The directories behind the directory letters, wherever they stand in a text. */
  lemma DirectoryLetters(rest: string, c: Context, h: Host)
    ensures var t := CoreTable(c, h);
      && Resolve("%t" + rest, t) == "/run" + Resolve(rest, t)
      && Resolve("%S" + rest, t) == "/var/lib" + Resolve(rest, t)
      && Resolve("%C" + rest, t) == "/var/cache" + Resolve(rest, t)
      && Resolve("%L" + rest, t) == "/var/log" + Resolve(rest, t)
      && Resolve("%E" + rest, t) == "/etc" + Resolve(rest, t)
  {
    hide *;
    DirectoryTable(c, h);
    var t := CoreTable(c, h);
    ExpandPair('t', rest, t);
    ExpandPair('S', rest, t);
    ExpandPair('C', rest, t);
    ExpandPair('L', rest, t);
    ExpandPair('E', rest, t);
  }

  /** For the table the program uses, doubling protects whatever the unit and the host are. */
  lemma CoreTableProtects(s: string, c: Context, h: Host)
    ensures Resolve(DoublePercents(s), CoreTable(c, h)) == s
  {
    hide UnitLetters, HostLetters, FIXED_LETTERS;
    DoubledIsLiteral(s, CoreTable(c, h));
  }

  // ---------------------------------------------------------------- units whose letters bring in no percent sign

  /** A character that no \xNN escape contains. */
  predicate NeverEscapes(c: char)
  {
    c != '\\' && c != 'x' && HexValue(c) < 0
  }

  /** A name can be cut at such a character before or after unescaping. */
  lemma {:induction false} UnescapeCut(a: string, c: char, b: string)
    requires NeverEscapes(c)
    ensures Unescape(a + [c] + b) == Unescape(a) + [c] + Unescape(b)
  {
    var s := a + [c] + b;
    if a == "" {
      assert s[1..] == b && s[0] == c;
      assert Unescape(s) == [c] + Unescape(b);
    } else {
      var k := if StartsWithEscape(a) then 4 else 1;
      UnescapeCut(a[k..], c, b);
      assert s[k..] == a[k..] + [c] + b;
      assert StartsWithEscape(s) <==> StartsWithEscape(a);
      var head := if k == 4 then [(16 * HexValue(a[2]) + HexValue(a[3])) as char] else [a[0]];
      assert Unescape(a) == head + Unescape(a[k..]);
      assert Unescape(s) == head + (Unescape(a[k..]) + [c] + Unescape(b));
    }
  }

  /** Unescaping loses no percent sign. */
  lemma {:induction false} UnescapeKeepsPercent(s: string)
    requires '%' in s
    ensures '%' in Unescape(s)
  {
    if s[0] != '%' {
      var k := if StartsWithEscape(s) then 4 else 1;
      var i :| 0 <= i < |s| && s[i] == '%';
      assert i >= k && s[k..][i - k] == '%';
      UnescapeKeepsPercent(s[k..]);
    }
  }

  /** The name and its unescaped form are free of percent signs. */
  predicate NamePlain(s: string)
  {
    '%' !in Unescape(s)
  }

  lemma PlainCut(a: string, c: char, b: string)
    requires NeverEscapes(c) && NamePlain(a + [c] + b)
    ensures NamePlain(a) && NamePlain(b)
  {
    UnescapeCut(a, c, b);
    var u := Unescape(a) + [c] + Unescape(b);
    assert forall x :: x in Unescape(a) ==> x in u;
    assert forall x :: x in Unescape(b) ==> x in u;
  }

  lemma PlainEnds(s: string, k: nat)
    requires k < |s| && NeverEscapes(s[k]) && NamePlain(s)
    ensures NamePlain(s[..k]) && NamePlain(s[k + 1..])
  {
    assert s == s[..k] + [s[k]] + s[k + 1..];
    PlainCut(s[..k], s[k], s[k + 1..]);
  }

  lemma PlainParts(name: string)
    requires NamePlain(name)
    ensures var c := ContextOf(name);
      NamePlain(c.prefix) && NamePlain(c.instance) && NamePlain(AfterLastDash(c.prefix))
  {
    hide NamePlain;
    var dot, at := RFind(name, '.'), Find(name, '@', 0);
    var c := ContextOf(name);
    NothingIsPlain();
    if dot >= 0 {
      PlainEnds(name, dot);
    }
    if IsTemplateName(name) {
      var front := name[..dot];
      PlainEnds(front, at);
      assert front[..at] == c.prefix && front[at + 1..] == c.instance;
    }
    var dash := RFind(c.prefix, '-');
    if dash >= 0 {
      PlainEnds(c.prefix, dash);
    } else {
      assert AfterLastDash(c.prefix) == c.prefix;
    }
  }

  lemma NothingIsPlain()
    ensures NamePlain("")
  {
  }

  predicate HostPlain(h: Host)
  {
    forall c :: c in HostLetters(h) ==> '%' !in HostLetters(h)[c]
  }

  lemma UnitLettersPlain(name: string)
    requires NamePlain(name)
    ensures ExpansionsPlain(UnitLetters(ContextOf(name)))
  {
    hide ContextOf, Unescape, AfterLastDash;
    var c := ContextOf(name);
    ContextName(name);
    PlainParts(name);
    var last := AfterLastDash(c.prefix);
    if '%' in c.name { UnescapeKeepsPercent(c.name); }
    if '%' in c.prefix { UnescapeKeepsPercent(c.prefix); }
    if '%' in c.instance { UnescapeKeepsPercent(c.instance); }
    if '%' in last { UnescapeKeepsPercent(last); }
  }

  lemma ContextName(name: string)
    ensures ContextOf(name).name == name
  {
  }

  lemma FixedPlain()
    ensures ExpansionsPlain(FIXED_LETTERS)
  {
  }

  lemma UnitLetterSet(c: Context)
    ensures UnitLetters(c).Keys == UNIT_LETTERS
    ensures 'N' in UnitLetters(c) && UnitLetters(c)['N'] == Unescape(c.name)
  {
    hide Unescape, AfterLastDash;
  }

  lemma HostLetterSet(h: Host)
    ensures HostLetters(h).Keys == HOST_LETTERS
  {
  }

  lemma MergePlain(a: Table, b: Table)
    requires ExpansionsPlain(a) && ExpansionsPlain(b)
    ensures ExpansionsPlain(a + b)
  {
  }

  lemma CoreIsPlain(c: Context, h: Host)
    requires ExpansionsPlain(UnitLetters(c)) && HostPlain(h)
    ensures ExpansionsPlain(CoreTable(c, h))
  {
    FixedPlain();
    assert ExpansionsPlain(HostLetters(h));
    hide UnitLetters, HostLetters, FIXED_LETTERS, ExpansionsPlain;
    PercentIsPlain();
    MergePlain(FIXED_LETTERS, HostLetters(h));
    MergePlain(FIXED_LETTERS + HostLetters(h), UnitLetters(c));
    MergePlain(FIXED_LETTERS + HostLetters(h) + UnitLetters(c), map['%' := "%"]);
  }

  lemma PercentIsPlain()
    ensures ExpansionsPlain(map['%' := "%"])
  {
  }

  const UNIT_LETTERS: set<char> := {'n', 'N', 'p', 'P', 'i', 'I', 'f', 'j', 'J'}
  const HOST_LETTERS: set<char> := {'b', 'm', 'H', 'a', 'v', 'u', 'U', 'g', 'h', 's'}

  lemma LettersApart(x: char)
    requires x in HOST_LETTERS
    ensures x !in UNIT_LETTERS && x != '%'
  {
  }

  lemma PercentIsNoLetter()
    ensures '%' !in UNIT_LETTERS
  {
  }

  lemma OwnLetter(c: Context, h: Host, x: char)
    ensures x in UNIT_LETTERS ==> x in CoreTable(c, h) && CoreTable(c, h)[x] == UnitLetters(c)[x] && x != '%'
    ensures x in HOST_LETTERS ==> x in CoreTable(c, h) && CoreTable(c, h)[x] == HostLetters(h)[x] && x != '%'
  {
    hide UnitLetters, HostLetters, FIXED_LETTERS, UNIT_LETTERS, HOST_LETTERS;
    UnitLetterSet(c);
    HostLetterSet(h);
    PercentIsNoLetter();
    if x in HOST_LETTERS {
      LettersApart(x);
    }
  }

  /**
   The program's expansions hold no percent sign if and only if the unescaped
   unit name and the host's values hold none; a name free of percent signs is
   not enough, since \x25 unescapes to one.
   */
  lemma CorePlainExact(name: string, h: Host)
    ensures ExpansionsPlain(CoreTable(ContextOf(name), h)) <==> NamePlain(name) && HostPlain(h)
  {
    hide ContextOf, CoreTable, UnitLetters, HostLetters, Unescape;
    var c := ContextOf(name);
    ContextName(name);
    if NamePlain(name) && HostPlain(h) {
      UnitLettersPlain(name);
      CoreIsPlain(c, h);
    } else if !NamePlain(name) {
      UnitLetterSet(c);
      OwnLetter(c, h, 'N');
    } else {
      HostLetterSet(h);
      var x :| x in HostLetters(h) && '%' in HostLetters(h)[x];
      OwnLetter(c, h, x);
    }
  }

  /** `%j` is what follows the last dash of the prefix. */
  lemma FinalComponent(s: string)
    ensures '-' !in AfterLastDash(s)
    ensures var k := |s| - |AfterLastDash(s)|;
      s[k..] == AfterLastDash(s) && (k > 0 ==> s[k - 1] == '-')
  {
  }

  lemma TwoSpecifiers(table: Table)
    requires 'p' in table && 'i' in table && 'n' in table
    ensures Resolve("%p@%i", table) == table['p'] + "@" + table['i'] && Resolve("%n", table) == table['n']
  {
    hide *;
    OneSpecifier(table, 'n');
    OneSpecifier(table, 'i');
    ResolvePlain('@', "%i", table);
    assert ['@'] + "%i" == "@%i";
    ExpandPair('p', "@%i", table);
    assert ['%', 'p'] + "@%i" == "%p@%i";
    Join3(table['p'], "@", table['i']);
  }

  lemma OneSpecifier(table: Table, c: char)
    requires c in table
    ensures Resolve(['%', c], table) == table[c]
  {
    ExpandPair(c, "", table);
    ResolveNothing(table);
    hide *;
    assert ['%', c] + "" == ['%', c];
    assert table[c] + "" == table[c];
  }

  lemma CoreLetters(c: Context, h: Host)
    ensures var t := CoreTable(c, h);
      && {'n', 'N', 'p', 'P', 'i', 'I', 'f', 'j', 'J'} <= t.Keys && '%' in t && t['%'] == "%"
      && t['n'] == c.name && t['N'] == Unescape(c.name)
      && t['p'] == c.prefix && t['P'] == Unescape(c.prefix)
      && t['i'] == c.instance && t['I'] == Unescape(c.instance)
      && t['f'] == (if c.instance == "" then "" else "/" + Unescape(c.instance))
      && t['j'] == AfterLastDash(c.prefix) && t['J'] == Unescape(AfterLastDash(c.prefix))
  {
    hide HostLetters, FIXED_LETTERS, Unescape, AfterLastDash;
    UnitLettersKept(c, h);
    var t := UnitLetters(c);
    assert 'p' in t && 'i' in t && 'n' in t && 'I' in t && 'N' in t && 'P' in t && 'f' in t && 'j' in t && 'J' in t;
  }

  /** `%p@%i` names an instance of a template again, up to its type. */
  lemma InstanceNamedAgain(name: string, h: Host)
    requires IsTemplateName(name)
    ensures var c := ContextOf(name);
      Resolve("%p@%i", CoreTable(c, h)) + "." + c.unitType == Resolve("%n", CoreTable(c, h))
  {
    hide Resolve, CoreTable;
    var c := ContextOf(name);
    ContextRecomposes(name);
    CoreLetters(c, h);
    TwoSpecifiers(CoreTable(c, h));
  }
}
