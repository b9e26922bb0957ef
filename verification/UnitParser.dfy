/** `parse_ini` over the lines of a unit file, and the readers of the values it stores. */
module UnitParser {
  import opened Strings
  import opened Fields

  /** Joins the values of a repeated key. */
  const RS := '\U{1F}'

  const LIST_SEPS: set<char> := {' ', '\t', RS}

  // ---------------------------------------------------------------- single lines

  predicate IsSpace(c: char) { c == ' ' || c == '\t' || c == '\r' || c == '\n' }

  function TrimLeft(s: string): string
  {
    if s != "" && IsSpace(s[0]) then TrimLeft(s[1..]) else s
  }

  function TrimRight(s: string): string
  {
    if s != "" && IsSpace(s[|s| - 1]) then TrimRight(s[..|s| - 1]) else s
  }

  function Trim(s: string): string
  {
    TrimRight(TrimLeft(s))
  }

  /** Trimming removes exactly the white space around the text. */
  lemma {:induction false} TrimLeftExact(s: string) returns (a: string)
    ensures s == a + TrimLeft(s) && forall i :: 0 <= i < |a| ==> IsSpace(a[i])
    ensures TrimLeft(s) != "" ==> !IsSpace(TrimLeft(s)[0])
  {
    a := "";
    if s != "" && IsSpace(s[0]) {
      var rest := TrimLeftExact(s[1..]);
      a := [s[0]] + rest;
      assert s == [s[0]] + s[1..];
    }
  }

  lemma {:induction false} TrimRightExact(s: string) returns (b: string)
    ensures s == TrimRight(s) + b && forall i :: 0 <= i < |b| ==> IsSpace(b[i])
    ensures TrimRight(s) != "" ==> !IsSpace(TrimRight(s)[|TrimRight(s)| - 1])
  {
    b := "";
    if s != "" && IsSpace(s[|s| - 1]) {
      var rest := TrimRightExact(s[..|s| - 1]);
      b := rest + [s[|s| - 1]];
      assert s == s[..|s| - 1] + [s[|s| - 1]];
    }
  }

  /** Spaces, tabs and line ends only. */
  predicate White(s: string)
  {
    forall i :: 0 <= i < |s| ==> s[i] in {' ', '\t', '\r', '\n'}
  }

  lemma TrimExact(s: string) returns (a: string, b: string)
    ensures s == a + Trim(s) + b && White(a) && White(b)
    ensures Trim(s) != "" ==> !White(Trim(s)[..1]) && !White(Trim(s)[|Trim(s)| - 1..])
  {
    hide TrimLeft, TrimRight;
    a := TrimLeftExact(s);
    b := TrimRightExact(TrimLeft(s));
    var t := Trim(s);
    assert a + (t + b) == a + t + b;
    if t != "" {
      assert TrimLeft(s)[0] == t[0] == t[..1][0];
      assert t[|t| - 1..][0] == t[|t| - 1];
    }
  }

  /** No white space at either end. */
  predicate Trimmed(s: string)
  {
    s != "" ==> s[0] !in {' ', '\t', '\r', '\n'} && s[|s| - 1] !in {' ', '\t', '\r', '\n'}
  }

  lemma TrimmedStays(s: string)
    requires Trimmed(s)
    ensures Trim(s) == s
  {
  }

  lemma {:induction false} TrimLeftWhite(a: string, s: string)
    requires White(a)
    ensures TrimLeft(a + s) == TrimLeft(s)
  {
    if a == "" {
      assert a + s == s;
    } else {
      assert (a + s)[1..] == a[1..] + s;
      TrimLeftWhite(a[1..], s);
    }
  }

  lemma {:induction false} TrimRightWhite(s: string, b: string)
    requires White(b)
    ensures TrimRight(s + b) == TrimRight(s)
  {
    if b == "" {
      assert s + b == s;
    } else {
      assert (s + b)[..|s + b| - 1] == s + b[..|b| - 1];
      TrimRightWhite(s, b[..|b| - 1]);
    }
  }

  /** White space around a text does not matter. */
  lemma TrimAround(a: string, s: string, b: string)
    requires White(a) && White(b) && Trimmed(s)
    ensures Trim(a + s + b) == s
  {
    TrimmedStays(s);
    hide TrimLeft, TrimRight;
    assert a + s + b == a + (s + b);
    TrimLeftWhite(a, s + b);
    if s == "" {
      assert s + b == b == b + "";
      TrimLeftWhite(b, "");
      NothingTrimmed();
    } else {
      KeepsFirst(s, b);
      TrimRightWhite(s, b);
    }
  }

  lemma NothingTrimmed()
    ensures TrimLeft("") == "" && TrimRight("") == ""
  {
  }

  lemma KeepsFirst(s: string, b: string)
    requires s != "" && !IsSpace(s[0])
    ensures TrimLeft(s + b) == s + b && TrimLeft(s) == s
  {
  }

  datatype Line = Ignored | Header(section: string) | Entry(key: string, val: string)

  function Classify(raw: string): Line
  {
    var t := Trim(raw);
    if t == "" || t[0] == '#' || t[0] == ';' then Ignored
    else if t[0] == '[' && t[|t| - 1] == ']' then Header(t[1..|t| - 1])
    else
      var eq := Find(t, '=', 0);
      if eq == |t| then Ignored else Entry(Trim(t[..eq]), Trim(t[eq + 1..]))
  }

  /** The line `key=val` starts like a comment, or has the brackets of a section header. */
  predicate Disguised(key: string, val: string)
  {
    key != "" && (key[0] == '#' || key[0] == ';' || (key[0] == '[' && val != "" && val[|val| - 1] == ']'))
  }

  /** What is left of `key`, a gap, '=', a gap and `val` once the ends are trimmed. */
  function Compact(key: string, g: string, h: string, val: string): string
  {
    (if key == "" then "" else key + g) + ['='] + if val == "" then "" else h + val
  }

  lemma CompactTrimmed(key: string, g: string, h: string, val: string)
    requires Trimmed(key) && Trimmed(val) && White(g) && White(h) && '=' !in key
    ensures var t := Compact(key, g, h, val);
      && Trimmed(t) && t != "" && t[0] == (if key == "" then '=' else key[0])
      && t[|t| - 1] == (if val == "" then '=' else val[|val| - 1])
      && Find(t, '=', 0) == (if key == "" then 0 else |key + g|)
  {
    hide Find;
    var left, t := if key == "" then "" else key + g, Compact(key, g, h, val);
    assert t[|left|] == '=' && forall k :: 0 <= k < |left| ==> t[k] == left[k];
    FindIs(t, '=', |left|);
  }

  lemma CompactReads(key: string, g: string, h: string, val: string)
    requires Trimmed(key) && Trimmed(val) && White(g) && White(h) && '=' !in key
    ensures var t := Compact(key, g, h, val);
      Find(t, '=', 0) < |t| && Trim(t[..Find(t, '=', 0)]) == key && Trim(t[Find(t, '=', 0) + 1..]) == val
  {
    hide Find, Trim, Trimmed, White;
    CompactTrimmed(key, g, h, val);
    var t, left, right := Compact(key, g, h, val), if key == "" then "" else key + g, if val == "" then "" else h + val;
    assert t == left + ['='] + right && t[..|left|] == left && t[|left| + 1..] == right;
    NoSpace();
    assert "" + key + g == key + g && h + val + "" == h + val && "" + "" + "" == "";
    TrimAround("", key, if key == "" then "" else g);
    TrimAround(if val == "" then "" else h, val, "");
  }

  lemma NoSpace()
    ensures White("") && Trimmed("")
  {
  }

  /** The line as written, with the white space at its ends set apart. */
  lemma Regroup(a: string, key: string, g: string, h: string, val: string, b: string)
    requires White(a) && White(g) && White(h) && White(b)
    ensures var before, after := if key == "" then a + g else a, if val == "" then h + b else b;
      && White(before) && White(after)
      && a + key + g + ['='] + h + val + b == before + Compact(key, g, h, val) + after
  {
    var left, right := a + key + g, h + val + b;
    var before, after := if key == "" then a + g else a, if val == "" then h + b else b;
    var l, r := if key == "" then "" else key + g, if val == "" then "" else h + val;
    assert White(before) && White(after);
    hide White;
    assert left == before + l;
    assert right == r + after;
    Middle(a + key + g, h, val, b);
    Sides(before, l, r, after);
  }

  lemma Middle(left: string, h: string, val: string, b: string)
    ensures left + ['='] + h + val + b == left + ['='] + (h + val + b)
  {
  }

  lemma Sides(before: string, l: string, r: string, after: string)
    ensures before + l + ['='] + (r + after) == before + (l + ['='] + r) + after
  {
  }

  /**
   An entry is read back as that entry, whatever white space stands around its
   parts, if and only if it does not look like a comment or a header.
   */
  lemma PrintedEntry(a: string, key: string, g: string, h: string, val: string, b: string)
    requires Trimmed(key) && '=' !in key && Trimmed(val) && White(a) && White(g) && White(h) && White(b)
    ensures Classify(a + key + g + ['='] + h + val + b) == Entry(key, val) <==> !Disguised(key, val)
  {
    hide Find, Trim, Trimmed, White, Compact;
    var t := Compact(key, g, h, val);
    CompactTrimmed(key, g, h, val);
    CompactReads(key, g, h, val);
    Regroup(a, key, g, h, val, b);
    TrimAround(if key == "" then a + g else a, t, if val == "" then h + b else b);
  }

  /** A section header is read back as that section, whatever white space stands around it. */
  lemma PrintedHeader(a: string, section: string, b: string)
    requires White(a) && White(b)
    ensures Classify(a + (['['] + section + [']']) + b) == Header(section)
  {
    var t := ['['] + section + [']'];
    TrimAround(a, t, b);
    hide Trim, TrimLeft, TrimRight;
    assert t[1..|t| - 1] == section;
  }

  lemma PrintedComment(mark: char, text: string)
    requires mark == '#' || mark == ';'
    ensures Classify([mark] + text) == Ignored
  {
    var s := [mark] + text;
    assert TrimLeft(s) == s;
    var b := TrimRightExact(s);
    if Trim(s) != "" { assert s[0] == Trim(s)[0]; }
  }

  /** Anything else without '=' is ignored: blank lines, and text that has not both brackets. */
  lemma StrayLine(line: string)
    requires '=' !in line && !('[' in line && ']' in line)
    ensures Classify(line) == Ignored
  {
    hide Find, TrimLeft, TrimRight;
    var a, b := TrimExact(line);
    var t := Trim(line);
    hide Trim;
    assert forall i :: 0 <= i < |t| ==> t[i] == line[|a| + i];
    FindIs(t, '=', |t|);
  }

  type Sections = map<string, map<string, string>>

  /** The captured state of `process_line`. */
  datatype Ini = Ini(sections: Sections, current: string)

  const EMPTY := Ini(map[], "")

  function Append(existing: string, val: string): string
  {
    if existing == "" then val else existing + [RS] + val
  }

  /** `sections[section][key]`, which default-constructs what is missing. */
  function Get(s: Sections, section: string, key: string): string
  {
    if section in s && key in s[section] then s[section][key] else ""
  }

  function Store(st: Ini, key: string, val: string): Ini
  {
    var entries := if st.current in st.sections then st.sections[st.current] else map[];
    st.(sections := st.sections[st.current := entries[key := Append(Get(st.sections, st.current, key), val)]])
  }

  function ProcessLine(st: Ini, raw: string): Ini
  {
    match Classify(raw)
    case Ignored => st
    case Header(section) => st.(current := section)
    case Entry(key, val) => Store(st, key, val)
  }

  function ProcessAll(st: Ini, lines: seq<string>): Ini
    decreases |lines|
  {
    if lines == [] then st else ProcessAll(ProcessLine(st, lines[0]), lines[1..])
  }

  // ---------------------------------------------------------------- continuation lines

  predicate Continues(line: string)
  {
    line != "" && line[|line| - 1] == '\\'
  }

  /** The physical lines glued at trailing backslashes, `acc` being what is read so far of the first. */
  function Logical(lines: seq<string>, acc: string): seq<string>
  {
    if lines == [] then NonEmpty(acc)
    else if Continues(lines[0]) then Logical(lines[1..], acc + lines[0][..|lines[0]| - 1])
    else [acc + lines[0]] + Logical(lines[1..], "")
  }

  /** The loop of lines 65-75. */
  method ParseIni(lines: seq<string>) returns (sections: Sections)
    ensures sections == ProcessAll(EMPTY, Logical(lines, "")).sections
    ensures Reads(sections, Logical(lines, ""))
  {
    hide Classify;
    var st, accumulated := EMPTY, "";
    assert lines[0..] == lines;
    for i := 0 to |lines|
      invariant ProcessAll(st, Logical(lines[i..], accumulated)) == ProcessAll(EMPTY, Logical(lines, ""))
    {
      var line := lines[i];
      assert lines[i..][1..] == lines[i + 1..];
      if Continues(line) {
        accumulated := accumulated + line[..|line| - 1];
      } else {
        ProcessFirst(st, accumulated + line, Logical(lines[i + 1..], ""));
        if accumulated != "" {
          accumulated := accumulated + line;
          st := ProcessLine(st, accumulated);
          accumulated := "";
        } else {
          assert accumulated + line == line;
          st := ProcessLine(st, line);
        }
      }
    }
    assert lines[|lines|..] == [];
    ProcessFirst(st, accumulated, []);
    if accumulated != "" {
      st := ProcessLine(st, accumulated);
    }
    sections := st.sections;
    ParsedExactly(Logical(lines, ""));
  }

  lemma ProcessFirst(st: Ini, line: string, rest: seq<string>)
    ensures ProcessAll(st, [line] + rest) == ProcessAll(ProcessLine(st, line), rest)
    ensures [line] + [] == [line] && ProcessAll(ProcessLine(st, line), []) == ProcessLine(st, line)
  {
    assert ([line] + rest)[1..] == rest;
  }

  function Glue(pieces: seq<string>): string
  {
    if pieces == [] then "" else pieces[0] + Glue(pieces[1..])
  }

  /** A logical line written as backslash-continued physical lines. */
  function Physical(pieces: seq<string>): seq<string>
  {
    if |pieces| <= 1 then pieces else [pieces[0] + ['\\']] + Physical(pieces[1..])
  }

  function GlueAll(breaks: seq<seq<string>>): seq<string>
  {
    if breaks == [] then [] else [Glue(breaks[0])] + GlueAll(breaks[1..])
  }

  function PhysicalAll(breaks: seq<seq<string>>): seq<string>
  {
    if breaks == [] then [] else Physical(breaks[0]) + PhysicalAll(breaks[1..])
  }

  /** Every logical line has at least one piece and does not itself end in a backslash. */
  predicate Breakable(breaks: seq<seq<string>>)
  {
    breaks != [] ==> breaks[0] != [] && !Continues(Glue(breaks[0])) && Breakable(breaks[1..])
  }

  lemma GlueTail(pieces: seq<string>)
    requires |pieces| > 1 && !Continues(Glue(pieces))
    ensures !Continues(Glue(pieces[1..]))
  {
    var rest := Glue(pieces[1..]);
    if rest != "" {
      assert (pieces[0] + rest)[|pieces[0] + rest| - 1] == rest[|rest| - 1];
    }
  }

  lemma {:induction false} LogicalOfPhysical(pieces: seq<string>, more: seq<string>, acc: string)
    requires pieces != [] && !Continues(Glue(pieces))
    ensures Logical(Physical(pieces) + more, acc) == [acc + Glue(pieces)] + Logical(more, "")
    decreases |pieces|
  {
    var lines := Physical(pieces) + more;
    if |pieces| == 1 {
      assert pieces == [pieces[0]] && Glue(pieces) == pieces[0] + "" == pieces[0];
      assert lines[0] == pieces[0] && lines[1..] == more;
    } else {
      GlueTail(pieces);
      LogicalOfPhysical(pieces[1..], more, acc + pieces[0]);
      hide Glue;
      var first := pieces[0] + ['\\'];
      assert lines[0] == first && lines[1..] == Physical(pieces[1..]) + more;
      assert first[..|first| - 1] == pieces[0];
      Join3(acc, pieces[0], Glue(pieces[1..]));
    }
  }

  lemma {:induction false} LogicalOfAll(breaks: seq<seq<string>>, more: seq<string>)
    requires Breakable(breaks)
    ensures Logical(PhysicalAll(breaks) + more, "") == GlueAll(breaks) + Logical(more, "")
  {
    hide Logical, Glue, Physical, Continues;
    if breaks == [] {
      assert [] + more == more && [] + Logical(more, "") == Logical(more, "");
    } else {
      var rest := PhysicalAll(breaks[1..]) + more;
      LogicalOfPhysical(breaks[0], rest, "");
      LogicalOfAll(breaks[1..], more);
      assert "" + Glue(breaks[0]) == Glue(breaks[0]);
      assert PhysicalAll(breaks) + more == Physical(breaks[0]) + rest;
      Associative([Glue(breaks[0])], GlueAll(breaks[1..]), Logical(more, ""));
    }
  }

  /** A file whose last line still asks for a continuation loses nothing but the backslash. */
  lemma LastLineContinued(breaks: seq<seq<string>>, last: string)
    requires Breakable(breaks)
    ensures Logical(PhysicalAll(breaks) + [last + ['\\']], "") ==
      GlueAll(breaks) + if last == "" then [] else [last]
  {
    LogicalOfAll(breaks, [last + ['\\']]);
    var line: string := last + ['\\'];
    var lines: seq<string> := [line];
    assert line[..|line| - 1] == last && lines[1..] == [] && "" + last == last;
    assert Logical(lines, "") == Logical([], last);
  }

  lemma {:induction false} LogicalOfUnbroken(breaks: seq<seq<string>>)
    requires Breakable(breaks)
    ensures Logical(GlueAll(breaks), "") == GlueAll(breaks)
  {
    if breaks != [] {
      LogicalOfUnbroken(breaks[1..]);
      var lines := GlueAll(breaks);
      assert lines[0] == Glue(breaks[0]) && lines[1..] == GlueAll(breaks[1..]);
      assert "" + lines[0] == lines[0];
    }
  }

  lemma LogicalOfNothing()
    ensures Logical([], "") == []
  {
  }

  /** Breaking logical lines into continued physical lines does not change what a file means. */
  lemma BreakingChangesNothing(breaks: seq<seq<string>>)
    requires Breakable(breaks)
    ensures ProcessAll(EMPTY, Logical(PhysicalAll(breaks), "")) == ProcessAll(EMPTY, Logical(GlueAll(breaks), ""))
  {
    LogicalOfAll(breaks, []);
    LogicalOfUnbroken(breaks);
    LogicalOfNothing();
    assert PhysicalAll(breaks) + [] == PhysicalAll(breaks) && GlueAll(breaks) + [] == GlueAll(breaks);
  }

  // ---------------------------------------------------------------- repeated keys

  /** The values given to `key` in `section`, in file order, when reading starts in section `current`. */
  function ValuesFor(lines: seq<string>, current: string, section: string, key: string): seq<string>
  {
    if lines == [] then []
    else
      match Classify(lines[0])
      case Ignored => ValuesFor(lines[1..], current, section, key)
      case Header(s) => ValuesFor(lines[1..], s, section, key)
      case Entry(k, v) =>
        (if current == section && k == key then [v] else []) + ValuesFor(lines[1..], current, section, key)
  }

  /** What successive assignments to one key leave behind. */
  function Accumulate(existing: string, vals: seq<string>): string
    decreases |vals|
  {
    if vals == [] then existing else Accumulate(Append(existing, vals[0]), vals[1..])
  }

  lemma StoreGet(st: Ini, key: string, val: string, section: string, k: string)
    ensures Get(Store(st, key, val).sections, section, k) ==
      var stored := Get(st.sections, section, k);
      if st.current == section && key == k then Append(stored, val) else stored
  {
  }

  /** The stored value of a key is the accumulation of its values in file order. */
  lemma {:induction false} StoredValue(st: Ini, lines: seq<string>, section: string, key: string)
    ensures Get(ProcessAll(st, lines).sections, section, key) ==
      Accumulate(Get(st.sections, section, key), ValuesFor(lines, st.current, section, key))
    decreases |lines|
  {
    hide Classify, Get, Append;
    if lines != [] {
      var next := ProcessLine(st, lines[0]);
      StoredValue(next, lines[1..], section, key);
      match Classify(lines[0])
      case Ignored =>
      case Header(_) =>
      case Entry(k, v) =>
        StoreGet(st, k, v, section, key);
        var rest := ValuesFor(lines[1..], st.current, section, key);
        assert ([v] + rest)[1..] == rest;
        assert [] + rest == rest;
    }
  }

  // ---------------------------------------------------------------- the whole result

  /** The values with a 0x1F character between each two. */
  function Intercalate(vals: seq<string>): string
    requires vals != []
  {
    if |vals| == 1 then vals[0] else vals[0] + ['\U{1F}'] + Intercalate(vals[1..])
  }

  /** Empty values at the front leave no trace. */
  function Joined(vals: seq<string>): string
  {
    if vals == [] then "" else if vals[0] == "" then Joined(vals[1..]) else Intercalate(vals)
  }

  lemma IntercalateTwo(x: string, y: string, rest: seq<string>)
    ensures Intercalate([x, y] + rest) == Intercalate([x + ['\U{1F}'] + y] + rest)
  {
    assert ([x, y] + rest)[1..] == [y] + rest;
    assert ([y] + rest)[1..] == rest && ([x + ['\U{1F}'] + y] + rest)[1..] == rest;
    if rest != [] {
      Join3(x + ['\U{1F}'], y + ['\U{1F}'], Intercalate(rest));
      Join3(x + ['\U{1F}'], y, ['\U{1F}']);
    }
  }

  lemma {:induction false} AccumulateOn(existing: string, vals: seq<string>)
    requires existing != ""
    ensures Accumulate(existing, vals) == Intercalate([existing] + vals)
    decreases |vals|
  {
    if vals == [] {
      assert [existing] + vals == [existing];
    } else {
      AccumulateOn(existing + [RS] + vals[0], vals[1..]);
      IntercalateTwo(existing, vals[0], vals[1..]);
      assert [existing] + vals == [existing, vals[0]] + vals[1..];
    }
  }

  lemma {:induction false} AccumulateJoins(vals: seq<string>)
    ensures Accumulate("", vals) == Joined(vals)
  {
    if vals != [] {
      if vals[0] == "" {
        AccumulateJoins(vals[1..]);
      } else {
        AccumulateOn(vals[0], vals[1..]);
        assert [vals[0]] + vals[1..] == vals;
      }
    }
  }

  predicate Bound(s: Sections, section: string, key: string)
  {
    section in s && key in s[section]
  }

  lemma {:induction false} StoredKeys(st: Ini, lines: seq<string>, section: string, key: string)
    ensures Bound(ProcessAll(st, lines).sections, section, key) <==>
      Bound(st.sections, section, key) || ValuesFor(lines, st.current, section, key) != []
    decreases |lines|
  {
    hide Classify, Append;
    if lines != [] {
      StoredKeys(ProcessLine(st, lines[0]), lines[1..], section, key);
    }
  }

  predicate NoneEmpty(s: Sections)
  {
    forall section :: section in s ==> s[section] != map[]
  }

  lemma {:induction false} SectionsNotEmpty(st: Ini, lines: seq<string>)
    requires NoneEmpty(st.sections)
    ensures NoneEmpty(ProcessAll(st, lines).sections)
    decreases |lines|
  {
    hide Classify, Append;
    if lines != [] {
      var next := ProcessLine(st, lines[0]);
      if Classify(lines[0]).Entry? {
        assert Classify(lines[0]).key in next.sections[st.current];
      }
      SectionsNotEmpty(next, lines[1..]);
    }
  }

  /** The result holds exactly the keys that the lines give a value, each with its values joined. */
  ghost predicate Reads(s: Sections, lines: seq<string>)
  {
    && (forall section, key :: Bound(s, section, key) <==> ValuesFor(lines, "", section, key) != [])
    && (forall section, key :: Bound(s, section, key) ==>
      s[section][key] == Joined(ValuesFor(lines, "", section, key)))
    && NoneEmpty(s)
  }

  lemma ParsedExactly(lines: seq<string>)
    ensures Reads(ProcessAll(EMPTY, lines).sections, lines)
  {
    hide ProcessAll, ValuesFor, Joined, Accumulate;
    var s := ProcessAll(EMPTY, lines).sections;
    forall section, key
      ensures Bound(s, section, key) <==> ValuesFor(lines, "", section, key) != []
      ensures Bound(s, section, key) ==> s[section][key] == Joined(ValuesFor(lines, "", section, key))
    {
      StoredKeys(EMPTY, lines, section, key);
      StoredValue(EMPTY, lines, section, key);
      AccumulateJoins(ValuesFor(lines, "", section, key));
    }
    SectionsNotEmpty(EMPTY, lines);
  }

  lemma JoinedOnce(vals: seq<string>)
    ensures |vals| == 1 ==> Joined(vals) == vals[0]
    ensures vals != [] && "" !in vals ==> Joined(vals) == Intercalate(vals)
  {
    assert |vals| == 1 ==> vals[1..] == [];
  }

  // ---------------------------------------------------------------- reading back a printed file

  datatype Binding = Binding(key: string, val: string)
  datatype Group = Group(section: string, bindings: seq<Binding>)

  function PrintBindings(bs: seq<Binding>): seq<string>
  {
    if bs == [] then [] else [bs[0].key + ['='] + bs[0].val] + PrintBindings(bs[1..])
  }

  function PrintFile(file: seq<Group>): seq<string>
  {
    if file == [] then []
    else [['['] + file[0].section + [']']] + PrintBindings(file[0].bindings) + PrintFile(file[1..])
  }

  /** Can be written on one line of its own. */
  predicate Writable(b: Binding)
  {
    && Trimmed(b.key) && '=' !in b.key && Trimmed(b.val) && !Disguised(b.key, b.val)
    && (b.val != "" ==> b.val[|b.val| - 1] != '\\')
  }

  predicate AllWritable(file: seq<Group>)
  {
    forall i, j :: 0 <= i < |file| && 0 <= j < |file[i].bindings| ==> Writable(file[i].bindings[j])
  }

  function GivenIn(bs: seq<Binding>, key: string): seq<string>
  {
    if bs == [] then [] else (if bs[0].key == key then [bs[0].val] else []) + GivenIn(bs[1..], key)
  }

  /** The values that the file gives to a key, in order. */
  function Given(file: seq<Group>, section: string, key: string): seq<string>
  {
    if file == [] then []
    else (if file[0].section == section then GivenIn(file[0].bindings, key) else []) + Given(file[1..], section, key)
  }

  lemma WritableLine(b: Binding)
    requires Writable(b)
    ensures Classify(b.key + ['='] + b.val) == Entry(b.key, b.val) && !Continues(b.key + ['='] + b.val)
  {
    hide Classify;
    NoSpace();
    PrintedEntry("", b.key, "", "", b.val, "");
    assert "" + b.key + "" + ['='] + "" + b.val + "" == b.key + ['='] + b.val;
  }

  lemma HeaderLine(section: string)
    ensures Classify(['['] + section + [']']) == Header(section) && !Continues(['['] + section + [']'])
  {
    hide Classify;
    NoSpace();
    PrintedHeader("", section, "");
    assert "" + (['['] + section + [']']) + "" == ['['] + section + [']'];
  }

  lemma {:induction false} BindingsRead(bs: seq<Binding>, more: seq<string>,
                                        current: string, section: string, key: string)
    requires forall j :: 0 <= j < |bs| ==> Writable(bs[j])
    ensures ValuesFor(PrintBindings(bs) + more, current, section, key) ==
      (if current == section then GivenIn(bs, key) else []) + ValuesFor(more, current, section, key)
    ensures Logical(PrintBindings(bs) + more, "") == PrintBindings(bs) + Logical(more, "")
  {
    hide Classify, Continues, Writable;
    if bs == [] {
      assert [] + more == more && [] + Logical(more, "") == Logical(more, "");
      assert [] + ValuesFor(more, current, section, key) == ValuesFor(more, current, section, key);
    } else {
      var line, rest := bs[0].key + ['='] + bs[0].val, PrintBindings(bs[1..]) + more;
      WritableLine(bs[0]);
      BindingsRead(bs[1..], more, current, section, key);
      assert PrintBindings(bs) + more == [line] + rest;
      FirstLine(line, rest, current, section, key);
      Associative(if bs[0].key == key then [bs[0].val] else [], GivenIn(bs[1..], key),
                  ValuesFor(more, current, section, key));
      Associative([line], PrintBindings(bs[1..]), Logical(more, ""));
      Associative([], [], ValuesFor(more, current, section, key));
    }
  }

  lemma FirstLine(line: string, rest: seq<string>, current: string, section: string, key: string)
    requires !Continues(line) && !Classify(line).Ignored?
    ensures Logical([line] + rest, "") == [line] + Logical(rest, "")
    ensures ValuesFor([line] + rest, current, section, key) ==
      match Classify(line)
      case Header(s) => ValuesFor(rest, s, section, key)
      case Entry(k, v) =>
        (if current == section && k == key then [v] else []) + ValuesFor(rest, current, section, key)
  {
    hide Classify, Continues;
    assert ([line] + rest)[1..] == rest && "" + line == line;
  }

  lemma {:induction false} FileRead(file: seq<Group>, current: string, section: string, key: string)
    requires AllWritable(file)
    ensures ValuesFor(PrintFile(file), current, section, key) == Given(file, section, key)
    ensures Logical(PrintFile(file), "") == PrintFile(file)
  {
    hide Classify, Continues, Writable;
    if file == [] {
      LogicalOfNothing();
    } else {
      var g, rest := file[0], PrintFile(file[1..]);
      var line, body := ['['] + g.section + [']'], PrintBindings(g.bindings);
      FileRead(file[1..], g.section, section, key);
      HeaderLine(g.section);
      FirstLine(line, body + rest, current, section, key);
      BindingsRead(g.bindings, rest, g.section, section, key);
      Associative([line], body, rest);
    }
  }

  /**
   Parsing a printed file gives exactly its bindings: a key that is given once
   holds its value, and non-empty values of a repeated key are joined in order.
   */
  lemma FileRoundTrip(file: seq<Group>, section: string, key: string)
    requires AllWritable(file)
    ensures var s, vals := ProcessAll(EMPTY, Logical(PrintFile(file), "")).sections, Given(file, section, key);
      && (Bound(s, section, key) <==> vals != [])
      && (|vals| == 1 ==> s[section][key] == vals[0])
      && (vals != [] && "" !in vals ==> s[section][key] == Intercalate(vals))
  {
    hide ProcessAll, Logical, PrintFile, Given, ValuesFor, AllWritable;
    FileRead(file, "", section, key);
    ParsedExactly(PrintFile(file));
    JoinedOnce(Given(file, section, key));
  }

  // ---------------------------------------------------------------- reading the stored values

  /** The fields of each value, one value after the other. */
  function SplitEach(vals: seq<string>, seps: set<char>): seq<string>
  {
    if vals == [] then [] else Split(vals[0], seps) + SplitEach(vals[1..], seps)
  }

  lemma SplitAppend(existing: string, val: string, seps: set<char>)
    requires RS in seps
    ensures Split(Append(existing, val), seps) == Split(existing, seps) + Split(val, seps)
  {
    hide Split;
    SplitNothing(seps);
    SplitConcat(existing, RS, val, seps);
    assert [] + Split(val, seps) == Split(val, seps);
  }

  /** Splitting the stored value gives the fields of all values in file order. */
  lemma {:induction false} SplitAccumulated(existing: string, vals: seq<string>, seps: set<char>)
    requires RS in seps
    ensures Split(Accumulate(existing, vals), seps) == Split(existing, seps) + SplitEach(vals, seps)
    decreases |vals|
  {
    hide Split, Append;
    if vals == [] {
      assert Split(existing, seps) + [] == Split(existing, seps);
    } else {
      SplitAppend(existing, vals[0], seps);
      SplitAccumulated(Append(existing, vals[0]), vals[1..], seps);
      Associative(Split(existing, seps), Split(vals[0], seps), SplitEach(vals[1..], seps));
    }
  }

  /** A list field ends at a space, a tab or the character that joins repeated keys, and at nothing else. */
  lemma ListFields(a: string, c: char, b: string)
    ensures c == ' ' || c == '\t' || c == '\U{1F}' ==>
      Split(a + [c] + b, LIST_SEPS) == Split(a, LIST_SEPS) + Split(b, LIST_SEPS)
    ensures ' ' !in a && '\t' !in a && '\U{1F}' !in a ==> Split(a, LIST_SEPS) == NonEmpty(a)
  {
    hide Split;
    if c in LIST_SEPS {
      SplitConcat(a, c, b, LIST_SEPS);
    }
    if ' ' !in a && '\t' !in a && '\U{1F}' !in a {
      SplitPlain(a, LIST_SEPS);
    }
  }

  function Kept(vals: seq<string>): seq<string>
  {
    if vals == [] then [] else NonEmpty(vals[0]) + Kept(vals[1..])
  }

  lemma {:induction false} SplitEachPlain(vals: seq<string>)
    requires forall i :: 0 <= i < |vals| ==> RS !in vals[i]
    ensures SplitEach(vals, {RS}) == Kept(vals)
  {
    if vals != [] {
      SplitPlain(vals[0], {RS});
      SplitEachPlain(vals[1..]);
    }
  }

  /** A repeated list-valued key (After=, Requires=, ...) reads as the concatenation of its lines. */
  lemma RepeatedListKey(lines: seq<string>, section: string, key: string)
    ensures Split(Get(ProcessAll(EMPTY, lines).sections, section, key), LIST_SEPS) ==
      SplitEach(ValuesFor(lines, "", section, key), LIST_SEPS)
  {
    hide Split;
    StoredValue(EMPTY, lines, section, key);
    SplitNothing(LIST_SEPS);
    SplitAccumulated("", ValuesFor(lines, "", section, key), LIST_SEPS);
    var each := SplitEach(ValuesFor(lines, "", section, key), LIST_SEPS);
    assert [] + each == each;
  }

  /** A repeated single-valued key (ExecStartPre=, Condition...=) reads as its non-empty values in file order. */
  lemma RepeatedValueKey(lines: seq<string>, section: string, key: string)
    requires forall i :: 0 <= i < |ValuesFor(lines, "", section, key)| ==> RS !in ValuesFor(lines, "", section, key)[i]
    ensures Split(Get(ProcessAll(EMPTY, lines).sections, section, key), {RS}) ==
      Kept(ValuesFor(lines, "", section, key))
  {
    hide Split, ValuesFor;
    var vals := ValuesFor(lines, "", section, key);
    StoredValue(EMPTY, lines, section, key);
    SplitNothing({RS});
    SplitAccumulated("", vals, {RS});
    SplitEachPlain(vals);
    assert [] + Kept(vals) == Kept(vals);
  }

  /** `split_rs`. */
  method SplitRs(s: string) returns (r: seq<string>)
    ensures r == Split(s, {RS})
  {
    hide Split;
    SplitNothing({RS});
    r := [];
    if s == "" {
      return;
    }
    var pos := 0;
    assert s[0..] == s && [] + Split(s, {RS}) == Split(s, {RS});
    while pos <= |s|
      invariant 0 <= pos <= |s|
      invariant r + Split(s[pos..], {RS}) == Split(s, {RS})
      decreases |s| - pos
    {
      var next := Find(s, RS, pos);
      var tok := s[pos..next];
      SplitAt(s[pos..], {RS}, next - pos);
      assert s[pos..][..next - pos] == tok;
      if tok != "" {
        r := r + [tok];
      }
      if next == |s| {
        return;
      }
      assert s[pos..][next - pos + 1..] == s[next + 1..];
      pos := next + 1;
    }
  }
}
