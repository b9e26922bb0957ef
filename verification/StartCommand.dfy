/**
 The command line of `start_service`: a leading '-' is dropped, specifiers are
 expanded, the text is split, and every word but the first is expanded again.
 */
module StartCommand {
  import opened Strings
  import opened Specifiers
  import opened CommandLine

  function StripDash(cmd: string): string
  {
    if cmd != "" && cmd[0] == '-' then cmd[1..] else cmd
  }

  /** The words after one expansion. */
  function ExpandedOnce(cmd: string, table: Table): seq<string>
  {
    Split(Resolve(StripDash(cmd), table))
  }

  function ResolveEach(words: seq<string>, table: Table): (r: seq<string>)
    ensures |r| == |words| && forall i :: 0 <= i < |words| ==> r[i] == Resolve(words[i], table)
  {
    seq(|words|, i requires 0 <= i < |words| => Resolve(words[i], table))
  }

  /** The words that are executed: the path once expanded, the arguments twice. */
  function Launched(cmd: string, table: Table): seq<string>
  {
    var once := ExpandedOnce(cmd, table);
    if once == [] then [] else [once[0]] + ResolveEach(once[1..], table)
  }

  lemma LaunchedAt(cmd: string, table: Table, k: nat)
    requires k < |ExpandedOnce(cmd, table)|
    ensures var once := ExpandedOnce(cmd, table);
      |Launched(cmd, table)| == |once| && Launched(cmd, table)[k] == if k == 0 then once[0] else Resolve(once[k], table)
  {
    hide ExpandedOnce, Resolve;
    var once := ExpandedOnce(cmd, table);
    if k > 0 {
      assert once[1..][k - 1] == once[k];
    }
  }

  lemma LaunchedIs(cmd: string, table: Table, words: seq<string>)
    requires var once := ExpandedOnce(cmd, table);
      && |words| == |once|
      && (words != [] ==> words[0] == once[0])
      && forall k :: 1 <= k < |words| ==> words[k] == Resolve(once[k], table)
    ensures words == Launched(cmd, table)
  {
    hide ExpandedOnce, Resolve;
    if words != [] {
      hide Launched;
      LaunchedAt(cmd, table, 0);
      forall k | 0 <= k < |words|
        ensures words[k] == Launched(cmd, table)[k]
      {
        LaunchedAt(cmd, table, k);
      }
    }
  }

  /** The loop of lines 350-352 over every word but the first. */
  method ExpandArguments(args: seq<string>, table: Table) returns (words: seq<string>)
    requires args != []
    ensures |words| == |args| && words[0] == args[0]
    ensures forall k :: 1 <= k < |words| ==> words[k] == Resolve(args[k], table)
  {
    hide Resolve;
    words := [args[0]];
    for i := 1 to |args|
      invariant |words| == i && words[0] == args[0]
      invariant forall k :: 1 <= k < i ==> words[k] == Resolve(args[k], table)
    {
      var a := ResolveSpecifiers(args[i], table);
      words := words + [a];
    }
  }

  /** Lines 343-352. */
  method BuildCommand(execStart: string, table: Table) returns (words: seq<string>)
    ensures words == Launched(execStart, table)
  {
    hide Split, Resolve, Launched;
    var cmd := execStart;
    if cmd != "" && cmd[0] == '-' {
      cmd := cmd[1..];
    }
    cmd := ResolveSpecifiers(cmd, table);
    var args := SplitExec(cmd);
    words := [];
    if args != [] {
      words := ExpandArguments(args, table);
    }
    LaunchedIs(execStart, table, words);
  }

  // ---------------------------------------------------------------- commands without specifiers

  lemma {:induction false} PlainPieces(ps: seq<Piece>)
    requires WellWritten(ps) && '%' !in WordContent(ps)
    ensures '%' !in WriteWord(ps)
  {
    if ps != [] {
      assert forall c :: c in WordContent(ps[1..]) ==> c in WordContent(ps);
      assert forall c :: c in Content(ps[0]) ==> c in WordContent(ps);
      PlainPieces(ps[1..]);
    }
  }

  predicate PlainWords(words: seq<string>)
  {
    forall i :: 0 <= i < |words| ==> '%' !in words[i]
  }

  lemma {:induction false} PlainLine(ws: seq<seq<Piece>>, gap: string)
    requires Printable(ws) && IsGap(gap) && PlainWords(LineContent(ws))
    ensures '%' !in WriteLine(ws, gap)
  {
    if ws != [] {
      var words := LineContent(ws);
      assert words[0] == WordContent(ws[0]);
      PlainPieces(ws[0]);
      forall i | 0 <= i < |LineContent(ws[1..])|
        ensures '%' !in LineContent(ws[1..])[i]
      {
        assert words[i + 1] == LineContent(ws[1..])[i];
      }
      PlainLine(ws[1..], gap);
    }
  }

  lemma PlainStays(s: string, table: Table)
    requires '%' !in s
    ensures Resolve(s, table) == s
  {
    PlainPrefix(s, "", table);
    ResolveNothing(table);
    assert s + "" == s;
  }

  /** The line without its dash, or the whole line if it has none, is what is executed, word for word. */
  lemma CommandRoundTrip(ws: seq<seq<Piece>>, gap: string, table: Table)
    requires Printable(ws) && IsGap(gap) && PlainWords(LineContent(ws))
    ensures var line := WriteLine(ws, gap);
      && Launched(['-'] + line, table) == LineContent(ws)
      && (line == "" || line[0] != '-' ==> Launched(line, table) == LineContent(ws))
  {
    hide Resolve, Split, Launched, WriteLine, LineContent, Printable, IsGap;
    var line, words := WriteLine(ws, gap), LineContent(ws);
    PlainLine(ws, gap);
    PlainStays(line, table);
    SplitOfPrinted(ws, gap);
    assert (['-'] + line)[1..] == line;
    forall i | 0 <= i < |words|
      ensures words[i] == Resolve(words[i], table)
    {
      PlainStays(words[i], table);
    }
    LaunchedIs(['-'] + line, table, words);
    if line == "" || line[0] != '-' {
      LaunchedIs(line, table, words);
    }
  }

  function BareWord(w: string): seq<Piece>
  {
    if w == "" then [] else [Bare(w[0])] + BareWord(w[1..])
  }

  lemma {:induction false} BareWordWrites(w: string)
    requires forall i :: 0 <= i < |w| ==> w[i] !in {'"', '\'', ' ', '\t'}
    ensures WellWritten(BareWord(w)) && WriteWord(BareWord(w)) == w && WordContent(BareWord(w)) == w
  {
    if w != "" {
      BareWordWrites(w[1..]);
      assert BareWord(w)[1..] == BareWord(w[1..]);
      assert [w[0]] + w[1..] == w;
    }
  }

  /** The dash is dropped before expansion: one that an expansion brings in stays in the word. */
  lemma ExpandedDashStays(c: char, w: string, table: Table)
    requires c in table && table[c] == w && w != "" && '%' !in w
    requires forall i :: 0 <= i < |w| ==> w[i] !in {'"', '\'', ' ', '\t'}
    ensures Launched(['%', c], table) == [w]
  {
    hide Resolve, Split, Launched, WriteWord, WordContent, WellWritten;
    OneSpecifier(table, c);
    BareWordWrites(w);
    var line := [BareWord(w)];
    assert line[1..] == [];
    SplitOfPrinted(line, " ");
    assert LineContent(line[1..]) == [];
    assert LineContent(line) == [w] && WriteLine(line, " ") == w;
    LaunchedIs(['%', c], table, [w]);
  }

  // ---------------------------------------------------------------- when the second expansion is harmless

  /** No argument shows the second expansion a known specifier; the first word does not matter. */
  predicate ArgumentsClear(words: seq<string>, table: Table)
  {
    forall i :: 1 <= i < |words| ==> KnownMet(words[i], table) == 0
  }

  predicate ArgumentsMetPlain(words: seq<string>, table: Table)
  {
    forall i :: 1 <= i < |words| ==> MetPlain(words[i], table)
  }

  /**
   Where the specifiers met in the arguments expand to text without '%', the
   second expansion changes nothing if and only if it meets none of them.
   */
  lemma LaunchedExact(cmd: string, table: Table)
    requires ArgumentsMetPlain(ExpandedOnce(cmd, table), table) && '%' in table && table['%'] == "%"
    ensures Launched(cmd, table) == ExpandedOnce(cmd, table) <==> ArgumentsClear(ExpandedOnce(cmd, table), table)
  {
    hide Split, Resolve, KnownMet, MetPlain, ExpandedOnce;
    var once, twice := ExpandedOnce(cmd, table), Launched(cmd, table);
    assert forall i :: 1 <= i < |once| ==> twice[i] == Resolve(once[i], table);
    forall i | 1 <= i < |once|
      ensures twice[i] == once[i] <==> KnownMet(once[i], table) == 0
    {
      FixedExact(once[i], table);
    }
  }

  /** One direction needs nothing of the table. */
  lemma ClearIsHarmless(cmd: string, table: Table)
    requires ArgumentsClear(ExpandedOnce(cmd, table), table)
    ensures Launched(cmd, table) == ExpandedOnce(cmd, table)
  {
    hide Split, Resolve, KnownMet, ExpandedOnce, Launched;
    var once := ExpandedOnce(cmd, table);
    forall i | 1 <= i < |once|
      ensures once[i] == Resolve(once[i], table)
    {
      NothingKnown(once[i], table);
    }
    LaunchedIs(cmd, table, once);
  }

  // ---------------------------------------------------------------- deciding it from the command as written

  /**
   All that one pass over the command has to remember: whether a word is
   finished, whether the current word has begun, whether it ends in '%', the
   open quote, and whether a '%' was put directly before a known letter in a
   word after the first.
   */
  datatype Reader = Reader(past: bool, begun: bool, percent: bool, quote: char, inQuote: bool, disturbed: bool)

  const FRESH := Reader(false, false, false, '\0', false, false)

  function Read(r: Reader, c: char, table: Table): Reader
  {
    if r.inQuote && c == r.quote then r.(inQuote := false)
    else if !r.inQuote && IsQuote(c) then r.(inQuote := true, quote := c)
    else if !r.inQuote && IsBlank(c) then r.(past := r.past || r.begun, begun := false, percent := false)
    else r.(begun := true, percent := c == '%', disturbed := r.disturbed || (r.past && r.percent && c in table))
  }

  function ReadAll(r: Reader, s: string, table: Table): Reader
    decreases s
  {
    if s == "" then r else ReadAll(Read(r, s[0], table), s[1..], table)
  }

  /** The pass over the unexpanded command: a known specifier is read as its expansion. */
  function ReadCommand(r: Reader, s: string, table: Table): Reader
    decreases s
  {
    if s == "" then r
    else if s[0] == '%' && |s| > 1 then
      ReadCommand(ReadAll(r, if s[1] in table then table[s[1]] else s[..2], table), s[2..], table)
    else ReadCommand(Read(r, s[0], table), s[1..], table)
  }

  predicate Disturbs(cmd: string, table: Table)
  {
    ReadCommand(FRESH, StripDash(cmd), table).disturbed
  }

  lemma {:induction false} ReadConcat(r: Reader, a: string, b: string, table: Table)
    ensures ReadAll(r, a + b, table) == ReadAll(ReadAll(r, a, table), b, table)
    decreases a
  {
    hide Read;
    if a == "" {
      assert a + b == b;
    } else {
      ReadConcat(Read(r, a[0], table), a[1..], b, table);
      assert (a + b)[1..] == a[1..] + b;
    }
  }

  lemma ReadOne(r: Reader, c: char, table: Table)
    ensures ReadAll(r, [c], table) == Read(r, c, table)
  {
    hide Read;
    assert [c][1..] == "";
    assert ReadAll(Read(r, c, table), "", table) == Read(r, c, table);
  }

  lemma {:induction false} ReadsTheExpansion(r: Reader, s: string, table: Table)
    ensures ReadCommand(r, s, table) == ReadAll(r, Resolve(s, table), table)
    decreases s
  {
    hide Read, Resolve, ReadAll;
    if s == "" {
      ResolveNothing(table);
      ReadNothing(r, table);
    } else if s[0] == '%' && |s| > 1 {
      var piece, rest := if s[1] in table then table[s[1]] else s[..2], s[2..];
      ReadsTheExpansion(ReadAll(r, piece, table), rest, table);
      assert s == ['%', s[1]] + rest && s[..2] == ['%', s[1]];
      ExpandPair(s[1], rest, table);
      ReadConcat(r, piece, Resolve(rest, table), table);
    } else {
      var rest := s[1..];
      ReadsTheExpansion(Read(r, s[0], table), rest, table);
      ResolvePlainOrLast(s, table);
      ReadOne(r, s[0], table);
      ReadConcat(r, [s[0]], Resolve(rest, table), table);
    }
  }

  lemma ReadNothing(r: Reader, table: Table)
    ensures ReadAll(r, "", table) == r
  {
  }

  lemma ResolvePlainOrLast(s: string, table: Table)
    requires s != "" && !(s[0] == '%' && |s| > 1)
    ensures Resolve(s, table) == [s[0]] + Resolve(s[1..], table)
  {
  }

  predicate ArgumentsQuiet(words: seq<string>, table: Table)
  {
    forall i :: 1 <= i < |words| ==> NoKnownPair(words[i], table)
  }

  /** What the splitter's state amounts to. */
  ghost function Abstract(st: Scan, table: Table): Reader
  {
    Reader(st.words != [], st.word != "", st.word != "" && st.word[|st.word| - 1] == '%', st.quote, st.inQuote,
           !ArgumentsQuiet(Finish(st), table))
  }

  lemma QuietSnoc(words: seq<string>, w: string, table: Table)
    ensures ArgumentsQuiet(words + [w], table) <==>
      ArgumentsQuiet(words, table) && (words != [] ==> NoKnownPair(w, table))
  {
    hide NoKnownPair;
    var all := words + [w];
    assert forall i :: 0 <= i < |words| ==> all[i] == words[i];
    assert all[|words|] == w;
  }

  lemma NoKnownPairSnoc(w: string, c: char, table: Table)
    ensures NoKnownPair(w + [c], table) <==>
      NoKnownPair(w, table) && (w != "" && w[|w| - 1] == '%' ==> c !in table)
  {
    var t := w + [c];
    if NoKnownPair(t, table) {
      forall i | 0 <= i < |w| - 1 && w[i] == '%' ensures w[i + 1] !in table {
        assert t[i] == '%' && t[i + 1] == w[i + 1];
      }
      assert w != "" ==> t[|w| - 1] == w[|w| - 1] && t[|w|] == c;
    }
  }

  lemma FeedIsRead(st: Scan, c: char, table: Table)
    ensures Abstract(Feed(st, c), table) == Read(Abstract(st, table), c, table)
  {
    hide NoKnownPair, ArgumentsQuiet;
    QuietSnoc(st.words, st.word, table);
    QuietSnoc(st.words, st.word + [c], table);
    NoKnownPairSnoc(st.word, c, table);
    NoPairInNothing(table);
  }

  lemma {:induction false} SplitterIsReader(st: Scan, s: string, table: Table)
    ensures Abstract(FeedAll(st, s), table) == ReadAll(Abstract(st, table), s, table)
    decreases s
  {
    hide Feed, Read, Abstract;
    if s != "" {
      hide FeedAll;
      FeedOne(st, s[0]);
      FeedConcat(st, [s[0]], s[1..]);
      assert [s[0]] + s[1..] == s;
      FeedIsRead(st, s[0], table);
      SplitterIsReader(Feed(st, s[0]), s[1..], table);
    }
  }

  lemma StartIsFresh(table: Table)
    ensures Abstract(START, table) == FRESH
  {
  }

  lemma ReaderDecides(cmd: string, table: Table)
    ensures Disturbs(cmd, table) <==> !ArgumentsQuiet(ExpandedOnce(cmd, table), table)
  {
    hide Read, ReadAll, ReadCommand, FeedAll, Resolve, ArgumentsQuiet, StripDash;
    var text := Resolve(StripDash(cmd), table);
    ReadsTheExpansion(FRESH, StripDash(cmd), table);
    StartIsFresh(table);
    SplitterIsReader(START, text, table);
  }

  /** The pass tells whether some argument, once expanded and split, shows a known specifier. */
  lemma ClearExact(cmd: string, table: Table)
    ensures !Disturbs(cmd, table) ==> ArgumentsClear(ExpandedOnce(cmd, table), table)
    ensures '%' in table && Disturbs(cmd, table) ==> !ArgumentsClear(ExpandedOnce(cmd, table), table)
  {
    hide Disturbs, NoKnownPair, KnownMet, ExpandedOnce;
    ReaderDecides(cmd, table);
    var once := ExpandedOnce(cmd, table);
    forall i | 1 <= i < |once|
      ensures NoKnownPair(once[i], table) ==> KnownMet(once[i], table) == 0
      ensures '%' in table && KnownMet(once[i], table) == 0 ==> NoKnownPair(once[i], table)
    {
      KnownMetExact(once[i], table);
    }
  }

  /**
   The exact condition on the command as written: the second expansion changes
   nothing if and only if one pass with constant memory finds no disturbance.
   */
  lemma StableExact(cmd: string, table: Table)
    requires ExpansionsPlain(table) && '%' in table && table['%'] == "%"
    ensures Launched(cmd, table) == ExpandedOnce(cmd, table) <==> !Disturbs(cmd, table)
  {
    hide Disturbs, Launched, ExpandedOnce, ExpansionsPlain, MetPlain, ArgumentsClear;
    var once := ExpandedOnce(cmd, table);
    forall i | 1 <= i < |once|
      ensures MetPlain(once[i], table)
    {
      PlainIsMetPlain(once[i], table);
    }
    LaunchedExact(cmd, table);
    ClearExact(cmd, table);
  }

  // ---------------------------------------------------------------- a simple rule that is enough

  /** The scan of the command pairs no '%' with another '%' or with a quote. */
  predicate ScanIsSafe(s: string)
  {
    s != "" ==>
      if s[0] == '%' && |s| > 1 then s[1] != '%' && !IsQuote(s[1]) && ScanIsSafe(s[2..]) else ScanIsSafe(s[1..])
  }

  /** Between two tokens of such a command. */
  predicate Calm(r: Reader)
  {
    !r.percent && !r.disturbed && (r.inQuote ==> IsQuote(r.quote))
  }

  lemma {:induction false} CalmPlain(r: Reader, s: string, table: Table)
    requires Calm(r) && '%' !in s
    ensures Calm(ReadAll(r, s, table))
    decreases s
  {
    if s != "" {
      CalmPlain(Read(r, s[0], table), s[1..], table);
    }
  }

  lemma CalmUnknown(r: Reader, z: char, table: Table)
    requires Calm(r) && z !in table && z != '%' && !IsQuote(z)
    ensures Calm(ReadAll(r, ['%', z], table))
  {
    ReadConcat(r, ['%'], [z], table);
    ReadOne(r, '%', table);
    ReadOne(Read(r, '%', table), z, table);
    assert ['%'] + [z] == ['%', z];
  }

  lemma {:induction false} SafeIsCalm(r: Reader, s: string, table: Table)
    requires ExpansionsPlain(table) && ScanIsSafe(s) && Calm(r)
    ensures !ReadCommand(r, s, table).disturbed
    decreases s
  {
    hide Read, ReadAll;
    if s == "" {
    } else if s[0] == '%' && |s| > 1 {
      if s[1] in table {
        CalmPlain(r, table[s[1]], table);
        SafeIsCalm(ReadAll(r, table[s[1]], table), s[2..], table);
      } else {
        assert s[..2] == ['%', s[1]];
        CalmUnknown(r, s[1], table);
        SafeIsCalm(ReadAll(r, s[..2], table), s[2..], table);
      }
    } else if s[0] == '%' {
      LastPercent(r, s, table);
    } else {
      ReadOne(r, s[0], table);
      CalmPlain(r, [s[0]], table);
      SafeIsCalm(Read(r, s[0], table), s[1..], table);
    }
  }

  lemma LastPercent(r: Reader, s: string, table: Table)
    requires Calm(r) && s == ['%']
    ensures !ReadCommand(r, s, table).disturbed
  {
    assert s[1..] == "";
    assert ReadCommand(Read(r, '%', table), "", table) == Read(r, '%', table);
  }

  /**
   When the scan of the command meets no '%%' and no '%' before a quote, and
   expansions hold no '%', the arguments are as once expanded.
   */
  lemma SafeCommand(cmd: string, table: Table)
    requires ExpansionsPlain(table) && ScanIsSafe(StripDash(cmd))
    ensures Launched(cmd, table) == ExpandedOnce(cmd, table)
  {
    hide Launched, ExpandedOnce, ArgumentsClear, ReadCommand, ExpansionsPlain, ScanIsSafe;
    SafeIsCalm(FRESH, StripDash(cmd), table);
    ClearExact(cmd, table);
    ClearIsHarmless(cmd, table);
  }

  /**
   The same for the program's own letters, in terms of the unit's name: it and
   its unescaped form, and the host's values, must be free of percent signs.
   */
  lemma UnitCommandExact(cmd: string, name: string, h: Host)
    requires NamePlain(name) && HostPlain(h)
    ensures var table := CoreTable(ContextOf(name), h);
      && (Launched(cmd, table) == ExpandedOnce(cmd, table) <==> !Disturbs(cmd, table))
      && (ScanIsSafe(StripDash(cmd)) ==> !Disturbs(cmd, table))
  {
    hide Launched, ExpandedOnce, ReadCommand, ContextOf, CoreTable, NamePlain, HostPlain, ExpansionsPlain;
    var table := CoreTable(ContextOf(name), h);
    CorePlainExact(name, h);
    CoreLetters(ContextOf(name), h);
    StableExact(cmd, table);
    if ScanIsSafe(StripDash(cmd)) {
      SafeIsCalm(FRESH, StripDash(cmd), table);
    }
  }

  // ---------------------------------------------------------------- commands that fail, with the program's own letters

  /** The word `%z`, written bare or with its letter in quotes. */
  function PercentWord(z: char, quoted: bool): seq<Piece>
  {
    [Bare('%'), if quoted then Quoted('"', [z]) else Bare(z)]
  }

  lemma SplitPercentWord(z: char, quoted: bool)
    requires !IsQuote(z) && !IsBlank(z)
    ensures Split(if quoted then ['e', ' ', '%', '"', z, '"'] else ['e', ' ', '%', z]) == ["e", ['%', z]]
  {
    var e: seq<Piece>, p := [Bare('e')], PercentWord(z, quoted);
    var line := [e, p];
    assert e[1..] == [] && p[1..] == [p[1]] && p[1..][1..] == [] && line[1..] == [p] && line[1..][1..] == [];
    assert WordContent(e) == "e";
    assert WordContent(p[1..]) == [z] && WordContent(p) == ['%', z];
    assert WellWritten(p[1..]) && WellWritten(p) && WellWritten(e);
    assert Printable(line[1..]) && Printable(line);
    SplitOfPrinted(line, " ");
    assert WriteWord(e) == "e";
    assert WriteWord(p[1..]) == if quoted then ['"', z, '"'] else [z];
    assert WriteLine(line[1..], " ") == WriteWord(p);
    assert WriteLine(line, " ") == if quoted then ['e', ' ', '%', '"', z, '"'] else ['e', ' ', '%', z];
    assert LineContent(line[1..]) == [['%', z]];
  }

  lemma OnceOf(cmd: string, table: Table, text: string)
    requires (cmd != "" ==> cmd[0] != '-') && Resolve(cmd, table) == text
    ensures ExpandedOnce(cmd, table) == Split(text)
  {
    hide Resolve, Split;
  }

  lemma TwoWords(cmd: string, table: Table, a: string, b: string)
    requires ExpandedOnce(cmd, table) == [a, b]
    ensures Launched(cmd, table) == [a, Resolve(b, table)]
  {
    hide ExpandedOnce, Resolve;
    assert [a, b][1..] == [b];
  }

  /** Two commands whose argument `%n` the first pass leaves in place and the second replaces by the unit's name. */
  lemma SecondPassExpands(c: Context, h: Host, quoted: bool)
    ensures var cmd, table := if quoted then "e %\"n\"" else "e %%n", CoreTable(c, h);
      ExpandedOnce(cmd, table) == ["e", "%n"] && Launched(cmd, table) == ["e", c.name]
  {
    hide Resolve, CoreTable, Split, ExpandedOnce, Launched;
    var cmd, table := if quoted then "e %\"n\"" else "e %%n", CoreTable(c, h);
    FirstPass(table, c, h);
    OnceOf(cmd, table, if quoted then "e %\"n\"" else "e %n");
    SplitPercentWord('n', quoted);
    CoreLetters(c, h);
    TwoSpecifiers(table);
    TwoWords(cmd, table, "e", "%n");
  }

  /** A unit whose instance is a percent sign, written as systemd escapes it, and the letter `z`. */
  function EscapedName(z: char): string
  {
    "t@\\x25" + [z] + ".service"
  }

  lemma EscapedInstance(z: char)
    ensures var c := ContextOf(EscapedName(z));
      c.name == EscapedName(z) && c.instance == "\\x25" + [z] && Unescape(c.instance) == ['%', z]
  {
    var name := EscapedName(z);
    assert name[1] == '@' && name[7] == '.' && name[0] == 't';
    assert RFind(name, '.') == 7 && Find(name, '@', 0) == 1;
    var instance := name[2..7];
    assert instance == "\\x25" + [z];
    assert instance[4..] == [z] && [z][1..] == "";
    assert HexValue('2') == 2 && HexValue('5') == 5;
    assert Unescape([z]) == [z] + Unescape("");
    assert Unescape(instance) == ['%'] + Unescape([z]);
  }

  /** A command with a plain specifier: its expansion, once written by the first pass, is a specifier itself. */
  lemma EscapedPercentExpands(h: Host)
    ensures var name, cmd := EscapedName('n'), "e %I";
      var table := CoreTable(ContextOf(name), h);
      && '%' !in name && ScanIsSafe(cmd)
      && ExpandedOnce(cmd, table) == ["e", "%n"] && Launched(cmd, table) == ["e", name]
  {
    hide Resolve, CoreTable, ContextOf, Split, Unescape, ExpandedOnce, Launched, ScanIsSafe, EscapedName;
    var name, cmd := EscapedName('n'), "e %I";
    var table := CoreTable(ContextOf(name), h);
    InstanceScanIsSafe();
    EscapedInstance('n');
    CoreLetters(ContextOf(name), h);
    OneSpecifier(table, 'I');
    InstanceFirstPass(table);
    OnceOf(cmd, table, "e %n");
    SplitPercentWord('n', false);
    OneSpecifier(table, 'n');
    TwoWords(cmd, table, "e", "%n");
  }

  lemma InstanceScanIsSafe()
    ensures ScanIsSafe("e %I") && '%' !in EscapedName('n')
  {
    assert "e %I"[1..] == " %I" && " %I"[1..] == "%I" && "%I"[2..] == "";
    assert ScanIsSafe("%I");
    assert ScanIsSafe(" %I");
  }

  lemma InstanceFirstPass(table: Table)
    requires Resolve("%I", table) == "%n"
    ensures Resolve("e %I", table) == "e %n"
  {
    hide *;
    ResolvePlain(' ', "%I", table);
    assert [' '] + "%I" == " %I" && [' '] + "%n" == " %n";
    ResolvePlain('e', " %I", table);
    assert ['e'] + " %I" == "e %I" && ['e'] + " %n" == "e %n";
  }

  /**
   Where expansions hold percent signs the equivalence fails the other way too:
   here the second pass meets a known specifier, which expands to itself.
   */
  lemma SelfExpansion(h: Host)
    ensures var cmd, table := "e %%I", CoreTable(ContextOf(EscapedName('I')), h);
      && ExpandedOnce(cmd, table) == Launched(cmd, table) == ["e", "%I"]
      && !ArgumentsClear(ExpandedOnce(cmd, table), table)
  {
    var cmd, table := "e %%I", CoreTable(ContextOf(EscapedName('I')), h);
    hide Resolve, CoreTable, ContextOf, Split, Unescape, ExpandedOnce, Launched;
    EscapedInstance('I');
    CoreLetters(ContextOf(EscapedName('I')), h);
    OneSpecifier(table, 'I');
    DoubledFirstPass('I', table);
    OnceOf(cmd, table, "e %I");
    SplitPercentWord('I', false);
    TwoWords(cmd, table, "e", "%I");
    assert KnownMet("%I", table) >= 1;
    assert ["e", "%I"][1] == "%I";
  }

  lemma FirstPass(table: Table, c: Context, h: Host)
    requires table == CoreTable(c, h)
    ensures Resolve("e %\"n\"", table) == "e %\"n\"" && Resolve("e %%n", table) == "e %n"
  {
    hide Resolve, CoreTable;
    CoreUnknown(c, h);
    QuotedFirstPass(table);
    DoubledFirstPass('n', table);
  }

  lemma QuotedFirstPass(table: Table)
    requires '"' !in table
    ensures Resolve("e %\"n\"", table) == "e %\"n\""
  {
    hide *;
    ResolveNothing(table);
    ResolvePlain('"', "", table);
    assert ['"'] + "" == "\"";
    ResolvePlain('n', "\"", table);
    assert ['n'] + "\"" == "n\"";
    ExpandPair('"', "n\"", table);
    assert ['%', '"'] + "n\"" == "%\"n\"";
    ResolvePlain(' ', "%\"n\"", table);
    assert [' '] + "%\"n\"" == " %\"n\"";
    ResolvePlain('e', " %\"n\"", table);
    assert ['e'] + " %\"n\"" == "e %\"n\"";
  }

  lemma DoubledFirstPass(z: char, table: Table)
    requires z != '%' && '%' in table && table['%'] == "%"
    ensures Resolve(['e', ' ', '%', '%', z], table) == ['e', ' ', '%', z]
  {
    hide *;
    PlainLetter(z, table);
    ExpandPair('%', [z], table);
    assert ['%', '%'] + [z] == ['%', '%', z] && "%" + [z] == ['%', z];
    ResolvePlain(' ', ['%', '%', z], table);
    assert [' '] + ['%', '%', z] == [' ', '%', '%', z] && [' '] + ['%', z] == [' ', '%', z];
    ResolvePlain('e', [' ', '%', '%', z], table);
    assert ['e'] + [' ', '%', '%', z] == ['e', ' ', '%', '%', z] && ['e'] + [' ', '%', z] == ['e', ' ', '%', z];
  }

  lemma CoreUnknown(c: Context, h: Host)
    ensures '"' !in CoreTable(c, h) && '%' in CoreTable(c, h) && CoreTable(c, h)['%'] == "%"
  {
    QuoteIsNoLetter(c, h);
    hide UnitLetters, HostLetters, FIXED_LETTERS;
  }

  lemma QuoteIsNoLetter(c: Context, h: Host)
    ensures '"' !in UnitLetters(c) && '"' !in HostLetters(h) && '"' !in FIXED_LETTERS
  {
    hide Unescape, AfterLastDash;
  }

  /** The text condition is not necessary: a specifier protected in the first word is never expanded again. */
  lemma FirstWordIsSpared(c: Context, h: Host)
    ensures var cmd, table := "%%n x", CoreTable(c, h);
      !ScanIsSafe(cmd) && ExpandedOnce(cmd, table) == ["%n", "x"] && Launched(cmd, table) == ["%n", "x"]
  {
    hide Resolve, CoreTable, Split, ExpandedOnce, Launched;
    var cmd, table := "%%n x", CoreTable(c, h);
    assert cmd[1] == '%';
    CoreUnknown(c, h);
    SparedPass(table);
    PlainLetter('x', table);
    OnceOf(cmd, table, "%n x");
    SplitPercentFirst();
    TwoWords(cmd, table, "%n", "x");
  }

  lemma SparedPass(table: Table)
    requires '%' in table && table['%'] == "%"
    ensures Resolve("%%n x", table) == "%n x"
  {
    hide *;
    PlainLetter('x', table);
    ResolvePlain(' ', "x", table);
    assert [' '] + "x" == " x";
    ResolvePlain('n', " x", table);
    assert ['n'] + " x" == "n x";
    ExpandPair('%', "n x", table);
    assert ['%', '%'] + "n x" == "%%n x" && "%" + "n x" == "%n x";
  }

  lemma PlainLetter(c: char, table: Table)
    requires c != '%'
    ensures Resolve([c], table) == [c]
  {
    hide *;
    ResolveNothing(table);
    ResolvePlain(c, "", table);
    assert [c] + "" == [c];
  }

  lemma SplitPercentFirst()
    ensures Split("%n x") == ["%n", "x"]
  {
    var p, x: seq<Piece> := PercentWord('n', false), [Bare('x')];
    var line := [p, x];
    assert x[1..] == [] && p[1..] == [p[1]] && p[1..][1..] == [] && line[1..] == [x] && line[1..][1..] == [];
    assert WordContent(x) == "x";
    assert WordContent(p[1..]) == "n" && WordContent(p) == "%n";
    assert WellWritten(p[1..]) && WellWritten(p) && WellWritten(x);
    assert Printable(line[1..]) && Printable(line);
    SplitOfPrinted(line, " ");
    assert WriteWord(x) == "x";
    assert WriteWord(p[1..]) == "n";
    assert WriteLine(line[1..], " ") == WriteWord(x);
    assert WriteLine(line, " ") == "%n x";
    assert LineContent(line[1..]) == ["x"];
  }
}
