/** `split_exec`: a quote-aware splitter, one character at a time. */
module CommandLine {
  import opened Strings

  predicate IsQuote(c: char) { c == '"' || c == '\'' }

  /** The locals of the loop: finished words, the word being built, and the open quote if any. */
  datatype Scan = Scan(words: seq<string>, word: string, quote: char, inQuote: bool)

  const START := Scan([], "", '\0', false)

  function Flush(words: seq<string>, word: string): seq<string>
  {
    if word == "" then words else words + [word]
  }

  function Feed(st: Scan, c: char): Scan
  {
    if st.inQuote then
      if c == st.quote then st.(inQuote := false) else st.(word := st.word + [c])
    else if IsQuote(c) then st.(inQuote := true, quote := c)
    else if IsBlank(c) then st.(words := Flush(st.words, st.word), word := "")
    else st.(word := st.word + [c])
  }

  function FeedAll(st: Scan, s: string): Scan
  {
    if s == [] then st else Feed(FeedAll(st, s[..|s| - 1]), s[|s| - 1])
  }

  /** The words, once the input is used up. */
  function Finish(st: Scan): seq<string>
  {
    Flush(st.words, st.word)
  }

  function Split(s: string): seq<string>
  {
    Finish(FeedAll(START, s))
  }

  method SplitExec(s: string) returns (r: seq<string>)
    ensures r == Split(s)
    ensures "" !in r
  {
    r := [];
    var t, iq, qc := "", false, '\0';
    for i := 0 to |s|
      invariant FeedAll(START, s[..i]) == Scan(r, t, qc, iq)
      invariant "" !in r
    {
      var c := s[i];
      assert s[..i + 1][..i] == s[..i];
      if iq {
        if c == qc { iq := false; } else { t := t + [c]; }
      } else if IsQuote(c) {
        iq, qc := true, c;
      } else if IsBlank(c) {
        if t != "" { r, t := r + [t], ""; }
      } else {
        t := t + [c];
      }
    }
    assert s[..|s|] == s;
    if t != "" { r := r + [t]; }
  }

  // ---------------------------------------------------------------- printing a command line

  /** A piece of a written word: a quoted run, or one bare character. */
  datatype Piece = Quoted(quote: char, body: string) | Bare(c: char)

  predicate WellQuoted(p: Piece)
  {
    match p
    case Quoted(q, body) => (q == '"' || q == '\'') && q !in body
    case Bare(c) => c !in {'"', '\'', ' ', '\t'}
  }

  function Written(p: Piece): string
  {
    match p
    case Quoted(q, body) => [q] + body + [q]
    case Bare(c) => [c]
  }

  function Content(p: Piece): string
  {
    match p
    case Quoted(q, body) => body
    case Bare(c) => [c]
  }

  function WriteWord(ps: seq<Piece>): string
  {
    if ps == [] then "" else Written(ps[0]) + WriteWord(ps[1..])
  }

  function WordContent(ps: seq<Piece>): string
  {
    if ps == [] then "" else Content(ps[0]) + WordContent(ps[1..])
  }

  predicate WellWritten(ps: seq<Piece>)
  {
    ps != [] ==> WellQuoted(ps[0]) && WellWritten(ps[1..])
  }

  /** Words with the same gap between them, each written in any well-quoted way. */
  function WriteLine(ws: seq<seq<Piece>>, gap: string): string
  {
    if ws == [] then ""
    else if |ws| == 1 then WriteWord(ws[0])
    else WriteWord(ws[0]) + gap + WriteLine(ws[1..], gap)
  }

  function LineContent(ws: seq<seq<Piece>>): seq<string>
  {
    if ws == [] then [] else [WordContent(ws[0])] + LineContent(ws[1..])
  }

  predicate Printable(ws: seq<seq<Piece>>)
  {
    ws != [] ==> WordContent(ws[0]) != "" && WellWritten(ws[0]) && Printable(ws[1..])
  }

  lemma {:induction false} FeedConcat(st: Scan, a: string, b: string)
    ensures FeedAll(st, a + b) == FeedAll(FeedAll(st, a), b)
  {
    if b == [] {
      assert a + b == a;
    } else {
      FeedConcat(st, a, b[..|b| - 1]);
      assert (a + b)[..|a + b| - 1] == a + b[..|b| - 1];
    }
  }

  lemma FeedOne(st: Scan, c: char)
    ensures FeedAll(st, [c]) == Feed(st, c)
  {
    assert [c][..0] == [];
  }

  lemma {:induction false} FeedBody(st: Scan, body: string)
    requires st.inQuote && st.quote !in body
    ensures FeedAll(st, body) == st.(word := st.word + body)
  {
    if body == [] {
      assert st.word + body == st.word;
    } else {
      FeedBody(st, body[..|body| - 1]);
      assert st.word + body == st.word + body[..|body| - 1] + [body[|body| - 1]];
    }
  }

  /** Reading a piece appends exactly its content to the word; only the remembered quote may change. */
  lemma FeedPiece(st: Scan, p: Piece) returns (q: char)
    requires !st.inQuote && WellQuoted(p)
    ensures FeedAll(st, Written(p)) == st.(word := st.word + Content(p), quote := q)
  {
    match p
    case Bare(c) =>
      FeedOne(st, c);
      q := st.quote;
    case Quoted(quote, body) =>
      q := quote;
      FeedConcat(st, [quote] + body, [quote]);
      FeedConcat(st, [quote], body);
      FeedOne(st, quote);
      var inside := st.(inQuote := true, quote := quote);
      FeedBody(inside, body);
      FeedOne(inside.(word := st.word + body), quote);
  }

  lemma {:induction false} FeedWord(st: Scan, ps: seq<Piece>) returns (q: char)
    requires !st.inQuote && WellWritten(ps)
    ensures FeedAll(st, WriteWord(ps)) == st.(word := st.word + WordContent(ps), quote := q)
    decreases |ps|
  {
    hide *;
    if ps == [] {
      q := st.quote;
      FeedNothing(st);
    } else {
      FirstPiece(ps);
      var q0 := FeedPiece(st, ps[0]);
      var mid := st.(word := st.word + Content(ps[0]), quote := q0);
      q := FeedWord(mid, ps[1..]);
      FeedTwo(st, Written(ps[0]), WriteWord(ps[1..]), Content(ps[0]), WordContent(ps[1..]), mid, q);
    }
  }

  lemma FeedNothing(st: Scan)
    ensures FeedAll(st, WriteWord([])) == st.(word := st.word + WordContent([]))
  {
    assert st.word + WordContent([]) == st.word;
  }

  lemma FeedTwo(st: Scan, x: string, y: string, a: string, b: string, mid: Scan, q: char)
    requires FeedAll(st, x) == mid && mid == st.(word := st.word + a, quote := mid.quote)
    requires FeedAll(mid, y) == mid.(word := mid.word + b, quote := q)
    ensures FeedAll(st, x + y) == st.(word := st.word + (a + b), quote := q)
  {
    hide *;
    FeedConcat(st, x, y);
    Join3(st.word, a, b);
  }

  lemma FirstPiece(ps: seq<Piece>)
    requires ps != [] && WellWritten(ps)
    ensures WellQuoted(ps[0]) && WellWritten(ps[1..])
    ensures WriteWord(ps) == Written(ps[0]) + WriteWord(ps[1..])
    ensures WordContent(ps) == Content(ps[0]) + WordContent(ps[1..])
  {
  }

  /** Reading a printed line adds its words to those already finished. */
  lemma {:induction false} FeedLine(st: Scan, ws: seq<seq<Piece>>, gap: string)
    requires Printable(ws) && IsGap(gap) && !st.inQuote && st.word == ""
    ensures Finish(FeedAll(st, WriteLine(ws, gap))) == st.words + LineContent(ws)
    decreases |ws|
  {
    hide *;
    if ws == [] {
      EmptyLine(st, gap);
    } else {
      FirstWord(ws);
      var q := FeedWord(st, ws[0]);
      if |ws| == 1 {
        LastWord(st, ws, gap, q);
      } else {
        var next := Scan(st.words + [WordContent(ws[0])], "", q, false);
        FeedLine(next, ws[1..], gap);
        WordThenLine(st, ws, gap, q, next);
      }
    }
  }

  lemma EmptyLine(st: Scan, gap: string)
    requires st.word == ""
    ensures Finish(FeedAll(st, WriteLine([], gap))) == st.words + LineContent([])
  {
    assert st.words + [] == st.words;
  }

  lemma FirstWord(ws: seq<seq<Piece>>)
    requires ws != [] && Printable(ws)
    ensures WordContent(ws[0]) != "" && WellWritten(ws[0]) && Printable(ws[1..])
  {
  }

  lemma LastWord(st: Scan, ws: seq<seq<Piece>>, gap: string, q: char)
    requires |ws| == 1 && WordContent(ws[0]) != "" && st.word == ""
    requires FeedAll(st, WriteWord(ws[0])) == st.(word := st.word + WordContent(ws[0]), quote := q)
    ensures Finish(FeedAll(st, WriteLine(ws, gap))) == st.words + LineContent(ws)
  {
    hide FeedAll, WriteWord, WordContent;
    var word := WordContent(ws[0]);
    assert "" + word == word;
    assert LineContent(ws) == [word] + LineContent(ws[1..]) == [word];
  }

  lemma WordThenLine(st: Scan, ws: seq<seq<Piece>>, gap: string, q: char, next: Scan)
    requires |ws| > 1 && WordContent(ws[0]) != "" && st.word == "" && !st.inQuote && IsGap(gap)
    requires FeedAll(st, WriteWord(ws[0])) == st.(word := st.word + WordContent(ws[0]), quote := q)
    requires next == Scan(st.words + [WordContent(ws[0])], "", q, false)
    requires Finish(FeedAll(next, WriteLine(ws[1..], gap))) == next.words + LineContent(ws[1..])
    ensures Finish(FeedAll(st, WriteLine(ws, gap))) == st.words + LineContent(ws)
  {
    hide *;
    UnfoldLine(ws, gap);
    var word := WordContent(ws[0]);
    assert "" + word == word;
    GapEndsWord(st.words, word, q, gap);
    FeedThree(st, WriteWord(ws[0]), gap, WriteLine(ws[1..], gap), st.(word := word, quote := q), next);
    AddWord(st.words, word, LineContent(ws[1..]));
  }

  lemma AddWord(words: seq<string>, word: string, more: seq<string>)
    ensures words + [word] + more == words + ([word] + more)
  {
  }

  lemma UnfoldLine(ws: seq<seq<Piece>>, gap: string)
    requires |ws| > 1
    ensures WriteLine(ws, gap) == WriteWord(ws[0]) + gap + WriteLine(ws[1..], gap)
    ensures LineContent(ws) == [WordContent(ws[0])] + LineContent(ws[1..])
  {
  }

  lemma {:induction false} GapEndsWord(words: seq<string>, word: string, q: char, gap: string)
    requires word != "" && IsGap(gap)
    ensures FeedAll(Scan(words, word, q, false), gap) == Scan(words + [word], "", q, false)
  {
    var front := gap[..|gap| - 1];
    if front == "" {
      assert FeedAll(Scan(words, word, q, false), front) == Scan(words, word, q, false);
    } else {
      GapEndsWord(words, word, q, front);
    }
  }

  lemma FeedThree(st: Scan, head: string, gap: string, tail: string, mid: Scan, next: Scan)
    requires FeedAll(st, head) == mid && next == FeedAll(mid, gap)
    ensures FeedAll(st, head + gap + tail) == FeedAll(next, tail)
  {
    FeedConcat(st, head + gap, tail);
    FeedConcat(st, head, gap);
  }

  /** Splitting undoes printing, however the words are quoted and however wide the gaps are. */
  lemma SplitOfPrinted(ws: seq<seq<Piece>>, gap: string)
    requires Printable(ws) && IsGap(gap)
    ensures Split(WriteLine(ws, gap)) == LineContent(ws)
  {
    hide FeedAll, WriteLine, LineContent, Printable, IsGap;
    FeedLine(START, ws, gap);
    assert [] + LineContent(ws) == LineContent(ws);
  }

  /** A quote that is never closed takes in the rest of the line. */
  lemma UnclosedQuote(q: char, body: string)
    requires (q == '"' || q == '\'') && q !in body
    ensures Split([q] + body) == if body == "" then [] else [body]
  {
    FeedConcat(START, [q], body);
    FeedOne(START, q);
    FeedBody(START.(inQuote := true, quote := q), body);
    hide FeedAll;
    assert "" + body == body && [] + [body] == [body];
  }

  /** One way to quote any word: character by character. */
  function Quote(word: string): seq<Piece>
  {
    if word == "" then []
    else [Quoted(if word[0] == '"' then '\'' else '"', [word[0]])] + Quote(word[1..])
  }

  /** So every list of non-empty words is the split of some command line. */
  lemma {:induction false} EveryWordPrintable(word: string)
    ensures WordContent(Quote(word)) == word && WellWritten(Quote(word))
  {
    if word != "" {
      EveryWordPrintable(word[1..]);
      assert Quote(word)[1..] == Quote(word[1..]);
    }
  }
}
