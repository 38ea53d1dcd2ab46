/**
 tokenizeShell and stripEnvPrefix of extclean/resolve.go. The tokenizer is an
 automaton over characters; the grammar below says what a command line is:
 words made of bare characters, escapes and quoted strings, separated by blanks.
 */
module ShellTokens {
  import opened Sequences

  datatype Quote = Unquoted | Single | Double

  datatype State = State(tokens: seq<string>, cur: string, haveToken: bool, quote: Quote, escaped: bool)

  datatype Result = Tokens(words: seq<string>) | UnterminatedQuote | TrailingBackslash

  const START := State([], "", false, Unquoted, false)

  predicate IsBlank(c: char) { c == ' ' || c == '\t' }

  function Flush(st: State): State {
    if st.haveToken then st.(tokens := st.tokens + [st.cur], cur := "", haveToken := false) else st
  }

  function Feed(st: State, c: char): State {
    if st.escaped then st.(cur := st.cur + [c], escaped := false, haveToken := true)
    else if st.quote != Unquoted then
      if c == (if st.quote == Single then '\'' else '"') then st.(quote := Unquoted)
      else if c == '\\' && st.quote == Double then st.(escaped := true)
      else st.(cur := st.cur + [c])
    else if c == '\'' then st.(quote := Single, haveToken := true)
    else if c == '"' then st.(quote := Double, haveToken := true)
    else if c == '\\' then st.(escaped := true, haveToken := true)
    else if IsBlank(c) then Flush(st)
    else st.(cur := st.cur + [c], haveToken := true)
  }

  function Run(st: State, s: string): State
    decreases |s|
  {
    if s == "" then st else Run(Feed(st, s[0]), s[1..])
  }

  function Finish(st: State): Result {
    if st.quote != Unquoted then UnterminatedQuote
    else if st.escaped then TrailingBackslash
    else Tokens(Flush(st).tokens)
  }

  /** What tokenizeShell returns. */
  function Tokenized(s: string): Result { Finish(Run(START, s)) }

  method TokenizeShell(s: string) returns (r: Result)
    ensures r == Tokenized(s)
  {
    var tokens: seq<string> := [];
    var cur: string := "";
    var haveToken, escaped := false, false;
    var quote := Unquoted;
    for i := 0 to |s|
      invariant Run(State(tokens, cur, haveToken, quote, escaped), s[i..]) == Run(START, s)
    {
      var c := s[i];
      assert s[i..][1..] == s[i + 1..];
      if escaped {
        cur, escaped, haveToken := cur + [c], false, true;
      } else if quote != Unquoted {
        if c == (if quote == Single then '\'' else '"') {
          quote := Unquoted;
        } else if c == '\\' && quote == Double {
          escaped := true;
        } else {
          cur := cur + [c];
        }
      } else if c == '\'' || c == '"' {
        quote, haveToken := if c == '\'' then Single else Double, true;
      } else if c == '\\' {
        escaped, haveToken := true, true;
      } else if c == ' ' || c == '\t' {
        if haveToken {
          tokens, cur, haveToken := tokens + [cur], "", false;
        }
      } else {
        cur, haveToken := cur + [c], true;
      }
    }
    if quote != Unquoted { return UnterminatedQuote; }
    if escaped { return TrailingBackslash; }
    if haveToken { tokens := tokens + [cur]; }
    return Tokens(tokens);
  }

  lemma {:induction false} RunAppend(st: State, a: string, b: string)
    ensures Run(st, a + b) == Run(Run(st, a), b)
    decreases |a|
  {
    if a == "" {
      assert a + b == b;
    } else {
      assert (a + b)[1..] == a[1..] + b;
      RunAppend(Feed(st, a[0]), a[1..], b);
    }
  }

  lemma RunOne(st: State, c: char)
    ensures Run(st, [c]) == Feed(st, c)
  {
    assert [c][1..] == "";
  }

  // ----- quoting

  /** Inside single quotes: an inner quote is written as close, backslash-quote, reopen. */
  function QuoteBody(w: string): string {
    if w == "" then ""
    else (if w[0] == '\'' then "'\\''" else [w[0]]) + QuoteBody(w[1..])
  }

  /** The single-quoted form of a word. */
  function QuoteWord(w: string): string { "'" + QuoteBody(w) + "'" }

  function JoinQuoted(ws: seq<string>): string {
    if ws == [] then ""
    else if |ws| == 1 then QuoteWord(ws[0])
    else JoinQuoted(ws[..|ws| - 1]) + " " + QuoteWord(ws[|ws| - 1])
  }

  lemma RunInnerQuote(st: State)
    requires st.quote == Single && !st.escaped && st.haveToken
    ensures Run(st, "'\\''") == st.(cur := st.cur + "'")
  {
    RunAppend(st, "'", "\\''");
    RunOne(st, '\'');
    var out := Feed(st, '\'');
    RunAppend(out, "\\", "''");
    RunOne(out, '\\');
    var escaped := Feed(out, '\\');
    RunAppend(escaped, "'", "'");
    RunOne(escaped, '\'');
    RunOne(Feed(escaped, '\''), '\'');
    assert "'" + "\\''" == "'\\''" && "\\" + "''" == "\\''" && "'" + "'" == "''";
  }

  lemma {:induction false} RunQuoteBody(st: State, w: string)
    requires st.quote == Single && !st.escaped && st.haveToken
    ensures Run(st, QuoteBody(w)) == st.(cur := st.cur + w)
    decreases |w|
  {
    if w == "" {
      assert st.cur + w == st.cur;
    } else {
      var head := if w[0] == '\'' then "'\\''" else [w[0]];
      RunAppend(st, head, QuoteBody(w[1..]));
      if w[0] == '\'' { RunInnerQuote(st); } else { RunOne(st, w[0]); }
      var next := st.(cur := st.cur + [w[0]]);
      RunQuoteBody(next, w[1..]);
      assert st.cur + [w[0]] + w[1..] == st.cur + w;
    }
  }

  lemma RunQuoteWord(st: State, w: string)
    requires st.quote == Unquoted && !st.escaped
    ensures Run(st, QuoteWord(w)) == st.(cur := st.cur + w, haveToken := true)
  {
    var open := Feed(st, '\'');
    RunAppend(st, "'" + QuoteBody(w), "'");
    RunAppend(st, "'", QuoteBody(w));
    RunOne(st, '\'');
    RunQuoteBody(open, w);
    RunOne(open.(cur := st.cur + w), '\'');
  }

  lemma {:induction false} RunJoined(ws: seq<string>)
    requires ws != []
    ensures Run(START, JoinQuoted(ws)) == State(ws[..|ws| - 1], ws[|ws| - 1], true, Unquoted, false)
  {
    var n := |ws| - 1;
    if n == 0 {
      RunQuoteWord(START, ws[0]);
      assert START.cur + ws[0] == ws[0];
    } else {
      var front := ws[..n];
      RunJoined(front);
      RunAppend(START, JoinQuoted(front) + " ", QuoteWord(ws[n]));
      RunAppend(START, JoinQuoted(front), " ");
      var st := Run(START, JoinQuoted(front));
      RunOne(st, ' ');
      assert front == front[..n - 1] + [front[n - 1]];
      RunQuoteWord(Flush(st), ws[n]);
      assert "" + ws[n] == ws[n];
    }
  }

  /** Tokenizing inverts quoting, for every list of words. */
  lemma TokenizeInvertsQuoting(ws: seq<string>)
    ensures Tokenized(JoinQuoted(ws)) == Tokens(ws)
  {
    if ws != [] {
      RunJoined(ws);
      assert ws == ws[..|ws| - 1] + [ws[|ws| - 1]];
    }
  }

  // ----- the grammar

  /** Inside double quotes: a plain character or a backslash and any character. */
  datatype Inner = Plain(c: char) | Escape(c: char)

  datatype Piece = Bare(c: char) | Backslash(c: char) | SingleQuoted(s: string) | DoubleQuoted(items: seq<Inner>)

  predicate ValidInner(i: Inner) { i.Plain? ==> i.c != '"' && i.c != '\\' }

  predicate ValidPiece(p: Piece) {
    match p
    case Bare(c) => c != '\'' && c != '"' && c != '\\' && !IsBlank(c)
    case Backslash(_) => true
    case SingleQuoted(s) => '\'' !in s
    case DoubleQuoted(items) => forall i :: 0 <= i < |items| ==> ValidInner(items[i])
  }

  function InnerText(items: seq<Inner>): string {
    if items == [] then ""
    else
      var i := items[|items| - 1];
      InnerText(items[..|items| - 1]) + (if i.Plain? then [i.c] else ['\\', i.c])
  }

  function InnerMeaning(items: seq<Inner>): string {
    if items == [] then "" else InnerMeaning(items[..|items| - 1]) + [items[|items| - 1].c]
  }

  function PieceText(p: Piece): string {
    match p
    case Bare(c) => [c]
    case Backslash(c) => ['\\', c]
    case SingleQuoted(s) => "'" + s + "'"
    case DoubleQuoted(items) => "\"" + InnerText(items) + "\""
  }

  function PieceMeaning(p: Piece): string {
    match p
    case Bare(c) => [c]
    case Backslash(c) => [c]
    case SingleQuoted(s) => s
    case DoubleQuoted(items) => InnerMeaning(items)
  }

  type Word = seq<Piece>

  function WordText(w: Word): string {
    if w == [] then "" else WordText(w[..|w| - 1]) + PieceText(w[|w| - 1])
  }

  function WordMeaning(w: Word): string {
    if w == [] then "" else WordMeaning(w[..|w| - 1]) + PieceMeaning(w[|w| - 1])
  }

  predicate ValidWord(w: Word) {
    w != [] && forall i :: 0 <= i < |w| ==> ValidPiece(w[i])
  }

  predicate Blanks(s: string) { forall i :: 0 <= i < |s| ==> IsBlank(s[i]) }

  /** Words, each with the blanks before it. */
  datatype Item = Item(gap: string, word: Word)

  predicate ValidItems(items: seq<Item>) {
    forall i :: 0 <= i < |items| ==>
      ValidWord(items[i].word) && Blanks(items[i].gap) && (i > 0 ==> items[i].gap != "")
  }

  function ItemsText(items: seq<Item>): string {
    if items == [] then ""
    else ItemsText(items[..|items| - 1]) + items[|items| - 1].gap + WordText(items[|items| - 1].word)
  }

  function Meanings(items: seq<Item>): seq<string> {
    if items == [] then [] else Meanings(items[..|items| - 1]) + [WordMeaning(items[|items| - 1].word)]
  }

  /** s is a command line that consists of these words. */
  ghost predicate IsLine(s: string, items: seq<Item>, trail: string) {
    ValidItems(items) && Blanks(trail) && s == ItemsText(items) + trail
  }

  // ----- how far a line has been read

  /** What is still open at the end of a prefix of a line. */
  datatype Open = Nothing | OpenEscape | OpenSingle(s: string) | OpenDouble(items: seq<Inner>, escaped: bool)

  /** A prefix of a command line: complete words, then blanks, then a word in progress. */
  datatype Prefix = Prefix(items: seq<Item>, gap: string, word: Word, open: Open)

  predicate ValidOpen(o: Open) {
    match o
    case OpenSingle(s) => '\'' !in s
    case OpenDouble(items, _) => forall i :: 0 <= i < |items| ==> ValidInner(items[i])
    case _ => true
  }

  predicate ValidPrefix(p: Prefix) {
    && ValidItems(p.items)
    && Blanks(p.gap)
    && (p.items != [] ==> p.gap != "")
    && (forall i :: 0 <= i < |p.word| ==> ValidPiece(p.word[i]))
    && ValidOpen(p.open)
  }

  function OpenText(o: Open): string {
    match o
    case Nothing => ""
    case OpenEscape => "\\"
    case OpenSingle(s) => "'" + s
    case OpenDouble(items, escaped) => "\"" + InnerText(items) + (if escaped then "\\" else "")
  }

  function OpenMeaning(o: Open): string {
    match o
    case OpenSingle(s) => s
    case OpenDouble(items, _) => InnerMeaning(items)
    case _ => ""
  }

  function PrefixText(p: Prefix): string {
    ItemsText(p.items) + p.gap + WordText(p.word) + OpenText(p.open)
  }

  function Started(p: Prefix): State {
    State(Meanings(p.items), WordMeaning(p.word), p.word != [], Unquoted, false)
  }

  /** The automaton's state after the prefix p. */
  function StateOf(p: Prefix): State {
    State(Meanings(p.items), WordMeaning(p.word) + OpenMeaning(p.open), p.word != [] || p.open != Nothing,
          match p.open case OpenSingle(_) => Single case OpenDouble(_, _) => Double case _ => Unquoted,
          p.open.OpenEscape? || (p.open.OpenDouble? && p.open.escaped))
  }

  // ----- a prefix drives the automaton to its state

  lemma {:induction false} RunBlanks(st: State, gap: string)
    requires st.quote == Unquoted && !st.escaped && Blanks(gap)
    ensures Run(st, gap) == if gap == "" then st else Flush(st)
    decreases |gap|
  {
    if gap != "" { RunBlanks(Flush(st), gap[1..]); }
  }

  lemma {:induction false} RunSingle(st: State, s: string)
    requires st.quote == Single && !st.escaped && '\'' !in s
    ensures Run(st, s) == st.(cur := st.cur + s)
    decreases |s|
  {
    if s == "" {
      assert st.cur + s == st.cur;
    } else {
      RunSingle(st.(cur := st.cur + [s[0]]), s[1..]);
      assert st.cur + [s[0]] + s[1..] == st.cur + s;
    }
  }

  lemma RunTwo(st: State, c: char, d: char)
    ensures Run(st, [c, d]) == Feed(Feed(st, c), d)
  {
    assert [c, d] == [c] + [d];
    RunAppend(st, [c], [d]);
    RunOne(st, c);
    RunOne(Feed(st, c), d);
  }

  lemma {:induction false} RunInner(st: State, items: seq<Inner>)
    requires st.quote == Double && !st.escaped && st.haveToken
    requires forall i :: 0 <= i < |items| ==> ValidInner(items[i])
    ensures Run(st, InnerText(items)) == st.(cur := st.cur + InnerMeaning(items))
    decreases |items|
  {
    if items == [] {
      assert st.cur + "" == st.cur;
    } else {
      var n := |items| - 1;
      RunInner(st, items[..n]);
      var mid := st.(cur := st.cur + InnerMeaning(items[..n]));
      if items[n].Plain? {
        RunAppend(st, InnerText(items[..n]), [items[n].c]);
        RunOne(mid, items[n].c);
      } else {
        RunAppend(st, InnerText(items[..n]), ['\\', items[n].c]);
        RunTwo(mid, '\\', items[n].c);
      }
      assert st.cur + InnerMeaning(items[..n]) + [items[n].c] == st.cur + InnerMeaning(items);
    }
  }

  lemma RunOpen(st: State, o: Open)
    requires st.quote == Unquoted && !st.escaped && ValidOpen(o)
    ensures var end := Run(st, OpenText(o));
            end == State(st.tokens, st.cur + OpenMeaning(o), st.haveToken || o != Nothing,
                         match o case OpenSingle(_) => Single case OpenDouble(_, _) => Double case _ => Unquoted,
                         o.OpenEscape? || (o.OpenDouble? && o.escaped))
  {
    match o
    case Nothing => assert st.cur + "" == st.cur;
    case OpenEscape => RunOne(st, '\\'); assert st.cur + "" == st.cur;
    case OpenSingle(s) =>
      RunAppend(st, "'", s);
      RunOne(st, '\'');
      RunSingle(Feed(st, '\''), s);
    case OpenDouble(items, escaped) =>
      var body := "\"" + InnerText(items);
      RunAppend(st, "\"", InnerText(items));
      RunOne(st, '"');
      RunInner(Feed(st, '"'), items);
      if escaped {
        RunAppend(st, body, "\\");
        RunOne(Run(st, body), '\\');
      } else {
        assert body + "" == body;
      }
  }

  lemma RunPiece(st: State, p: Piece)
    requires st.quote == Unquoted && !st.escaped && ValidPiece(p)
    ensures Run(st, PieceText(p)) == st.(cur := st.cur + PieceMeaning(p), haveToken := true)
  {
    match p
    case Bare(c) => RunOne(st, c);
    case Backslash(c) => RunTwo(st, '\\', c);
    case SingleQuoted(s) =>
      RunOpen(st, OpenSingle(s));
      RunAppend(st, "'" + s, "'");
      RunOne(Run(st, "'" + s), '\'');
    case DoubleQuoted(items) =>
      var body := "\"" + InnerText(items);
      assert body + "" == body;
      RunOpen(st, OpenDouble(items, false));
      RunAppend(st, body, "\"");
      RunOne(Run(st, body), '"');
  }

  lemma WordSnoc(w: Word, p: Piece)
    ensures WordText(w + [p]) == WordText(w) + PieceText(p)
    ensures WordMeaning(w + [p]) == WordMeaning(w) + PieceMeaning(p)
  {
    assert (w + [p])[..|w|] == w;
  }

  lemma RunWordSnoc(st: State, w: Word, p: Piece)
    requires st.quote == Unquoted && !st.escaped && ValidPiece(p)
    requires Run(st, WordText(w)) == st.(cur := st.cur + WordMeaning(w), haveToken := st.haveToken || w != [])
    ensures Run(st, WordText(w + [p])) == st.(cur := st.cur + WordMeaning(w + [p]), haveToken := true)
  {
    WordSnoc(w, p);
    RunAppend(st, WordText(w), PieceText(p));
    RunPiece(Run(st, WordText(w)), p);
    Associative(st.cur, WordMeaning(w), PieceMeaning(p));
  }

  lemma {:induction false} RunWord(st: State, w: Word)
    requires st.quote == Unquoted && !st.escaped
    requires forall i :: 0 <= i < |w| ==> ValidPiece(w[i])
    ensures Run(st, WordText(w)) == st.(cur := st.cur + WordMeaning(w), haveToken := st.haveToken || w != [])
    decreases |w|
  {
    if w == [] {
      assert st.cur + "" == st.cur;
    } else {
      var front, last := w[..|w| - 1], w[|w| - 1];
      SplitLast(w);
      RunWord(st, front);
      RunWordSnoc(st, front, last);
    }
  }

  lemma MeaningsSnoc(items: seq<Item>, i: Item)
    ensures Meanings(items + [i]) == Meanings(items) + [WordMeaning(i.word)]
    ensures ItemsText(items + [i]) == ItemsText(items) + i.gap + WordText(i.word)
  {
    assert (items + [i])[..|items|] == items;
  }

  /** A word after complete words and blanks. */
  lemma RunItemsSnoc(items: seq<Item>, i: Item)
    requires ValidWord(i.word)
    requires Run(START, ItemsText(items) + i.gap) == State(Meanings(items), "", false, Unquoted, false)
    ensures Run(START, ItemsText(items + [i])) == State(Meanings(items), WordMeaning(i.word), true, Unquoted, false)
  {
    MeaningsSnoc(items, i);
    RunAppend(START, ItemsText(items) + i.gap, WordText(i.word));
    RunWord(Run(START, ItemsText(items) + i.gap), i.word);
    assert "" + WordMeaning(i.word) == WordMeaning(i.word);
  }

  /** The state after some complete words and the blanks that follow them. */
  lemma {:induction false} RunItems(items: seq<Item>, gap: string)
    requires ValidItems(items) && Blanks(gap) && (items != [] ==> gap != "")
    ensures Run(START, ItemsText(items) + gap) == State(Meanings(items), "", false, Unquoted, false)
    decreases |items|
  {
    if items == [] {
      assert ItemsText(items) + gap == gap;
      RunBlanks(START, gap);
    } else {
      var front, last := items[..|items| - 1], items[|items| - 1];
      SplitLast(items);
      RunItems(front, last.gap);
      RunItemsSnoc(front, last);
      MeaningsSnoc(front, last);
      RunAppend(START, ItemsText(items), gap);
      RunBlanks(Run(START, ItemsText(items)), gap);
    }
  }

  lemma PrefixReached(p: Prefix)
    requires ValidPrefix(p)
    ensures Run(START, PrefixText(p)) == StateOf(p)
  {
    var before := ItemsText(p.items) + p.gap;
    RunItems(p.items, p.gap);
    RunAppend(START, before, WordText(p.word));
    RunWord(State(Meanings(p.items), "", false, Unquoted, false), p.word);
    assert "" + WordMeaning(p.word) == WordMeaning(p.word);
    RunAppend(START, before + WordText(p.word), OpenText(p.open));
    RunOpen(Started(p), p.open);
  }

  // ----- and every string is such a prefix

  function Advance(p: Prefix, c: char): (q: Prefix) {
    match p.open
    case OpenEscape => p.(word := p.word + [Backslash(c)], open := Nothing)
    case OpenSingle(s) =>
      if c == '\'' then p.(word := p.word + [SingleQuoted(s)], open := Nothing)
      else p.(open := OpenSingle(s + [c]))
    case OpenDouble(items, escaped) =>
      if escaped then p.(open := OpenDouble(items + [Escape(c)], false))
      else if c == '"' then p.(word := p.word + [DoubleQuoted(items)], open := Nothing)
      else if c == '\\' then p.(open := OpenDouble(items, true))
      else p.(open := OpenDouble(items + [Plain(c)], false))
    case Nothing =>
      if c == '\'' then p.(open := OpenSingle(""))
      else if c == '"' then p.(open := OpenDouble([], false))
      else if c == '\\' then p.(open := OpenEscape)
      else if !IsBlank(c) then p.(word := p.word + [Bare(c)])
      else if p.word == [] then p.(gap := p.gap + [c])
      else Prefix(p.items + [Item(p.gap, p.word)], [c], [], Nothing)
  }

  lemma AdvanceValid(p: Prefix, c: char)
    requires ValidPrefix(p)
    ensures ValidPrefix(Advance(p, c))
  {
  }

  lemma InnerSnoc(items: seq<Inner>, i: Inner)
    ensures InnerText(items + [i]) == InnerText(items) + (if i.Plain? then [i.c] else ['\\', i.c])
  {
    assert (items + [i])[..|items|] == items;
  }

  lemma OpenGrows(p: Prefix, o: Open, c: char)
    requires OpenText(o) == OpenText(p.open) + [c]
    ensures PrefixText(p.(open := o)) == PrefixText(p) + [c]
  {
    Associative(ItemsText(p.items) + p.gap + WordText(p.word), OpenText(p.open), [c]);
  }

  lemma PieceCloses(p: Prefix, piece: Piece, c: char)
    requires PieceText(piece) == OpenText(p.open) + [c]
    ensures PrefixText(p.(word := p.word + [piece], open := Nothing)) == PrefixText(p) + [c]
  {
    var before := ItemsText(p.items) + p.gap;
    WordSnoc(p.word, piece);
    Associative(before, WordText(p.word), PieceText(piece));
    Associative(before + WordText(p.word), OpenText(p.open), [c]);
  }

  lemma AdvanceInner(p: Prefix, c: char)
    requires p.open.OpenDouble?
    ensures PrefixText(Advance(p, c)) == PrefixText(p) + [c]
  {
    var items := p.open.items;
    var quote := "\"";
    if p.open.escaped {
      InnerSnoc(items, Escape(c));
      Associative(quote, InnerText(items), ['\\', c]);
      Associative(quote + InnerText(items), "\\", [c]);
      assert "\\" + [c] == ['\\', c];
      OpenGrows(p, OpenDouble(items + [Escape(c)], false), c);
    } else if c == '"' {
      PieceCloses(p, DoubleQuoted(items), c);
    } else if c == '\\' {
      OpenGrows(p, OpenDouble(items, true), c);
    } else {
      InnerSnoc(items, Plain(c));
      OpenGrows(p, OpenDouble(items + [Plain(c)], false), c);
    }
  }

  lemma AdvanceOpen(p: Prefix, c: char)
    requires p.open.OpenEscape? || p.open.OpenSingle?
    ensures PrefixText(Advance(p, c)) == PrefixText(p) + [c]
  {
    match p.open
    case OpenEscape => PieceCloses(p, Backslash(c), c);
    case OpenSingle(s) =>
      if c == '\'' { PieceCloses(p, SingleQuoted(s), c); } else { OpenGrows(p, OpenSingle(s + [c]), c); }
  }

  /** A blank ends the word in progress. */
  lemma WordEnds(p: Prefix, c: char)
    ensures PrefixText(Prefix(p.items + [Item(p.gap, p.word)], [c], [], Nothing)) ==
            ItemsText(p.items) + p.gap + WordText(p.word) + [c]
  {
    MeaningsSnoc(p.items, Item(p.gap, p.word));
  }

  lemma AdvanceClosed(p: Prefix, c: char)
    requires p.open == Nothing && !IsBlank(c)
    ensures PrefixText(Advance(p, c)) == PrefixText(p) + [c]
  {
    if c == '\'' { OpenGrows(p, OpenSingle(""), c); }
    else if c == '"' { OpenGrows(p, OpenDouble([], false), c); }
    else if c == '\\' { OpenGrows(p, OpenEscape, c); }
    else { PieceCloses(p, Bare(c), c); }
  }

  lemma AdvanceText(p: Prefix, c: char)
    ensures PrefixText(Advance(p, c)) == PrefixText(p) + [c]
  {
    match p.open
    case OpenDouble(_, _) => AdvanceInner(p, c);
    case Nothing =>
      if !IsBlank(c) { AdvanceClosed(p, c); }
      else if p.word != [] { WordEnds(p, c); }
      else { Associative(ItemsText(p.items), p.gap, [c]); }
    case _ => AdvanceOpen(p, c);
  }

  function Read(s: string): (p: Prefix) {
    if s == "" then Prefix([], "", [], Nothing) else Advance(Read(s[..|s| - 1]), s[|s| - 1])
  }

  lemma {:induction false} EveryStringIsAPrefix(s: string)
    ensures ValidPrefix(Read(s)) && PrefixText(Read(s)) == s
  {
    if s != "" {
      var front, c := s[..|s| - 1], s[|s| - 1];
      EveryStringIsAPrefix(front);
      AdvanceValid(Read(front), c);
      AdvanceText(Read(front), c);
      SplitLast(s);
    }
  }

  // ----- main theorems

  /** A line of words tokenizes to the meanings of its words. */
  lemma LineTokens(s: string, items: seq<Item>, trail: string)
    requires IsLine(s, items, trail)
    ensures Tokenized(s) == Tokens(Meanings(items))
  {
    if items == [] || trail != "" {
      RunItems(items, trail);
    } else {
      var n := |items| - 1;
      var last := items[n];
      var p := Prefix(items[..n], last.gap, last.word, Nothing);
      PrefixReached(p);
      assert s == PrefixText(p);
      assert WordMeaning(p.word) + "" == WordMeaning(p.word);
    }
  }

  /** A prefix with nothing open is a line. */
  lemma ClosedPrefixIsLine(p: Prefix) returns (items: seq<Item>, trail: string)
    requires ValidPrefix(p) && p.open == Nothing
    ensures IsLine(PrefixText(p), items, trail)
  {
    if p.word == [] {
      items, trail := p.items, p.gap;
    } else {
      items, trail := p.items + [Item(p.gap, p.word)], "";
      MeaningsSnoc(p.items, Item(p.gap, p.word));
    }
  }

  /** The tokenizer returns exactly the words a line of the grammar spells: soundness and completeness. */
  lemma TokensIffLine(s: string, ws: seq<string>)
    ensures Tokenized(s) == Tokens(ws) <==> exists items, trail :: IsLine(s, items, trail) && Meanings(items) == ws
  {
    if items, trail :| IsLine(s, items, trail) && Meanings(items) == ws {
      LineTokens(s, items, trail);
    }
    if Tokenized(s) == Tokens(ws) {
      var p := Read(s);
      EveryStringIsAPrefix(s);
      PrefixReached(p);
      var items, trail := ClosedPrefixIsLine(p);
      LineTokens(s, items, trail);
    }
  }

  /** The two errors: an unclosed quote wins over a dangling backslash inside it. */
  lemma ErrorsIff(s: string)
    ensures Tokenized(s) == UnterminatedQuote <==>
            exists p :: ValidPrefix(p) && PrefixText(p) == s && (p.open.OpenSingle? || p.open.OpenDouble?)
    ensures Tokenized(s) == TrailingBackslash <==>
            exists p :: ValidPrefix(p) && PrefixText(p) == s && p.open.OpenEscape?
  {
    EveryStringIsAPrefix(s);
    PrefixReached(Read(s));
    if p :| ValidPrefix(p) && PrefixText(p) == s && (p.open.OpenSingle? || p.open.OpenDouble?) { PrefixReached(p); }
    if p :| ValidPrefix(p) && PrefixText(p) == s && p.open.OpenEscape? { PrefixReached(p); }
  }

  /**
   Between double quotes a backslash disappears before every character, also before
   those for which section 2.2.3 of POSIX.1-2017 Shell Command Language keeps it.
   */
  lemma BackslashInDoubleQuotes(c: char)
    ensures Tokenized(['"', '\\', c, '"']) == Tokens([[c]])
  {
    assert ['"', '\\', c, '"'] == ['"', '\\'] + [c, '"'];
    RunAppend(START, ['"', '\\'], [c, '"']);
    RunTwo(START, '"', '\\');
    RunTwo(State([], "", true, Double, true), c, '"');
    assert "" + [c] == [c] && [] + [[c]] == [[c]];
  }

  /** Exactly a space or a tab between two letters separates them; a newline does not. */
  lemma SeparatorsIff(c: char)
    ensures Tokenized(['a', c, 'b']) == Tokens(["a", "b"]) <==> c == ' ' || c == '\t'
  {
    assert ['a', c, 'b'] == ['a', c] + ['b'];
    RunAppend(START, ['a', c], ['b']);
    RunTwo(START, 'a', c);
    RunOne(Feed(Feed(START, 'a'), c), 'b');
    assert "" + ['a'] == "a" && "" + ['b'] == "b" && "a" + ['b'] == "ab";
    assert |[] + ["a"]| == 1 && [] + ["a"] + ["b"] == ["a", "b"];
  }

  // ----- assignments in front of a command

  predicate IsLetter(c: char) { 'a' <= c <= 'z' || 'A' <= c <= 'Z' || c == '_' }

  predicate IsNameChar(c: char) { IsLetter(c) || '0' <= c <= '9' }

  /** The token starts with a name and an equals sign. */
  ghost predicate IsAssignment(t: string) {
    exists k :: 0 < k < |t| && t[k] == '=' && IsLetter(t[0]) && forall i :: 0 <= i < k ==> IsNameChar(t[i])
  }

  /** The regular expression of resolve.go:10, as the loop that decides it. */
  method MatchesAssignment(t: string) returns (r: bool)
    ensures r <==> IsAssignment(t)
  {
    if t == "" || !IsLetter(t[0]) { return false; }
    var k := 1;
    while k < |t| && IsNameChar(t[k])
      invariant 1 <= k <= |t|
      invariant forall i :: 0 <= i < k ==> IsNameChar(t[i])
    {
      k := k + 1;
    }
    return k < |t| && t[k] == '=';
  }

  /** What is left is the suffix that follows the longest run of leading assignments. */
  method StripEnvPrefix(tokens: seq<string>) returns (rest: seq<string>)
    ensures exists i :: 0 <= i <= |tokens| && rest == tokens[i..] && forall j :: 0 <= j < i ==> IsAssignment(tokens[j])
    ensures rest != [] ==> !IsAssignment(rest[0])
  {
    var i := 0;
    while i < |tokens|
      invariant 0 <= i <= |tokens|
      invariant forall j :: 0 <= j < i ==> IsAssignment(tokens[j])
    {
      var matches := MatchesAssignment(tokens[i]);
      if !matches { break; }
      i := i + 1;
    }
    return tokens[i..];
  }
}
