/** What POSIX quoting makes of the command lines that extclean/resolve.go tokenizes. */
module PosixQuoting {
  // Sections 2.2.1 to 2.2.3 of POSIX.1-2017 Shell Command Language: quote removal of
  // the words of a line. Expansions, operators and comments are not considered.

  import opened ShellTokens
  import opened Sequences

  /** The characters before which a backslash between double quotes is an escape. */
  const ESCAPABLE := {'$', '`', '"', '\\'}

  /** Between double quotes a backslash stays before other characters, and is removed with a newline after it. */
  function PosixInner(i: Inner): string {
    if i.Plain? || i.c in ESCAPABLE then [i.c] else if i.c == '\n' then "" else ['\\', i.c]
  }

  function PosixInners(items: seq<Inner>): string {
    if items == [] then "" else PosixInners(items[..|items| - 1]) + PosixInner(items[|items| - 1])
  }

  /** A backslash and a newline outside quotes continue the line. */
  predicate Continuation(p: Piece) { p == Backslash('\n') }

  function PosixPiece(p: Piece): string {
    match p
    case Bare(c) => [c]
    case Backslash(c) => if c == '\n' then "" else [c]
    case SingleQuoted(s) => s
    case DoubleQuoted(items) => PosixInners(items)
  }

  function PosixMeaning(w: Word): string {
    if w == [] then "" else PosixMeaning(w[..|w| - 1]) + PosixPiece(w[|w| - 1])
  }

  /** Nothing is left of it once continuations are removed. */
  predicate OnlyContinuations(w: Word) {
    forall i :: 0 <= i < |w| ==> Continuation(w[i])
  }

  /** The words of the line: continuations are removed before it is split. */
  function PosixWords(items: seq<Item>): seq<string> {
    if items == [] then []
    else
      var front, last := PosixWords(items[..|items| - 1]), items[|items| - 1].word;
      if OnlyContinuations(last) then front else front + [PosixMeaning(last)]
  }

  // ----- where the tokenizer agrees

  predicate InnerAgrees(i: Inner) { i.Plain? || i.c in ESCAPABLE }

  predicate InnersAgree(items: seq<Inner>) { forall i :: 0 <= i < |items| ==> InnerAgrees(items[i]) }

  predicate PieceAgrees(p: Piece) {
    match p
    case Backslash(c) => c != '\n'
    case DoubleQuoted(items) => InnersAgree(items)
    case _ => true
  }

  predicate WordAgrees(w: Word) { forall i :: 0 <= i < |w| ==> PieceAgrees(w[i]) }

  /** Between double quotes backslashes stand only before $, `, " and \, and outside none stands before a newline. */
  predicate LineAgrees(items: seq<Item>) { forall i :: 0 <= i < |items| ==> WordAgrees(items[i].word) }

  lemma {:induction false} SameInners(items: seq<Inner>)
    requires InnersAgree(items)
    ensures PosixInners(items) == InnerMeaning(items)
  {
    if items != [] { SameInners(items[..|items| - 1]); }
  }

  lemma {:induction false} SameWord(w: Word)
    requires WordAgrees(w)
    ensures PosixMeaning(w) == WordMeaning(w)
  {
    if w != [] {
      var last := w[|w| - 1];
      SameWord(w[..|w| - 1]);
      if last.DoubleQuoted? { SameInners(last.items); }
    }
  }

  lemma {:induction false} SameWords(items: seq<Item>)
    requires LineAgrees(items) && ValidItems(items)
    ensures PosixWords(items) == Meanings(items)
  {
    if items != [] {
      var last := items[|items| - 1].word;
      SameWords(items[..|items| - 1]);
      SameWord(last);
      assert PieceAgrees(last[0]);
    }
  }

  // ----- and where it does not

  function Count(s: string, c: char): nat {
    if s == "" then 0 else Count(s[..|s| - 1], c) + if s[|s| - 1] == c then 1 else 0
  }

  lemma {:induction false} CountSum(s: string, t: string, c: char)
    ensures Count(s + t, c) == Count(s, c) + Count(t, c)
    decreases |t|
  {
    if t == "" {
      assert s + t == s;
    } else {
      assert (s + t)[..|s + t| - 1] == s + t[..|t| - 1];
      CountSum(s, t[..|t| - 1], c);
    }
  }

  lemma CountOne(c: char, d: char)
    ensures Count([c], d) == if c == d then 1 else 0
  {
    assert [c][..0] == "";
  }

  /** The POSIX reading p has no fewer backslashes and no more newlines than m; as many of both only when they agree. */
  predicate Balanced(p: string, m: string, agree: bool) {
    && Count(p, '\\') >= Count(m, '\\') && Count(m, '\n') >= Count(p, '\n')
    && (Count(p, '\\') == Count(m, '\\') && Count(m, '\n') == Count(p, '\n') ==> agree)
  }

  lemma BalancedSum(p: string, m: string, a: bool, q: string, n: string, b: bool)
    requires Balanced(p, m, a) && Balanced(q, n, b)
    ensures Balanced(p + q, m + n, a && b)
  {
    CountSum(p, q, '\\');
    CountSum(p, q, '\n');
    CountSum(m, n, '\\');
    CountSum(m, n, '\n');
  }

  lemma BalancedInner(i: Inner)
    ensures Balanced(PosixInner(i), [i.c], InnerAgrees(i))
  {
    CountOne(i.c, '\\');
    CountOne(i.c, '\n');
    if !InnerAgrees(i) && i.c != '\n' {
      assert ['\\', i.c][..1] == ['\\'];
      CountOne('\\', '\\');
      CountOne('\\', '\n');
    }
  }

  lemma InnersSnoc(items: seq<Inner>, i: Inner)
    ensures PosixInners(items + [i]) == PosixInners(items) + PosixInner(i)
    ensures InnerMeaning(items + [i]) == InnerMeaning(items) + [i.c]
    ensures InnersAgree(items + [i]) <==> InnersAgree(items) && InnerAgrees(i)
  {
    var longer := items + [i];
    assert longer[..|items|] == items && longer[|items|] == i;
    if InnersAgree(longer) {
      forall k | 0 <= k < |items| ensures InnerAgrees(items[k]) { assert longer[k] == items[k]; }
    }
  }

  lemma {:induction false} BalancedInners(items: seq<Inner>)
    ensures Balanced(PosixInners(items), InnerMeaning(items), InnersAgree(items))
  {
    if items != [] {
      var front, last := items[..|items| - 1], items[|items| - 1];
      BalancedInners(front);
      BalancedInner(last);
      BalancedSum(PosixInners(front), InnerMeaning(front), InnersAgree(front), PosixInner(last), [last.c], InnerAgrees(last));
      InnersSnoc(front, last);
      SplitLast(items);
    }
  }

  lemma BalancedPiece(p: Piece)
    ensures Balanced(PosixPiece(p), PieceMeaning(p), PieceAgrees(p))
  {
    if p.DoubleQuoted? { BalancedInners(p.items); }
    if p.Backslash? {
      CountOne(p.c, '\\');
      CountOne(p.c, '\n');
    }
  }

  lemma PiecesSnoc(w: Word, p: Piece)
    ensures PosixMeaning(w + [p]) == PosixMeaning(w) + PosixPiece(p)
    ensures WordMeaning(w + [p]) == WordMeaning(w) + PieceMeaning(p)
    ensures WordAgrees(w + [p]) <==> WordAgrees(w) && PieceAgrees(p)
  {
    var longer := w + [p];
    assert longer[..|w|] == w && longer[|w|] == p;
    if WordAgrees(longer) {
      forall k | 0 <= k < |w| ensures PieceAgrees(w[k]) { assert longer[k] == w[k]; }
    }
  }

  lemma {:induction false} BalancedWord(w: Word)
    ensures Balanced(PosixMeaning(w), WordMeaning(w), WordAgrees(w))
  {
    if w != [] {
      var front, last := w[..|w| - 1], w[|w| - 1];
      BalancedWord(front);
      BalancedPiece(last);
      BalancedSum(PosixMeaning(front), WordMeaning(front), WordAgrees(front), PosixPiece(last), PieceMeaning(last), PieceAgrees(last));
      PiecesSnoc(front, last);
      SplitLast(w);
    }
  }

  function Joined(ws: seq<string>): string {
    if ws == [] then "" else Joined(ws[..|ws| - 1]) + ws[|ws| - 1]
  }

  lemma JoinedSnoc(ws: seq<string>, w: string)
    ensures Joined(ws + [w]) == Joined(ws) + w
  {
    assert (ws + [w])[..|ws|] == ws;
  }

  lemma {:induction false} ContinuationsMeanNothing(w: Word)
    requires OnlyContinuations(w)
    ensures PosixMeaning(w) == ""
  {
    if w != [] { ContinuationsMeanNothing(w[..|w| - 1]); }
  }

  lemma WordsSnoc(items: seq<Item>, i: Item)
    ensures Joined(PosixWords(items + [i])) == Joined(PosixWords(items)) + PosixMeaning(i.word)
    ensures Joined(Meanings(items + [i])) == Joined(Meanings(items)) + WordMeaning(i.word)
  {
    MeaningsSnoc(items, i);
    JoinedSnoc(Meanings(items), WordMeaning(i.word));
    assert (items + [i])[..|items|] == items;
    if OnlyContinuations(i.word) {
      ContinuationsMeanNothing(i.word);
      assert Joined(PosixWords(items)) + "" == Joined(PosixWords(items));
    } else {
      JoinedSnoc(PosixWords(items), PosixMeaning(i.word));
    }
  }

  lemma LineAgreesSnoc(items: seq<Item>, i: Item)
    ensures LineAgrees(items + [i]) <==> LineAgrees(items) && WordAgrees(i.word)
  {
    var longer := items + [i];
    assert longer[|items|] == i;
    if LineAgrees(longer) {
      forall k | 0 <= k < |items| ensures WordAgrees(items[k].word) { assert longer[k] == items[k]; }
    }
  }

  lemma {:induction false} BalancedLine(items: seq<Item>)
    ensures Balanced(Joined(PosixWords(items)), Joined(Meanings(items)), LineAgrees(items))
  {
    if items != [] {
      var front, last := items[..|items| - 1], items[|items| - 1];
      BalancedLine(front);
      BalancedWord(last.word);
      BalancedSum(Joined(PosixWords(front)), Joined(Meanings(front)), LineAgrees(front),
                  PosixMeaning(last.word), WordMeaning(last.word), WordAgrees(last.word));
      WordsSnoc(front, last);
      LineAgreesSnoc(front, last);
      SplitLast(items);
    }
  }

  /** The tokenizer gives the POSIX reading of a line exactly when the line agrees: its words are spelled without the two differing escapes. */
  lemma PosixIff(s: string, items: seq<Item>, trail: string)
    requires IsLine(s, items, trail)
    ensures Tokenized(s) == Tokens(PosixWords(items)) <==> LineAgrees(items)
  {
    LineTokens(s, items, trail);
    if LineAgrees(items) { SameWords(items); }
    if PosixWords(items) == Meanings(items) { BalancedLine(items); }
  }

  /** One escape of each kind. */
  lemma DifferingEscapes(c: char)
    requires c !in ESCAPABLE && c != '\n'
    ensures PosixMeaning([DoubleQuoted([Escape(c)])]) == ['\\', c] && WordMeaning([DoubleQuoted([Escape(c)])]) == [c]
    ensures PosixWords([Item("", [Backslash('\n')])]) == [] && Meanings([Item("", [Backslash('\n')])]) == ["\n"]
  {
    var inner, word: Word := [Escape(c)], [DoubleQuoted([Escape(c)])];
    assert inner[..0] == [] && word[..0] == [];
    assert InnerMeaning(inner[..0]) == "" && PosixInners(inner[..0]) == "";
    assert PosixInners(inner) == ['\\', c] && InnerMeaning(inner) == [c];
    var newline: Word := [Backslash('\n')];
    var items := [Item("", newline)];
    assert newline[..0] == [] && items[..0] == [];
    assert WordMeaning(newline) == "\n" && OnlyContinuations(newline);
  }
}
