/** Which texts prtag/prtag.go accepts, said without its reader: what a tag file looks like, and what each error is about. */
module PrTagGrammar {
  import opened PrTag
  import opened Sequences
  import opened Wrappers

  // ----- line ends

  /** A carriage return at the end and a newline at the beginning stand side by side. */
  predicate Meet(a: string, b: string) {
    a != "" && b != "" && a[|a| - 1] == '\r' && b[0] == '\n'
  }

  predicate Pair(s: string) { |s| >= 2 && s[0] == '\r' && s[1] == '\n' }

  function HeadOf(s: string): string
    requires s != ""
  {
    if Pair(s) then "\n" else [s[0]]
  }

  function TailOf(s: string): string
    requires s != ""
  {
    if Pair(s) then s[2..] else s[1..]
  }

  lemma ReplaceHead(s: string)
    requires s != ""
    ensures ReplaceCRLF(s) == HeadOf(s) + ReplaceCRLF(TailOf(s))
  {
  }

  lemma Heads(a: string, b: string)
    requires a != "" && !Meet(a, b)
    ensures HeadOf(a + b) == HeadOf(a) && TailOf(a + b) == TailOf(a) + b && !Meet(TailOf(a), b)
  {
    assert Pair(a + b) <==> Pair(a);
  }

  lemma {:induction false} ReplaceCRLFAppend(a: string, b: string)
    requires !Meet(a, b)
    ensures ReplaceCRLF(a + b) == ReplaceCRLF(a) + ReplaceCRLF(b)
    decreases |a|
  {
    if a == "" {
      assert a + b == b;
    } else {
      Heads(a, b);
      ReplaceHead(a);
      ReplaceHead(a + b);
      ReplaceCRLFAppend(TailOf(a), b);
      Associative(HeadOf(a), ReplaceCRLF(TailOf(a)), ReplaceCRLF(b));
    }
  }

  lemma {:induction false} ReplaceCRAppend(a: string, b: string)
    ensures ReplaceCR(a + b) == ReplaceCR(a) + ReplaceCR(b)
    decreases |a|
  {
    if a == "" {
      assert a + b == b;
    } else {
      assert (a + b)[1..] == a[1..] + b;
      ReplaceCRAppend(a[1..], b);
    }
  }

  lemma NormalizeAppend(a: string, b: string)
    requires !Meet(a, b)
    ensures NormalizeNewlines(a + b) == NormalizeNewlines(a) + NormalizeNewlines(b)
  {
    ReplaceCRLFAppend(a, b);
    ReplaceCRAppend(ReplaceCRLF(a), ReplaceCRLF(b));
  }

  lemma LineEnds()
    ensures NormalizeNewlines("\r\n") == "\n" && NormalizeNewlines("\r") == "\n"
  {
    assert ReplaceCRLF("\r\n") == "\n" + ReplaceCRLF("") && ReplaceCR("\n") == "\n" + ReplaceCR("");
    assert ReplaceCR("\r") == "\n" + ReplaceCR("");
  }

  /** A carriage return with a newline, and every other carriage return, becomes one newline; nothing else changes. */
  lemma NewlineLaw(a: string, b: string)
    ensures NormalizeNewlines(a + "\r\n" + b) == NormalizeNewlines(a) + "\n" + NormalizeNewlines(b)
    ensures b == "" || b[0] != '\n' ==> NormalizeNewlines(a + "\r" + b) == NormalizeNewlines(a) + "\n" + NormalizeNewlines(b)
    ensures Avoids(a, {'\r'}) ==> NormalizeNewlines(a) == a
  {
    LineEnds();
    NormalizeAppend(a, "\r\n");
    NormalizeAppend(a + "\r\n", b);
    NormalizeAppend(a, "\r");
    if b == "" || b[0] != '\n' { NormalizeAppend(a + "\r", b); }
    if Avoids(a, {'\r'}) { NothingToReplace(a); }
  }

  // ----- trimming

  lemma {:induction false} TrimFrontIs(left: string, rest: string)
    requires Blank(left) && rest != "" && !IsSpace(rest[0])
    ensures TrimFront(left + rest) == rest
    decreases |left|
  {
    if left == "" {
      assert left + rest == rest;
    } else {
      assert (left + rest)[1..] == left[1..] + rest;
      TrimFrontIs(left[1..], rest);
    }
  }

  lemma {:induction false} TrimBackIs(front: string, right: string)
    requires Blank(right) && front != "" && !IsSpace(front[|front| - 1])
    ensures TrimBack(front + right) == front
    decreases |right|
  {
    if right == "" {
      assert front + right == front;
    } else {
      assert (front + right)[..|front + right| - 1] == front + right[..|right| - 1];
      TrimBackIs(front, right[..|right| - 1]);
    }
  }

  lemma TrimIs(left: string, t: string, right: string)
    requires Blank(left) && Blank(right) && t != "" && IsTrimmed(t)
    ensures TrimSpace(left + t + right) == t
  {
    assert left + t + right == left + (t + right);
    TrimFrontIs(left, t + right);
    TrimBackIs(t, right);
  }

  lemma {:induction false} TrimFrontSplit(s: string) returns (left: string)
    ensures Blank(left) && s == left + TrimFront(s)
  {
    if s != "" && IsSpace(s[0]) {
      left := TrimFrontSplit(s[1..]);
      left := [s[0]] + left;
    } else {
      left := "";
    }
  }

  lemma {:induction false} TrimBackSplit(s: string) returns (right: string)
    ensures Blank(right) && s == TrimBack(s) + right
  {
    if s != "" && IsSpace(s[|s| - 1]) {
      right := TrimBackSplit(s[..|s| - 1]);
      right := right + [s[|s| - 1]];
    } else {
      right := "";
    }
  }

  /** s is t with blanks around it. */
  ghost predicate Padded(s: string, t: string) {
    exists left, right :: Blank(left) && Blank(right) && s == left + t + right
  }

  lemma PaddedIff(s: string, t: string)
    requires t != "" && IsTrimmed(t)
    ensures Padded(s, t) <==> TrimSpace(s) == t
  {
    if Padded(s, t) {
      var left, right :| Blank(left) && Blank(right) && s == left + t + right;
      TrimIs(left, t, right);
    }
    if TrimSpace(s) == t {
      var left := TrimFrontSplit(s);
      var right := TrimBackSplit(TrimFront(s));
      assert s == left + t + right;
    }
  }

  // ----- header lines

  /** A name, with blanks around it, and a colon. */
  ghost predicate NameLine(line: string, name: string) {
    GoodName(name) && exists pad :: line == pad + ":" && Padded(pad, name)
  }

  lemma NameLineIff(line: string, name: string)
    ensures NameLine(line, name) <==> NameHeader(line) == Some(name)
  {
    if NameLine(line, name) {
      var pad :| line == pad + ":" && Padded(pad, name);
      assert line[..|line| - 1] == pad;
      PaddedIff(pad, name);
    }
    if NameHeader(line) == Some(name) {
      NameHeaderGood(line);
      var pad := line[..|line| - 1];
      PaddedIff(pad, name);
      assert line == pad + ":";
    }
  }

  /** A header in brackets, with blanks around it and inside. */
  ghost predicate BracketLine(line: string, meta: string) {
    GoodMeta(meta) && exists inner :: Padded(inner, meta) && Padded(line, "[" + inner + "]")
  }

  lemma Brackets(line: string, inner: string)
    ensures Padded(line, "[" + inner + "]") <==> TrimSpace(line) == "[" + inner + "]"
  {
    PaddedIff(line, "[" + inner + "]");
  }

  lemma InBrackets(line: string)
    requires |line| >= 2 && line[0] == '[' && line[|line| - 1] == ']'
    ensures line == "[" + line[1..|line| - 1] + "]"
  {
  }

  lemma BracketLineIff(line: string, meta: string)
    ensures BracketLine(line, meta) <==> BracketHeader(line) == Some(meta)
  {
    if BracketLine(line, meta) {
      var inner :| Padded(inner, meta) && Padded(line, "[" + inner + "]");
      Brackets(line, inner);
      PaddedIff(inner, meta);
      assert ("[" + inner + "]")[1..|inner| + 1] == inner;
    }
    if BracketHeader(line) == Some(meta) {
      BracketHeaderGood(line);
      var trimmed := TrimSpace(line);
      var inner := trimmed[1..|trimmed| - 1];
      InBrackets(trimmed);
      Brackets(line, inner);
      PaddedIff(inner, meta);
    }
  }

  // ----- delimiter lines

  /** A line of s that begins at i is "---". */
  predicate DelimiterAt(s: string, i: nat) {
    && i + 3 <= |s| && s[i] == '-' && s[i + 1] == '-' && s[i + 2] == '-'
    && (i == 0 || s[i - 1] == '\n') && (i + 3 == |s| || s[i + 3] == '\n')
  }

  ghost predicate NoDelimiterLine(s: string) {
    forall i: nat :: !DelimiterAt(s, i)
  }

  predicate LineStart(s: string, i: nat) {
    i <= |s| && (i == 0 || s[i - 1] == '\n')
  }

  lemma FirstLine(s: string, i: nat)
    requires LineStart(s, i)
    ensures IsDelimiter(s, i, Newline(s, i)) <==> DelimiterAt(s, i)
    ensures forall k :: i < k <= Newline(s, i) ==> !DelimiterAt(s, k)
  {
    if DelimiterAt(s, i) { NewlineAt(s, i, i + 3); }
  }

  /** The reader stops at the first delimiter line from i on. */
  lemma {:induction false} DelimiterMeaning(s: string, i: nat)
    requires LineStart(s, i)
    ensures match Delimiter(s, i)
            case None => forall k: nat :: k >= i ==> !DelimiterAt(s, k)
            case Some(d) => d >= i && DelimiterAt(s, d) && forall k: nat :: i <= k < d ==> !DelimiterAt(s, k)
    decreases |s| - i
  {
    var j := Newline(s, i);
    FirstLine(s, i);
    if !IsDelimiter(s, i, j) && j < |s| { DelimiterMeaning(s, j + 1); }
  }

  lemma NoDelimiterIff(s: string)
    ensures Delimiter(s, 0) == None <==> NoDelimiterLine(s)
  {
    DelimiterMeaning(s, 0);
  }

  // ----- the parts of a file

  /** A name line, a newline and the rest. */
  ghost predicate Headed(s: string, name: string, rest: string) {
    exists line :: '\n' !in line && NameLine(line, name) && s == line + "\n" + rest
  }

  /** Complete lines, none of them a delimiter, then a delimiter line, and what follows its dashes. */
  ghost predicate Delimited(rest: string, body: string, tail: string) {
    Complete(body) && NoDelimiterLine(body) && (tail == "" || tail[0] == '\n') && rest == body + (DELIMITER + tail)
  }

  /** After blank lines the first line that is not blank, and what follows it. */
  ghost predicate Inked(tail: string, line: string, more: string) {
    && !Blank(line) && '\n' !in line && (more == "" || more[0] == '\n')
    && exists blank :: LeadsTo(blank, tail, line, more)
  }

  /** The blank lines before it. */
  predicate LeadsTo(blank: string, tail: string, line: string, more: string) {
    Blank(blank) && blank != "" && blank[|blank| - 1] == '\n' && tail == blank + line + more
  }

  lemma HeadedReads(s: string, name: string, rest: string)
    requires Headed(s, name, rest)
    ensures ParseLines(s) == ParseRest(name, rest)
  {
    var line :| '\n' !in line && NameLine(line, name) && s == line + "\n" + rest;
    NewlineAt(s, 0, |line|);
    assert s[..|line|] == line && s[|line| + 1..] == rest;
    NameLineIff(line, name);
  }

  lemma HeaderFound(s: string)
    requires ParseLines(s) != Err(InvalidHeader)
    ensures Newline(s, 0) < |s| && NameHeader(s[..Newline(s, 0)]) != None
  {
  }

  lemma HeaderSplit(s: string) returns (name: string, rest: string)
    requires ParseLines(s) != Err(InvalidHeader)
    ensures Headed(s, name, rest)
  {
    HeaderFound(s);
    var j := Newline(s, 0);
    name, rest := NameHeader(s[..j]).value, s[j + 1..];
    NameLineIff(s[..j], name);
    SplitLine(s, j);
  }

  lemma SplitLine(s: string, j: nat)
    requires j < |s| && s[j] == '\n'
    ensures s == s[..j] + "\n" + s[j + 1..]
  {
  }

  lemma {:induction false} RestIsNoHeader(name: string, rest: string)
    ensures ParseRest(name, rest) != Err(InvalidHeader)
  {
  }

  lemma DelimitedAt(rest: string, body: string, tail: string)
    requires Delimited(rest, body, tail)
    ensures Delimiter(rest, 0) == Some(|body|) && rest[..|body|] == body
    ensures After(rest, |body| + 3) == if tail == "" then "" else tail[1..]
  {
    NoDelimiterIff(body);
    DelimiterAppend(body, DELIMITER + tail, 0);
    assert rest[|body| + 3..] == tail;
  }

  lemma Dashes(s: string, d: nat)
    requires DelimiterAt(s, d)
    ensures s == s[..d] + (DELIMITER + s[d + 3..])
  {
    assert s[d..d + 3] == DELIMITER;
    assert s == s[..d] + (s[d..d + 3] + s[d + 3..]);
  }

  lemma BodySplit(rest: string) returns (body: string, tail: string)
    requires !NoDelimiterLine(rest)
    ensures Delimited(rest, body, tail)
  {
    NoDelimiterIff(rest);
    DelimiterMeaning(rest, 0);
    var d := Delimiter(rest, 0).value;
    body, tail := rest[..d], rest[d + 3..];
    BeforeDelimiter(rest, d);
    NoDelimiterIff(body);
    Dashes(rest, d);
  }

  // ----- the section after the delimiter

  predicate BlankIn(s: string, i: nat, j: nat)
    requires i <= j <= |s|
  {
    forall k :: i <= k < j ==> IsSpace(s[k])
  }

  /** A line of s that is not blank. */
  predicate InkAt(s: string, a: nat, b: nat) {
    && a <= b <= |s| && LineStart(s, a) && (b == |s| || s[b] == '\n')
    && (forall k :: a <= k < b ==> s[k] != '\n') && !BlankIn(s, a, b)
  }

  lemma BlankSlice(s: string, i: nat, j: nat)
    requires i <= j <= |s|
    ensures Blank(s[i..j]) <==> BlankIn(s, i, j)
  {
    if Blank(s[i..j]) {
      forall k | i <= k < j ensures IsSpace(s[k]) { assert s[i..j][k - i] == s[k]; }
    }
  }

  lemma {:induction false} InkLineIs(s: string, i: nat, a: nat, b: nat)
    requires i <= a && InkAt(s, a, b) && LineStart(s, i) && BlankIn(s, i, a)
    ensures InkLine(s, i) == Some((a, b))
    decreases a - i
  {
    var j := Newline(s, i);
    BlankSlice(s, i, j);
    if i == a {
      NewlineAt(s, a, b);
    } else {
      assert s[a - 1] == '\n' && j < a;
      InkLineIs(s, j + 1, a, b);
    }
  }

  lemma {:induction false} InkLineSplit(s: string, i: nat)
    requires LineStart(s, i)
    ensures match InkLine(s, i)
            case None => BlankIn(s, i, |s|)
            case Some((a, b)) => i <= a && InkAt(s, a, b) && BlankIn(s, i, a)
    decreases |s| - i
  {
    var j := Newline(s, i);
    BlankSlice(s, i, j);
    if BlankIn(s, i, j) && j < |s| {
      InkLineSplit(s, j + 1);
      BlankLine(s, i, j);
    }
  }

  lemma BlankLine(s: string, i: nat, j: nat)
    requires i <= j < |s| && BlankIn(s, i, j) && s[j] == '\n'
    ensures forall k :: j + 1 <= k <= |s| && BlankIn(s, j + 1, k) ==> BlankIn(s, i, k)
  {
  }

  function AfterLine(tail: string): string { if tail == "" then "" else tail[1..] }

  lemma BlankTail(tail: string)
    requires tail == "" || tail[0] == '\n'
    ensures Blank(tail) <==> Blank(AfterLine(tail))
    ensures Blank(tail) <==> ParseMeta(AfterLine(tail)) == Err(InvalidDelimiter)
  {
    var after := AfterLine(tail);
    InkLineSplit(after, 0);
    if tail != "" { assert forall k :: 0 < k < |tail| ==> tail[k] == after[k - 1]; }
    if InkLine(after, 0) == None { assert after[0..] == after; BlankSlice(after, 0, |after|); }
  }

  /** The line stands at a, with more after it. */
  predicate LineAt(s: string, a: nat, line: string, more: string) {
    a + |line| <= |s| && s[a..a + |line|] == line && s[a + |line|..] == more
  }

  /** The line that is not blank, as a position. */
  lemma InkedAt(tail: string, line: string, more: string) returns (a: nat)
    ensures Inked(tail, line, more) ==> LineAt(AfterLine(tail), a, line, more) && InkLine(AfterLine(tail), 0) == Some((a, a + |line|))
  {
    a := 0;
    if Inked(tail, line, more) {
      var blank :| LeadsTo(blank, tail, line, more);
      a := |blank| - 1;
      InkedAfter(blank, tail, line, more);
    }
  }

  lemma InkedAfter(blank: string, tail: string, line: string, more: string)
    requires LeadsTo(blank, tail, line, more)
    requires !Blank(line) && '\n' !in line && (more == "" || more[0] == '\n')
    ensures LineAt(AfterLine(tail), |blank| - 1, line, more) && InkLine(AfterLine(tail), 0) == Some((|blank| - 1, |blank| - 1 + |line|))
  {
    AfterBlank(blank, line, more);
    InkThere(AfterLine(tail), |blank| - 1, line, more);
  }

  lemma InkThere(after: string, a: nat, line: string, more: string)
    requires LineAt(after, a, line, more) && BlankIn(after, 0, a) && LineStart(after, a)
    requires !Blank(line) && '\n' !in line && (more == "" || more[0] == '\n')
    ensures InkLine(after, 0) == Some((a, a + |line|))
  {
    InkFound(after, a, line, more);
    InkLineIs(after, 0, a, a + |line|);
  }

  lemma InkFound(after: string, a: nat, line: string, more: string)
    requires LineAt(after, a, line, more) && !Blank(line) && '\n' !in line && LineStart(after, a) && (more == "" || more[0] == '\n')
    ensures InkAt(after, a, a + |line|)
  {
    BlankSlice(after, a, a + |line|);
    assert forall k :: a <= k < a + |line| ==> after[k] == line[k - a];
  }

  lemma AfterBlank(blank: string, line: string, more: string)
    requires Blank(blank) && blank != "" && blank[|blank| - 1] == '\n'
    ensures var after, a := AfterLine(blank + line + more), |blank| - 1;
            LineAt(after, a, line, more) && BlankIn(after, 0, a) && LineStart(after, a)
  {
    assert AfterLine(blank + line + more) == blank[1..] + line + more;
  }

  lemma InkedReads(tail: string, line: string, more: string)
    requires Inked(tail, line, more)
    ensures ParseMeta(AfterLine(tail)) == SectionOf(BracketHeader(line), Blank(more))
  {
    var a := InkedAt(tail, line, more);
    BlankTail(more);
    LineReads(AfterLine(tail), a, line, more);
  }

  lemma LineReads(after: string, a: nat, line: string, more: string)
    requires LineAt(after, a, line, more) && InkLine(after, 0) == Some((a, a + |line|))
    requires Blank(more) <==> Blank(AfterLine(more))
    ensures ParseMeta(after) == SectionOf(BracketHeader(line), Blank(more))
  {
    SectionAt(after, a, a + |line|);
    RestOfSection(after, a, line, more);
  }

  lemma SectionAt(after: string, a: nat, b: nat)
    requires a <= b <= |after| && InkLine(after, 0) == Some((a, b))
    ensures ParseMeta(after) == SectionOf(BracketHeader(after[a..b]), Blank(After(after, b)))
  {
  }

  /** What is read from a header line and what follows it. */
  function SectionOf(header: Option<string>, alone: bool): Result<string, Error> {
    if header == None then Err(InvalidMetaHeader) else if !alone then Err(NonEmptyMetadata) else Ok(header.value)
  }

  lemma RestOfSection(after: string, a: nat, line: string, more: string)
    requires LineAt(after, a, line, more)
    ensures After(after, a + |line|) == AfterLine(more)
  {
  }

  lemma TailSplit(tail: string) returns (line: string, more: string)
    requires (tail == "" || tail[0] == '\n') && !Blank(tail)
    ensures Inked(tail, line, more)
  {
    var after := AfterLine(tail);
    BlankTail(tail);
    InkLineSplit(after, 0);
    BlankSlice(after, 0, |after|);
    assert after[0..|after|] == after;
    var (a, b) := InkLine(after, 0).value;
    line, more := after[a..b], after[b..];
    InkedFrom(tail, a, b);
  }

  lemma InkedFrom(tail: string, a: nat, b: nat)
    requires tail != "" && tail[0] == '\n' && b < |tail| && InkAt(AfterLine(tail), a, b) && BlankIn(AfterLine(tail), 0, a)
    ensures Inked(tail, AfterLine(tail)[a..b], AfterLine(tail)[b..])
  {
    BlankFront(tail, a);
    InkSlice(AfterLine(tail), a, b);
    Middle(tail, a + 1, b + 1);
    TailSlices(tail, a, b);
    assert LeadsTo(tail[..a + 1], tail, AfterLine(tail)[a..b], AfterLine(tail)[b..]);
  }

  lemma BlankFront(tail: string, a: nat)
    requires tail != "" && tail[0] == '\n' && a < |tail| && BlankIn(AfterLine(tail), 0, a) && LineStart(AfterLine(tail), a)
    ensures Blank(tail[..a + 1]) && tail[a] == '\n'
  {
    assert forall k :: 0 < k <= a ==> tail[k] == AfterLine(tail)[k - 1];
  }

  lemma InkSlice(s: string, a: nat, b: nat)
    requires InkAt(s, a, b)
    ensures !Blank(s[a..b]) && '\n' !in s[a..b] && (s[b..] == "" || s[b..][0] == '\n')
  {
    BlankSlice(s, a, b);
  }

  lemma TailSlices(s: string, a: nat, b: nat)
    requires a <= b < |s|
    ensures s[1..][a..b] == s[a + 1..b + 1] && s[1..][b..] == s[b + 1..]
  {
    var t, u := s[1..][a..b], s[a + 1..b + 1];
    assert |t| == |u| && forall k :: 0 <= k < |t| ==> t[k] == u[k];
    var v, w := s[1..][b..], s[b + 1..];
    assert |v| == |w| && forall k :: 0 <= k < |v| ==> v[k] == w[k];
  }

  lemma Middle(s: string, i: nat, j: nat)
    requires i <= j <= |s|
    ensures s == s[..i] + s[i..j] + s[j..]
  {
  }

  // ----- what is read

  /** A tag file without metadata. */
  ghost predicate Plain(s: string, name: string, body: string) {
    Headed(s, name, body) && NoDelimiterLine(body)
  }

  /** A tag file up to what follows the dashes of its first delimiter line. */
  ghost predicate Cut(s: string, name: string, body: string, tail: string) {
    exists rest :: Headed(s, name, rest) && Delimited(rest, body, tail)
  }

  /** A tag file with a metadata section that begins with this line. */
  ghost predicate Sectioned(s: string, name: string, body: string, line: string, more: string) {
    exists tail :: Cut(s, name, body, tail) && Inked(tail, line, more)
  }

  lemma PlainReads(s: string, name: string, body: string)
    requires Plain(s, name, body)
    ensures ParseLines(s) == Ok(Tag(name, body, ""))
  {
    HeadedReads(s, name, body);
    NoDelimiterIff(body);
  }

  lemma CutReads(s: string, name: string, body: string, tail: string)
    requires Cut(s, name, body, tail)
    ensures ParseLines(s) == WithMeta(name, body, ParseMeta(AfterLine(tail)))
    ensures Blank(tail) <==> ParseLines(s) == Err(InvalidDelimiter)
  {
    var rest :| Headed(s, name, rest) && Delimited(rest, body, tail);
    HeadedReads(s, name, rest);
    DelimitedAt(rest, body, tail);
    BlankTail(tail);
  }

  lemma SectionReads(s: string, name: string, body: string, line: string, more: string)
    requires Sectioned(s, name, body, line, more)
    ensures ParseLines(s) ==
            if BracketHeader(line) == None then Err(InvalidMetaHeader)
            else if !Blank(more) then Err(NonEmptyMetadata)
            else Ok(Tag(name, body, BracketHeader(line).value))
  {
    var tail :| Cut(s, name, body, tail) && Inked(tail, line, more);
    CutReads(s, name, body, tail);
    InkedReads(tail, line, more);
  }

  datatype Shape = Headless | Bare(name: string, body: string) | Ended(name: string, body: string, tail: string)
                 | Section(name: string, body: string, line: string, more: string)

  /** Every text has one of the four shapes. */
  ghost predicate Fits(s: string, shape: Shape) {
    match shape
    case Headless => forall name, rest :: !Headed(s, name, rest)
    case Bare(name, body) => Plain(s, name, body)
    case Ended(name, body, tail) => Cut(s, name, body, tail) && Blank(tail)
    case Section(name, body, line, more) => Sectioned(s, name, body, line, more)
  }

  lemma NoHeader(s: string)
    requires ParseLines(s) == Err(InvalidHeader)
    ensures Fits(s, Headless)
  {
    forall name, rest ensures !Headed(s, name, rest) {
      if Headed(s, name, rest) { HeadedReads(s, name, rest); RestIsNoHeader(name, rest); }
    }
  }

  lemma ShapeOf(s: string) returns (shape: Shape)
    ensures Fits(s, shape) && (shape == Headless <==> ParseLines(s) == Err(InvalidHeader))
  {
    if ParseLines(s) == Err(InvalidHeader) {
      NoHeader(s);
      shape := Headless;
    } else {
      var name, rest := HeaderSplit(s);
      if NoDelimiterLine(rest) {
        shape := Bare(name, rest);
      } else {
        var body, tail := BodySplit(rest);
        assert Cut(s, name, body, tail);
        if Blank(tail) {
          shape := Ended(name, body, tail);
        } else {
          var line, more := TailSplit(tail);
          shape := Section(name, body, line, more);
        }
      }
    }
  }

  lemma ShapeReads(s: string, shape: Shape)
    requires Fits(s, shape) && (shape == Headless <==> ParseLines(s) == Err(InvalidHeader))
    ensures match shape
            case Headless => true
            case Bare(name, body) => ParseLines(s) == Ok(Tag(name, body, ""))
            case Ended(name, body, tail) => ParseLines(s) == Err(InvalidDelimiter)
            case Section(name, body, line, more) =>
              ParseLines(s) == if BracketHeader(line) == None then Err(InvalidMetaHeader)
                               else if !Blank(more) then Err(NonEmptyMetadata)
                               else Ok(Tag(name, body, BracketHeader(line).value))
  {
    match shape
    case Headless =>
    case Bare(name, body) => PlainReads(s, name, body);
    case Ended(name, body, tail) => CutReads(s, name, body, tail);
    case Section(name, body, line, more) => SectionReads(s, name, body, line, more);
  }

  /** A file without a delimiter line is the name line and the body, and nothing else is read as that. */
  lemma PlainIff(b: string, name: string, body: string)
    ensures Parsed(b) == Ok(Tag(name, body, "")) <==> Plain(NormalizeNewlines(b), name, body)
  {
    var s := NormalizeNewlines(b);
    var shape := ShapeOf(s);
    ShapeReads(s, shape);
    if Plain(s, name, body) { PlainReads(s, name, body); }
    if shape.Section? && BracketHeader(shape.line) != None { BracketHeaderGood(shape.line); }
  }

  /** The section brackets this header, and only blanks follow. */
  ghost predicate Marked(s: string, name: string, body: string, meta: string) {
    exists line, more :: Sectioned(s, name, body, line, more) && BracketLine(line, meta) && Blank(more)
  }

  /** A file with metadata is the name line, a body without delimiter lines, a delimiter line, blank lines, the header in brackets and blanks. */
  lemma MarkedIff(b: string, name: string, body: string, meta: string)
    requires meta != ""
    ensures Parsed(b) == Ok(Tag(name, body, meta)) <==> Marked(NormalizeNewlines(b), name, body, meta)
  {
    var s := NormalizeNewlines(b);
    var shape := ShapeOf(s);
    ShapeReads(s, shape);
    if Marked(s, name, body, meta) {
      var line, more :| Sectioned(s, name, body, line, more) && BracketLine(line, meta) && Blank(more);
      SectionReads(s, name, body, line, more);
      BracketLineIff(line, meta);
    }
    if Parsed(b) == Ok(Tag(name, body, meta)) {
      BracketLineIff(shape.line, meta);
      assert Sectioned(s, name, body, shape.line, shape.more);
    }
  }

  ghost predicate HasHeader(s: string) {
    exists name, rest :: Headed(s, name, rest)
  }

  /** The file ends, up to blanks, with its delimiter line. */
  ghost predicate EndsBlank(s: string) {
    exists name, body, tail :: Cut(s, name, body, tail) && Blank(tail)
  }

  /** The line after the delimiter is no header in brackets. */
  ghost predicate BadSection(s: string) {
    exists name, body, line, more :: Sectioned(s, name, body, line, more) && forall meta :: !BracketLine(line, meta)
  }

  /** Something follows the header in brackets. */
  ghost predicate FullSection(s: string) {
    exists name, body, line, more, meta :: Sectioned(s, name, body, line, more) && BracketLine(line, meta) && !Blank(more)
  }

  lemma NoBracketLine(line: string)
    ensures BracketHeader(line) == None <==> forall meta :: !BracketLine(line, meta)
  {
    forall meta ensures BracketLine(line, meta) <==> BracketHeader(line) == Some(meta) { BracketLineIff(line, meta); }
    if BracketHeader(line) != None { BracketLineIff(line, BracketHeader(line).value); }
  }

  lemma HeaderIsRead(s: string)
    requires HasHeader(s)
    ensures ParseLines(s) != Err(InvalidHeader)
  {
    var name, rest :| Headed(s, name, rest);
    HeadedReads(s, name, rest);
    RestIsNoHeader(name, rest);
  }

  lemma BadIsReported(s: string)
    requires BadSection(s)
    ensures ParseLines(s) == Err(InvalidMetaHeader)
  {
    var name, body, line, more :| Sectioned(s, name, body, line, more) && forall meta :: !BracketLine(line, meta);
    SectionReads(s, name, body, line, more);
    NoBracketLine(line);
  }

  lemma FullIsReported(s: string)
    requires FullSection(s)
    ensures ParseLines(s) == Err(NonEmptyMetadata)
  {
    var name, body, line, more, meta :| Sectioned(s, name, body, line, more) && BracketLine(line, meta) && !Blank(more);
    SectionReads(s, name, body, line, more);
    BracketLineIff(line, meta);
  }

  /** Each error is reported for exactly these files. */
  lemma ErrorsIff(b: string)
    ensures var s := NormalizeNewlines(b);
            && (Parsed(b) == Err(InvalidHeader) <==> !HasHeader(s))
            && (Parsed(b) == Err(InvalidDelimiter) <==> EndsBlank(s))
            && (Parsed(b) == Err(InvalidMetaHeader) <==> BadSection(s))
            && (Parsed(b) == Err(NonEmptyMetadata) <==> FullSection(s))
  {
    var s := NormalizeNewlines(b);
    var shape := ShapeOf(s);
    ShapeReads(s, shape);
    if HasHeader(s) { HeaderIsRead(s); }
    if EndsBlank(s) {
      var name, body, tail :| Cut(s, name, body, tail) && Blank(tail);
      CutReads(s, name, body, tail);
    }
    if BadSection(s) { BadIsReported(s); }
    if FullSection(s) { FullIsReported(s); }
    if shape.Section? { NoBracketLine(shape.line); }
  }

  /** What Format writes for a name and one line of body. */
  lemma FormatExample()
    ensures Format(Tag(" n ", "b", "")) == Ok("n:\nb\n---\n[metadata]\n")
  {
    TrimIs(" ", "n", " ");
    assert " " + "n" + " " == " n ";
    TrimmedStays("");
    NothingToReplace("b");
    MetadataGood();
    TextExample();
    assert TrimSpace(" n ") == "n" && MetaOf("") == "metadata" && Terminated(NormalizeNewlines("b")) == "b\n";
    assert Avoids("n", {'\r', '\n', ':'});
  }

  lemma TextExample()
    ensures Text("n", "b\n", "metadata") == "n:\nb\n---\n[metadata]\n"
  {
  }
}
