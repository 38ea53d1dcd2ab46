/**
 The .prtag project marker of prtag/prtag.go.

 Parse reads lines: a name, a body up to the first delimiter line, and after that an
 optional metadata header. Format writes the canonical text of a tag. Positions
 stand for what the reader has consumed. Reading undoes writing exactly when no
 line of the body is a delimiter, and what has been read and written once is
 stable under reading and writing it again.
 */
module PrTag {
  import opened Wrappers

  /** An absent metadata header is the empty string. */
  datatype Tag = Tag(name: string, body: string, meta: string)

  datatype Error = InvalidHeader | InvalidDelimiter | InvalidMetaHeader | NonEmptyMetadata

  const DELIMITER := "---"
  const METADATA := "metadata"

  // ----- characters

  /** unicode.IsSpace. */
  predicate IsSpace(c: char) {
    '\t' <= c <= '\r' || c == ' ' || c == '\U{85}' || c == '\U{A0}' || c == '\U{1680}' ||
    '\U{2000}' <= c <= '\U{200A}' || c == '\U{2028}' || c == '\U{2029}' || c == '\U{202F}' ||
    c == '\U{205F}' || c == '\U{3000}'
  }

  predicate Blank(s: string) { forall i :: 0 <= i < |s| ==> IsSpace(s[i]) }

  function TrimFront(s: string): string {
    if s != "" && IsSpace(s[0]) then TrimFront(s[1..]) else s
  }

  function TrimBack(s: string): string {
    if s != "" && IsSpace(s[|s| - 1]) then TrimBack(s[..|s| - 1]) else s
  }

  function TrimSpace(s: string): string { TrimBack(TrimFront(s)) }

  predicate IsTrimmed(s: string) { s != "" ==> !IsSpace(s[0]) && !IsSpace(s[|s| - 1]) }

  predicate Avoids(s: string, chars: set<char>) { forall i :: 0 <= i < |s| ==> s[i] !in chars }

  lemma {:induction false} TrimFrontGood(s: string, chars: set<char>)
    ensures var r := TrimFront(s); (r != "" ==> !IsSpace(r[0])) && (Avoids(s, chars) ==> Avoids(r, chars))
  {
    if s != "" && IsSpace(s[0]) { TrimFrontGood(s[1..], chars); }
  }

  lemma {:induction false} TrimBackGood(s: string, chars: set<char>)
    requires s != "" ==> !IsSpace(s[0])
    ensures var r := TrimBack(s); IsTrimmed(r) && (Avoids(s, chars) ==> Avoids(r, chars))
  {
    if s != "" && IsSpace(s[|s| - 1]) { TrimBackGood(s[..|s| - 1], chars); }
  }

  lemma TrimSpaceGood(s: string, chars: set<char>)
    ensures IsTrimmed(TrimSpace(s)) && (Avoids(s, chars) ==> Avoids(TrimSpace(s), chars))
  {
    TrimFrontGood(s, chars);
    TrimBackGood(TrimFront(s), chars);
  }

  lemma TrimmedStays(s: string)
    requires IsTrimmed(s)
    ensures TrimSpace(s) == s
  {
  }

  // ----- line ends

  function ReplaceCRLF(s: string): string
    decreases |s|
  {
    if |s| < 2 then s
    else if s[0] == '\r' && s[1] == '\n' then "\n" + ReplaceCRLF(s[2..])
    else [s[0]] + ReplaceCRLF(s[1..])
  }

  function ReplaceCR(s: string): (r: string)
    ensures Avoids(r, {'\r'})
  {
    if s == "" then "" else [if s[0] == '\r' then '\n' else s[0]] + ReplaceCR(s[1..])
  }

  function NormalizeNewlines(s: string): string { ReplaceCR(ReplaceCRLF(s)) }

  lemma {:induction false} NothingToReplace(s: string)
    requires Avoids(s, {'\r'})
    ensures ReplaceCRLF(s) == s && ReplaceCR(s) == s
  {
    if s != "" {
      NothingToReplace(s[1..]);
      assert s == [s[0]] + s[1..];
    }
  }

  // ----- reading

  /** The first newline from i on, or the end of the text. */
  function Newline(s: string, i: nat): (j: nat)
    requires i <= |s|
    ensures i <= j <= |s|
    ensures j < |s| ==> s[j] == '\n'
    ensures forall k :: i <= k < j ==> s[k] != '\n'
    decreases |s| - i
  {
    if i == |s| || s[i] == '\n' then i else Newline(s, i + 1)
  }

  /** The line from i to j is the delimiter. */
  predicate IsDelimiter(s: string, i: nat, j: nat)
    requires i <= j <= |s|
  {
    j == i + 3 && s[i] == '-' && s[i + 1] == '-' && s[i + 2] == '-'
  }

  /** Where the first delimiter line from the line start i on begins. */
  function Delimiter(s: string, i: nat): (d: Option<nat>)
    requires i <= |s|
    ensures d.Some? ==> i <= d.value && d.value + 3 <= |s|
    decreases |s| - i
  {
    var j := Newline(s, i);
    if IsDelimiter(s, i, j) then Some(i)
    else if j == |s| then None
    else Delimiter(s, j + 1)
  }

  /** The first line from i on that is not blank. */
  function InkLine(s: string, i: nat): (l: Option<(nat, nat)>)
    requires i <= |s|
    ensures l.Some? ==> i <= l.value.0 <= l.value.1 <= |s|
    decreases |s| - i
  {
    var j := Newline(s, i);
    if !Blank(s[i..j]) then Some((i, j))
    else if j == |s| then None
    else InkLine(s, j + 1)
  }

  /** What follows the line that ends at j. */
  function After(s: string, j: nat): string
    requires j <= |s|
  {
    if j == |s| then "" else s[j + 1..]
  }

  predicate GoodName(name: string) { name != "" && IsTrimmed(name) && Avoids(name, {'\r', '\n', ':'}) }

  predicate GoodMeta(meta: string) { meta != "" && IsTrimmed(meta) && Avoids(meta, {'\r', '\n', '[', ']'}) }

  function NameHeader(line: string): Option<string> {
    if line == "" || line[|line| - 1] != ':' then None
    else
      var name := TrimSpace(line[..|line| - 1]);
      if name == "" || !Avoids(name, {'\r', '\n', ':'}) then None else Some(name)
  }

  function BracketHeader(text: string): Option<string> {
    var line := TrimSpace(text);
    if |line| < 2 || line[0] != '[' || line[|line| - 1] != ']' then None
    else
      var inner := TrimSpace(line[1..|line| - 1]);
      if inner == "" || !Avoids(inner, {'\r', '\n', '[', ']'}) then None else Some(inner)
  }

  /** The metadata section after the delimiter line. */
  function ParseMeta(after: string): Result<string, Error> {
    match InkLine(after, 0)
    case None => Err(InvalidDelimiter)
    case Some((i, j)) =>
      var header := BracketHeader(after[i..j]);
      if header == None then Err(InvalidMetaHeader)
      else if !Blank(After(after, j)) then Err(NonEmptyMetadata)
      else Ok(header.value)
  }

  /** What Parse returns for text with normalised line ends. */
  function ParseLines(s: string): Result<Tag, Error> {
    var j := Newline(s, 0);
    if j == |s| || NameHeader(s[..j]) == None then Err(InvalidHeader)
    else
      ParseRest(NameHeader(s[..j]).value, s[j + 1..])
  }

  /** Body and metadata. */
  function ParseRest(name: string, rest: string): Result<Tag, Error> {
    match Delimiter(rest, 0)
    case None => Ok(Tag(name, rest, ""))
    case Some(d) => WithMeta(name, rest[..d], ParseMeta(After(rest, d + 3)))
  }

  function WithMeta(name: string, body: string, meta: Result<string, Error>): Result<Tag, Error> {
    match meta
    case Err(e) => Err(e)
    case Ok(header) => Ok(Tag(name, body, header))
  }

  function Parsed(b: string): Result<Tag, Error> { ParseLines(NormalizeNewlines(b)) }

  method Parse(b: string) returns (r: Result<Tag, Error>)
    ensures r == Parsed(b)
  {
    var s := NormalizeNewlines(b);
    var first := Newline(s, 0);
    if first == |s| { return Err(InvalidHeader); }
    var name := NameHeader(s[..first]);
    if name == None { return Err(InvalidHeader); }
    var rest := s[first + 1..];
    r := ReadRest(name.value, rest);
  }

  method ReadRest(name: string, rest: string) returns (r: Result<Tag, Error>)
    ensures r == ParseRest(name, rest)
  {
    var d := FindDelimiter(rest);
    if d == None { return Ok(Tag(name, rest, "")); }
    var meta := ReadMeta(After(rest, d.value + 3));
    return WithMeta(name, rest[..d.value], meta);
  }

  method FindDelimiter(rest: string) returns (d: Option<nat>)
    ensures d == Delimiter(rest, 0)
  {
    var i: nat, j: nat := 0, Newline(rest, 0);
    while !IsDelimiter(rest, i, j) && j < |rest|
      invariant i <= j <= |rest| && j == Newline(rest, i) && Delimiter(rest, i) == Delimiter(rest, 0)
      decreases |rest| - j
    {
      i := j + 1;
      j := Newline(rest, i);
    }
    return if IsDelimiter(rest, i, j) then Some(i) else None;
  }

  method ReadMeta(after: string) returns (r: Result<string, Error>)
    ensures r == ParseMeta(after)
  {
    var i, j := 0, Newline(after, 0);
    while Blank(after[i..j]) && j < |after|
      invariant i <= j <= |after| && j == Newline(after, i) && InkLine(after, i) == InkLine(after, 0)
      decreases |after| - j
    {
      i := j + 1;
      j := Newline(after, i);
    }
    if Blank(after[i..j]) { return Err(InvalidDelimiter); }
    var header := BracketHeader(after[i..j]);
    if header == None { return Err(InvalidMetaHeader); }
    if !Blank(After(after, j)) { return Err(NonEmptyMetadata); }
    return Ok(header.value);
  }

  // ----- writing

  /** The body as it is written: on a line end. */
  function Terminated(body: string): string {
    if body != "" && body[|body| - 1] != '\n' then body + "\n" else body
  }

  function MetaOf(meta: string): string {
    if TrimSpace(meta) == "" then METADATA else TrimSpace(meta)
  }

  function Format(f: Tag): Result<string, Error> {
    var name, meta := TrimSpace(f.name), MetaOf(f.meta);
    if name == "" || !Avoids(name, {'\r', '\n', ':'}) then Err(InvalidHeader)
    else if !Avoids(meta, {'\r', '\n', '[', ']'}) then Err(InvalidMetaHeader)
    else Ok(Text(name, Terminated(NormalizeNewlines(f.body)), meta))
  }

  function Text(name: string, body: string, meta: string): string {
    name + ":\n" + (body + MetaText(meta))
  }

  function MetaText(meta: string): string { DELIMITER + "\n" + ("[" + meta + "]\n") }

  // ----- headers

  lemma NameHeaderGood(line: string)
    requires NameHeader(line).Some?
    ensures GoodName(NameHeader(line).value)
  {
    TrimSpaceGood(line[..|line| - 1], {});
  }

  lemma NameHeaderOf(name: string)
    requires GoodName(name)
    ensures NameHeader(name + ":") == Some(name)
  {
    TrimmedStays(name);
    assert (name + ":")[..|name|] == name;
  }

  lemma BracketHeaderGood(text: string)
    requires BracketHeader(text).Some?
    ensures GoodMeta(BracketHeader(text).value)
  {
    var line := TrimSpace(text);
    TrimSpaceGood(line[1..|line| - 1], {});
  }

  lemma BracketHeaderOf(meta: string)
    requires GoodMeta(meta)
    ensures BracketHeader("[" + meta + "]") == Some(meta)
  {
    var line := "[" + meta + "]";
    TrimmedStays(line);
    TrimmedStays(meta);
    assert line[1..|line| - 1] == meta;
  }

  // ----- delimiters

  lemma {:induction false} NewlineIn(s: string, t: string, i: nat)
    requires i <= |s| && Newline(s, i) < |s|
    ensures Newline(s + t, i) == Newline(s, i)
    decreases |s| - i
  {
    if s[i] != '\n' { NewlineIn(s, t, i + 1); }
  }

  lemma {:induction false} NewlineAt(s: string, i: nat, j: nat)
    requires i <= j <= |s| && (j < |s| ==> s[j] == '\n')
    requires forall k :: i <= k < j ==> s[k] != '\n'
    ensures Newline(s, i) == j
    decreases j - i
  {
    if i < j { NewlineAt(s, i + 1, j); }
  }

  /** The text ends at a line end. */
  predicate Complete(s: string) { s == "" || s[|s| - 1] == '\n' }

  /** The text begins with a delimiter line. */
  predicate AtDelimiter(s: string) {
    |s| >= 3 && s[0] == '-' && s[1] == '-' && s[2] == '-' && (|s| > 3 ==> s[3] == '\n')
  }

  lemma DelimiterNext(body: string, tail: string)
    requires AtDelimiter(tail)
    ensures Delimiter(body + tail, |body|) == Some(|body|)
  {
    var s := body + tail;
    NewlineAt(s, |body|, |body| + 3);
  }

  /** A delimiter after complete lines is found, unless there is one among them. */
  lemma {:induction false} DelimiterAppend(body: string, tail: string, i: nat)
    requires i <= |body| && Complete(body) && AtDelimiter(tail)
    ensures Delimiter(body + tail, i) == if Delimiter(body, i) == None then Some(|body|) else Delimiter(body, i)
    decreases |body| - i
  {
    if i == |body| {
      DelimiterNext(body, tail);
    } else {
      var j := Newline(body, i);
      assert j < |body| by { assert body[|body| - 1] == '\n'; }
      NewlineIn(body, tail, i);
      if !IsDelimiter(body, i, j) { DelimiterAppend(body, tail, j + 1); }
    }
  }

  /** A missing line end at the very end hides no delimiter. */
  lemma {:induction false} DelimiterTerminated(s: string, i: nat)
    requires i <= |s| && Delimiter(s, i) == None
    ensures Delimiter(s + "\n", i) == None
    decreases |s| - i
  {
    var j, t := Newline(s, i), s + "\n";
    NewlineAt(t, i, j);
    if j < |s| {
      DelimiterTerminated(s, j + 1);
    } else {
      NewlineAt(t, |t|, |t|);
    }
  }

  lemma {:induction false} DelimiterStart(s: string, i: nat)
    requires i <= |s| && Delimiter(s, i).Some? && (i > 0 ==> s[i - 1] == '\n')
    ensures var d := Delimiter(s, i).value;
            && IsDelimiter(s, d, d + 3)
            && (d + 3 < |s| ==> s[d + 3] == '\n')
            && (d > 0 ==> s[d - 1] == '\n')
    decreases |s| - i
  {
    var j := Newline(s, i);
    if !IsDelimiter(s, i, j) { DelimiterStart(s, j + 1); }
  }

  lemma NoneBefore(body: string, tail: string)
    requires Complete(body) && AtDelimiter(tail) && Delimiter(body + tail, 0) == Some(|body|)
    ensures Delimiter(body, 0) == None
  {
    DelimiterAppend(body, tail, 0);
  }

  /** What is before the first delimiter line is complete and has no delimiter line. */
  lemma BeforeDelimiter(s: string, d: nat)
    requires Delimiter(s, 0) == Some(d)
    ensures d <= |s| && Complete(s[..d]) && Delimiter(s[..d], 0) == None
  {
    DelimiterStart(s, 0);
    var body, tail := s[..d], s[d..];
    assert s == body + tail;
    NoneBefore(body, tail);
  }

  // ----- parse and format

  lemma AvoidsSum(s: string, t: string, chars: set<char>)
    requires Avoids(s, chars) && Avoids(t, chars)
    ensures Avoids(s + t, chars)
  {
  }

  lemma NoReturns(name: string, body: string, meta: string)
    requires GoodName(name) && GoodMeta(meta) && Avoids(body, {'\r'})
    ensures NormalizeNewlines(Text(name, body, meta)) == Text(name, body, meta)
  {
    AvoidsSum(name, ":\n", {'\r'});
    AvoidsSum("[" + meta, "]\n", {'\r'});
    AvoidsSum(DELIMITER + "\n", "[" + meta + "]\n", {'\r'});
    AvoidsSum(body, MetaText(meta), {'\r'});
    AvoidsSum(name + ":\n", body + MetaText(meta), {'\r'});
    NothingToReplace(Text(name, body, meta));
  }

  /** The metadata section that Format writes. */
  lemma MetaRead(meta: string)
    requires GoodMeta(meta)
    ensures ParseMeta("[" + meta + "]\n") == Ok(meta)
  {
    var s := "[" + meta + "]\n";
    NewlineAt(s, 0, |meta| + 2);
    assert s[0..|meta| + 2] == "[" + meta + "]";
    assert !Blank("[" + meta + "]") by { assert ("[" + meta + "]")[0] == '['; }
    BracketHeaderOf(meta);
    assert s[|meta| + 3..] == "";
  }

  /** The first line that Format writes. */
  lemma NameRead(name: string, rest: string)
    requires GoodName(name)
    ensures ParseLines(name + ":\n" + rest) == ParseRest(name, rest)
  {
    var s := name + ":\n" + rest;
    NewlineAt(s, 0, |name| + 1);
    assert s[..|name| + 1] == name + ":";
    assert s[|name| + 2..] == rest;
    NameHeaderOf(name);
  }

  lemma CutRest(body: string, meta: string)
    ensures var rest := body + MetaText(meta);
            rest[..|body|] == body && After(rest, |body| + 3) == "[" + meta + "]\n"
  {
    var rest := body + MetaText(meta);
    assert rest[|body| + 4..] == "[" + meta + "]\n";
  }

  /** A body, its first delimiter line and a metadata section. */
  lemma ParseRestAt(name: string, rest: string, body: string, after: string, meta: string)
    requires Delimiter(rest, 0) == Some(|body|) && rest[..|body|] == body
    requires After(rest, |body| + 3) == after && ParseMeta(after) == Ok(meta)
    ensures ParseRest(name, rest) == Ok(Tag(name, body, meta))
  {
  }

  lemma MetaDelimits(body: string, meta: string)
    requires Complete(body)
    ensures Delimiter(body + MetaText(meta), 0) == if Delimiter(body, 0) == None then Some(|body|) else Delimiter(body, 0)
  {
    DelimiterAppend(body, MetaText(meta), 0);
  }

  /** The body and metadata that Format writes, when no line of the body is a delimiter. */
  lemma RestRead(name: string, body: string, meta: string)
    requires GoodMeta(meta) && Complete(body) && Delimiter(body, 0) == None
    ensures ParseRest(name, body + MetaText(meta)) == Ok(Tag(name, body, meta))
  {
    MetaDelimits(body, meta);
    CutRest(body, meta);
    MetaRead(meta);
    ParseRestAt(name, body + MetaText(meta), body, "[" + meta + "]\n", meta);
  }

  /** Otherwise the body is cut short, if anything is read at all. */
  lemma RestCut(name: string, body: string, meta: string)
    requires Complete(body) && Delimiter(body, 0) != None
    ensures ParseRest(name, body + MetaText(meta)) != Ok(Tag(name, body, meta))
  {
    MetaDelimits(body, meta);
    ShorterBody(name, body + MetaText(meta), |body|);
  }

  lemma ShorterBody(name: string, rest: string, n: nat)
    requires Delimiter(rest, 0).Some? && Delimiter(rest, 0).value < n
    ensures ParseRest(name, rest).Ok? ==> |ParseRest(name, rest).value.body| < n
  {
  }

  lemma TextLines(name: string, body: string, meta: string)
    requires GoodName(name) && GoodMeta(meta) && Avoids(body, {'\r'})
    ensures Parsed(Text(name, body, meta)) == ParseRest(name, body + MetaText(meta))
  {
    NoReturns(name, body, meta);
    NameRead(name, body + MetaText(meta));
  }

  /** What is written is read back exactly when no line of the body is a delimiter. */
  lemma TextRead(name: string, body: string, meta: string)
    requires GoodName(name) && GoodMeta(meta) && Avoids(body, {'\r'}) && Complete(body)
    ensures Parsed(Text(name, body, meta)) == Ok(Tag(name, body, meta)) <==> Delimiter(body, 0) == None
  {
    TextLines(name, body, meta);
    if Delimiter(body, 0) == None { RestRead(name, body, meta); } else { RestCut(name, body, meta); }
  }

  lemma MetadataGood()
    ensures GoodMeta(METADATA)
  {
    var s := METADATA;
    assert |s| == 8 && s[0] == 'm' && s[1] == 'e' && s[2] == 't' && s[3] == 'a' && s[4] == 'd' && s[5] == 'a' &&
           s[6] == 't' && s[7] == 'a';
  }

  /** The tag as Format writes it. */
  function Canonical(f: Tag): Tag {
    Tag(TrimSpace(f.name), Terminated(NormalizeNewlines(f.body)), MetaOf(f.meta))
  }

  lemma FormatGood(f: Tag)
    requires Format(f).Ok?
    ensures var c := Canonical(f);
            && GoodName(c.name) && GoodMeta(c.meta) && Avoids(c.body, {'\r'}) && Complete(c.body)
            && Format(f) == Ok(Text(c.name, c.body, c.meta))
  {
    TrimSpaceGood(f.name, {});
    TrimSpaceGood(f.meta, {});
    MetadataGood();
  }

  lemma CanonicalStays(c: Tag)
    requires GoodName(c.name) && GoodMeta(c.meta) && Avoids(c.body, {'\r'}) && Complete(c.body)
    ensures Canonical(c) == c && Format(c) == Ok(Text(c.name, c.body, c.meta))
  {
    TrimmedStays(c.name);
    TrimmedStays(c.meta);
    NothingToReplace(c.body);
  }

  /**
   Whatever tag is formatted, its canonical form is formatted to the same text, and
   parsing that text gives the canonical form back if and only if no line of the body
   is a delimiter.
   */
  lemma FormatThenParse(f: Tag)
    requires Format(f).Ok?
    ensures Format(Canonical(f)) == Format(f)
    ensures Parsed(Format(f).value) == Ok(Canonical(f)) <==>
            Delimiter(Terminated(NormalizeNewlines(f.body)), 0) == None
  {
    var c := Canonical(f);
    FormatGood(f);
    CanonicalStays(c);
    TextRead(c.name, c.body, c.meta);
  }

  /** A body that no delimiter line cuts short. */
  predicate GoodBody(body: string) {
    Avoids(body, {'\r'}) && Delimiter(Terminated(body), 0) == None
  }

  lemma BodyBeforeDelimiter(rest: string, d: nat)
    requires Delimiter(rest, 0) == Some(d) && Avoids(rest, {'\r'})
    ensures GoodBody(rest[..d])
  {
    BeforeDelimiter(rest, d);
    assert Terminated(rest[..d]) == rest[..d];
  }

  lemma BodyWithoutDelimiter(rest: string)
    requires Delimiter(rest, 0) == None && Avoids(rest, {'\r'})
    ensures GoodBody(rest)
  {
    if Terminated(rest) != rest { DelimiterTerminated(rest, 0); }
  }

  predicate GoodTag(f: Tag, name: string) {
    f.name == name && (f.meta == "" || GoodMeta(f.meta)) && GoodBody(f.body)
  }

  lemma CutRestGood(name: string, rest: string, d: nat)
    requires ParseRest(name, rest).Ok? && Avoids(rest, {'\r'}) && Delimiter(rest, 0) == Some(d)
    ensures GoodTag(ParseRest(name, rest).value, name)
  {
    BodyBeforeDelimiter(rest, d);
    MetaGood(After(rest, d + 3));
  }

  /** What Parse accepts is a tag that Format accepts, with no delimiter line in its body. */
  lemma RestGood(name: string, rest: string)
    requires ParseRest(name, rest).Ok? && Avoids(rest, {'\r'})
    ensures GoodTag(ParseRest(name, rest).value, name)
  {
    match Delimiter(rest, 0)
    case None => BodyWithoutDelimiter(rest);
    case Some(d) => CutRestGood(name, rest, d);
  }

  lemma MetaGood(after: string)
    ensures ParseMeta(after).Ok? ==> GoodMeta(ParseMeta(after).value)
  {
    if ParseMeta(after).Ok? {
      var l := InkLine(after, 0).value;
      BracketHeaderGood(after[l.0..l.1]);
    }
  }

  lemma AvoidsTail(s: string, n: nat, chars: set<char>)
    requires n <= |s| && Avoids(s, chars)
    ensures Avoids(s[n..], chars)
  {
  }

  lemma ParsedGood(b: string)
    requires Parsed(b).Ok?
    ensures var f := Parsed(b).value; GoodName(f.name) && GoodTag(f, f.name)
  {
    var s := NormalizeNewlines(b);
    var j := Newline(s, 0);
    var header, rest := s[..j], s[j + 1..];
    NameHeaderGood(header);
    AvoidsTail(s, j + 1, {'\r'});
    RestGood(NameHeader(header).value, rest);
  }

  /**
   Parser and printer agree: whatever is parsed can be formatted, and parsing the result
   gives the same name, the same body up to one final newline and the same metadata header
   or the default; formatting once more gives identical text.
   */
  lemma ParseThenFormat(b: string)
    requires Parsed(b).Ok?
    ensures var f := Parsed(b).value;
            var g := Tag(f.name, Terminated(f.body), if f.meta == "" then METADATA else f.meta);
            Format(f).Ok? && Parsed(Format(f).value) == Ok(g) && Format(g) == Format(f)
  {
    var f := Parsed(b).value;
    ParsedGood(b);
    TrimmedStays(f.name);
    TrimmedStays(f.meta);
    NothingToReplace(f.body);
    MetadataGood();
    FormatThenParse(f);
  }
}
