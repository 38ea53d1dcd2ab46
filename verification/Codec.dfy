/**
 The bounded binary messages of sandbox/protocol/protocol.go. A message is a
 list of field values; each of the four message types fixes its list of field
 kinds, and the encoder and decoder classes handle one field at a time.
 */
module Codec {
  import opened Bytes
  import opened Sequences
  import opened Wrappers

  const MAX_STRING: nat := 0x1_0000
  const MAX_VECTOR: nat := 256

  type u64 = x: int | 0 <= x < U64
  type i32 = x: int | -0x8000_0000 <= x < 0x8000_0000

  datatype Kind = KBool | KByte | KU64 | KI32 | KBlob | KVec

  datatype Value =
    | VBool(yes: bool)
    | VByte(x: byte)
    | VU64(n: u64)
    | VI32(i: i32)
    | VBlob(data: Bytes)          // strings and byte slices
    | VVec(items: seq<Bytes>)
  {
    function Kind(): Kind {
      match this
      case VBool(_) => KBool
      case VByte(_) => KByte
      case VU64(_) => KU64
      case VI32(_) => KI32
      case VBlob(_) => KBlob
      case VVec(_) => KVec
    }

    /** Within the string and vector limits. */
    predicate Fits() {
      match this
      case VBlob(data) => |data| <= MAX_STRING
      case VVec(items) => |items| <= MAX_VECTOR && forall i :: 0 <= i < |items| ==> |items[i]| <= MAX_STRING
      case _ => true
    }
  }

  // ----- encoding

  function Items(items: seq<Bytes>): Bytes {
    if items == [] then [] else LenPrefixed(items[0]) + Items(items[1..])
  }

  function Encode(v: Value): Bytes {
    match v
    case VBool(yes) => [if yes then 1 else 0]
    case VByte(x) => [x]
    case VU64(n) => BigEndian(n, 8)
    case VI32(i) => Word(i % U32)
    case VBlob(data) => LenPrefixed(data)
    case VVec(items) => Word(|items|) + Items(items)
  }

  function EncodeAll(vs: seq<Value>): Bytes {
    if vs == [] then [] else Encode(vs[0]) + EncodeAll(vs[1..])
  }

  predicate AllFit(vs: seq<Value>) {
    forall i :: 0 <= i < |vs| ==> vs[i].Fits()
  }

  // ----- decoding: a value and the bytes after it

  datatype Parsed<T> = Bad | Got(value: T, rest: Bytes)

  function ParseWord(b: Bytes): Parsed<nat> {
    if |b| < 4 then Bad else Got(FromBigEndian(b[..4]), b[4..])
  }

  function ParseBlob(b: Bytes): Parsed<Bytes> {
    match ParseWord(b)
    case Bad => Bad
    case Got(n, rest) => if n > MAX_STRING || |rest| < n then Bad else Got(rest[..n], rest[n..])
  }

  function ParseItems(n: nat, b: Bytes): Parsed<seq<Bytes>> {
    if n == 0 then Got([], b)
    else
      match ParseBlob(b)
      case Bad => Bad
      case Got(x, rest) =>
        match ParseItems(n - 1, rest)
        case Bad => Bad
        case Got(xs, rest') => Got([x] + xs, rest')
  }

  function Signed(n: nat): i32
    requires n < U32
  {
    if n < 0x8000_0000 then n else n - U32
  }

  function Parse(k: Kind, b: Bytes): Parsed<Value> {
    match k
    case KBool => if b == [] || b[0] > 1 then Bad else Got(VBool(b[0] == 1), b[1..])
    case KByte => if b == [] then Bad else Got(VByte(b[0]), b[1..])
    case KU64 => if |b| < 8 then Bad else (WordSizes(); Got(VU64(FromBigEndian(b[..8])), b[8..]))
    case KI32 => if |b| < 4 then Bad else (WordSizes(); Got(VI32(Signed(FromBigEndian(b[..4]))), b[4..]))
    case KBlob =>
      (match ParseBlob(b)
       case Bad => Bad
       case Got(x, rest) => Got(VBlob(x), rest))
    case KVec =>
      match ParseWord(b)
      case Bad => Bad
      case Got(n, rest) =>
        if n > MAX_VECTOR then Bad
        else
          match ParseItems(n, rest)
          case Bad => Bad
          case Got(xs, rest') => Got(VVec(xs), rest')
  }

  function ParseAll(ks: seq<Kind>, b: Bytes): Parsed<seq<Value>> {
    if ks == [] then Got([], b)
    else
      match Parse(ks[0], b)
      case Bad => Bad
      case Got(v, rest) =>
        match ParseAll(ks[1..], rest)
        case Bad => Bad
        case Got(vs, rest') => Got([v] + vs, rest')
  }

  // ----- one field: decoding inverts encoding, and only encodings decode

  lemma WordThenRest(n: nat, rest: Bytes)
    requires n < U32
    ensures ParseWord(Word(n) + rest) == Got(n, rest)
  {
    WordSizes();
    assert n % U32 == n;
    BigEndianRoundTrip(n, 4);
    var w := Word(n);
    assert (w + rest)[..4] == w && (w + rest)[4..] == rest;
  }

  lemma WordFromParse(b: Bytes)
    requires |b| >= 4
    ensures FromBigEndian(b[..4]) < U32
    ensures b == Word(FromBigEndian(b[..4])) + b[4..]
  {
    WordSizes();
    var w := b[..4];
    BigEndianCanonical(w);
    assert FromBigEndian(w) % U32 == FromBigEndian(w);
    assert BigEndian(FromBigEndian(w), 4) == w;
  }

  lemma BlobThenRest(x: Bytes, rest: Bytes)
    requires |x| <= MAX_STRING
    ensures ParseBlob(LenPrefixed(x) + rest) == Got(x, rest)
  {
    assert LenPrefixed(x) + rest == Word(|x|) + (x + rest);
    WordThenRest(|x|, x + rest);
    assert (x + rest)[..|x|] == x && (x + rest)[|x|..] == rest;
  }

  lemma BlobFromParse(b: Bytes)
    requires ParseBlob(b).Got?
    ensures var Got(x, rest) := ParseBlob(b); |x| <= MAX_STRING && b == LenPrefixed(x) + rest
  {
    WordFromParse(b);
    var n, tail := FromBigEndian(b[..4]), b[4..];
    assert tail == tail[..n] + tail[n..];
  }

  lemma ItemThenItems(x: Bytes, xs: seq<Bytes>, tail: Bytes, rest: Bytes)
    requires |x| <= MAX_STRING && ParseItems(|xs|, tail) == Got(xs, rest)
    ensures ParseItems(|xs| + 1, LenPrefixed(x) + tail) == Got([x] + xs, rest)
  {
    BlobThenRest(x, tail);
  }

  predicate ItemsFit(xs: seq<Bytes>) {
    forall i :: 0 <= i < |xs| ==> |xs[i]| <= MAX_STRING
  }

  lemma ItemsFitTail(xs: seq<Bytes>)
    requires xs != [] && ItemsFit(xs)
    ensures |xs[0]| <= MAX_STRING && ItemsFit(xs[1..])
  {
  }

  lemma {:induction false} ItemsThenRest(xs: seq<Bytes>, rest: Bytes)
    requires ItemsFit(xs)
    ensures ParseItems(|xs|, Items(xs) + rest) == Got(xs, rest)
  {
    if xs == [] {
      assert Items(xs) + rest == rest;
    } else {
      var x, more := xs[0], xs[1..];
      ItemsFitTail(xs);
      ItemsThenRest(more, rest);
      ItemThenItems(x, more, Items(more) + rest, rest);
      Associative(LenPrefixed(x), Items(more), rest);
      assert xs == [x] + more;
    }
  }

  lemma {:induction false} ItemsFromParse(n: nat, b: Bytes)
    requires ParseItems(n, b).Got?
    ensures var Got(xs, rest) := ParseItems(n, b);
            |xs| == n && (forall i :: 0 <= i < n ==> |xs[i]| <= MAX_STRING) && b == Items(xs) + rest
  {
    if n > 0 {
      BlobFromParse(b);
      var Got(x, tail) := ParseBlob(b);
      ItemsFromParse(n - 1, tail);
      var Got(xs, rest) := ParseItems(n - 1, tail);
      assert ([x] + xs)[1..] == xs;
      assert LenPrefixed(x) + (Items(xs) + rest) == (LenPrefixed(x) + Items(xs)) + rest;
    }
  }

  lemma U64RoundTrip(n: u64)
    ensures FromBigEndian(BigEndian(n, 8)) == n
  {
    WordSizes();
    BigEndianRoundTrip(n, 8);
  }

  lemma FieldRoundTrip(v: Value, rest: Bytes)
    requires v.Fits()
    ensures Parse(v.Kind(), Encode(v) + rest) == Got(v, rest)
  {
    var b := Encode(v) + rest;
    match v
    case VBool(_) => assert b[1..] == rest;
    case VByte(_) => assert b[1..] == rest;
    case VU64(n) =>
      U64RoundTrip(n);
      assert b[..8] == BigEndian(n, 8) && b[8..] == rest;
    case VI32(i) => WordThenRest(i % U32, rest);
    case VBlob(x) => BlobThenRest(x, rest);
    case VVec(xs) => VecThenRest(xs, rest);
  }

  lemma VecThenRest(xs: seq<Bytes>, rest: Bytes)
    requires VVec(xs).Fits()
    ensures Parse(KVec, Encode(VVec(xs)) + rest) == Got(VVec(xs), rest)
  {
    assert Encode(VVec(xs)) + rest == Word(|xs|) + (Items(xs) + rest);
    WordThenRest(|xs|, Items(xs) + rest);
    ItemsThenRest(xs, rest);
  }

  lemma U64Canonical(b: Bytes)
    requires |b| == 8
    ensures FromBigEndian(b) < U64 && BigEndian(FromBigEndian(b), 8) == b
  {
    WordSizes();
    BigEndianCanonical(b);
  }

  /** b starts with the encoding of the field of this kind that is parsed from it. */
  predicate StartsCanonically(k: Kind, b: Bytes) {
    match Parse(k, b)
    case Bad => true
    case Got(v, rest) => v.Kind() == k && v.Fits() && b == Encode(v) + rest
  }

  lemma U64FromParse(b: Bytes)
    ensures StartsCanonically(KU64, b)
  {
    if |b| >= 8 {
      U64Canonical(b[..8]);
      assert b == b[..8] + b[8..];
    }
  }

  lemma I32FromParse(b: Bytes)
    ensures StartsCanonically(KI32, b)
  {
    if |b| >= 4 {
      WordFromParse(b);
      SignedWraps(FromBigEndian(b[..4]));
    }
  }

  lemma SignedWraps(n: nat)
    requires n < U32
    ensures Signed(n) % U32 == n
  {
  }

  lemma BlobFieldFromParse(b: Bytes)
    ensures StartsCanonically(KBlob, b)
  {
    if ParseBlob(b).Got? { BlobFromParse(b); }
  }

  lemma FieldCanonical(k: Kind, b: Bytes)
    requires Parse(k, b).Got?
    ensures var Got(v, rest) := Parse(k, b); v.Kind() == k && v.Fits() && b == Encode(v) + rest
  {
    match k
    case KBool => assert b == [b[0]] + b[1..];
    case KByte => assert b == [b[0]] + b[1..];
    case KU64 => U64FromParse(b);
    case KI32 => I32FromParse(b);
    case KBlob => BlobFieldFromParse(b);
    case KVec => VecFromParse(b);
  }

  lemma VecFromParse(b: Bytes)
    requires Parse(KVec, b).Got?
    ensures var Got(v, rest) := Parse(KVec, b); v.VVec? && v.Fits() && b == Encode(v) + rest
  {
    WordFromParse(b);
    var n, tail := FromBigEndian(b[..4]), b[4..];
    ItemsFromParse(n, tail);
    var Got(xs, rest) := ParseItems(n, tail);
    assert Word(n) + (Items(xs) + rest) == (Word(n) + Items(xs)) + rest;
  }

  // ----- whole messages

  function Kinds(vs: seq<Value>): seq<Kind> {
    if vs == [] then [] else [vs[0].Kind()] + Kinds(vs[1..])
  }

  lemma FieldThenFields(v: Value, vs: seq<Value>, tail: Bytes, rest: Bytes)
    requires v.Fits() && ParseAll(Kinds(vs), tail) == Got(vs, rest)
    ensures ParseAll([v.Kind()] + Kinds(vs), Encode(v) + tail) == Got([v] + vs, rest)
  {
    FieldRoundTrip(v, tail);
    assert ([v.Kind()] + Kinds(vs))[1..] == Kinds(vs);
  }

  lemma AllFitTail(vs: seq<Value>)
    requires vs != [] && AllFit(vs)
    ensures vs[0].Fits() && AllFit(vs[1..])
  {
  }

  lemma {:induction false} FieldsRoundTrip(vs: seq<Value>, rest: Bytes)
    requires AllFit(vs)
    ensures ParseAll(Kinds(vs), EncodeAll(vs) + rest) == Got(vs, rest)
  {
    if vs == [] {
      assert EncodeAll(vs) + rest == rest;
    } else {
      var v, more := vs[0], vs[1..];
      AllFitTail(vs);
      FieldsRoundTrip(more, rest);
      FieldThenFields(v, more, EncodeAll(more) + rest, rest);
      Associative(Encode(v), EncodeAll(more), rest);
      assert vs == [v] + more;
    }
  }

  lemma ConsFields(k: Kind, ks: seq<Kind>, v: Value, vs: seq<Value>, tail: Bytes, rest: Bytes)
    requires v.Kind() == k && v.Fits() && Kinds(vs) == ks && AllFit(vs) && tail == EncodeAll(vs) + rest
    ensures Kinds([v] + vs) == [k] + ks && AllFit([v] + vs) && Encode(v) + tail == EncodeAll([v] + vs) + rest
  {
    assert ([v] + vs)[1..] == vs;
    assert Encode(v) + (EncodeAll(vs) + rest) == (Encode(v) + EncodeAll(vs)) + rest;
  }

  lemma {:induction false} FieldsCanonical(ks: seq<Kind>, b: Bytes)
    requires ParseAll(ks, b).Got?
    ensures var Got(vs, rest) := ParseAll(ks, b); Kinds(vs) == ks && AllFit(vs) && b == EncodeAll(vs) + rest
  {
    if ks != [] {
      FieldCanonical(ks[0], b);
      var Got(v, tail) := Parse(ks[0], b);
      FieldsCanonical(ks[1..], tail);
      var Got(vs, rest) := ParseAll(ks[1..], tail);
      ConsFields(ks[0], ks[1..], v, vs, tail, rest);
      assert ks == [ks[0]] + ks[1..];
    }
  }

  /** What an Encode function returns: the bytes, or an error when a field exceeds its limit. */
  function Encoded(vs: seq<Value>): Option<Bytes> {
    if AllFit(vs) then Some(EncodeAll(vs)) else None
  }

  /** What a Decode function returns: the fields, or an error when they are malformed or bytes are left over. */
  function Decoded(ks: seq<Kind>, b: Bytes): Option<seq<Value>> {
    match ParseAll(ks, b)
    case Bad => None
    case Got(vs, rest) => if rest == [] then Some(vs) else None
  }

  lemma DecodeUndoesEncode(vs: seq<Value>)
    requires Encoded(vs).Some?
    ensures Decoded(Kinds(vs), Encoded(vs).value) == Some(vs)
  {
    FieldsRoundTrip(vs, []);
    assert EncodeAll(vs) + [] == EncodeAll(vs);
  }

  lemma EncodeUndoesDecode(ks: seq<Kind>, b: Bytes)
    requires Decoded(ks, b).Some?
    ensures Kinds(Decoded(ks, b).value) == ks && Encoded(Decoded(ks, b).value) == Some(b)
  {
    FieldsCanonical(ks, b);
    var vs := Decoded(ks, b).value;
    assert EncodeAll(vs) + [] == EncodeAll(vs);
  }

  /** No accepted encoding is a proper prefix of another. */
  lemma PrefixFree(ks: seq<Kind>, a: Bytes, b: Bytes)
    requires Decoded(ks, a).Some? && Decoded(ks, b).Some? && a <= b
    ensures a == b
  {
    FieldsCanonical(ks, a);
    var vs := ParseAll(ks, a).value;
    assert a == EncodeAll(vs) + [] == EncodeAll(vs);
    assert b == a + b[|a|..];
    FieldsRoundTrip(vs, b[|a|..]);
  }

  // ----- the four message types

  datatype ExecRequest = ExecRequest(path: Bytes, dir: Bytes, argv: seq<Bytes>, env: seq<Bytes>)
  datatype ExecResult = ExecResult(allowed: bool, path: Bytes, argv: seq<Bytes>, env: seq<Bytes>, message: Bytes)
  datatype Operation = Operation(id: u64, kind: byte, path: Bytes, args: seq<Bytes>, dir: Bytes, env: seq<Bytes>, prompt: Bytes, capture: bool)
  datatype OperationResult = OperationResult(id: u64, ok: bool, exitCode: i32, data: Bytes, message: Bytes)

  const EXEC_REQUEST := [KBlob, KBlob, KVec, KVec]
  const EXEC_RESULT := [KBool, KBlob, KVec, KVec, KBlob]
  const OPERATION := [KU64, KByte, KBlob, KVec, KBlob, KVec, KBlob, KBool]
  const OPERATION_RESULT := [KU64, KBool, KI32, KBlob, KBlob]

  function RequestFields(v: ExecRequest): seq<Value> {
    [VBlob(v.path), VBlob(v.dir), VVec(v.argv), VVec(v.env)]
  }

  function ResultFields(v: ExecResult): seq<Value> {
    [VBool(v.allowed), VBlob(v.path), VVec(v.argv), VVec(v.env), VBlob(v.message)]
  }

  function OperationFields(v: Operation): seq<Value> {
    [VU64(v.id), VByte(v.kind), VBlob(v.path), VVec(v.args), VBlob(v.dir), VVec(v.env), VBlob(v.prompt), VBool(v.capture)]
  }

  function OperationResultFields(v: OperationResult): seq<Value> {
    [VU64(v.id), VBool(v.ok), VI32(v.exitCode), VBlob(v.data), VBlob(v.message)]
  }

  lemma MessageKinds(q: ExecRequest, r: ExecResult, o: Operation, p: OperationResult)
    ensures Kinds(RequestFields(q)) == EXEC_REQUEST
    ensures Kinds(ResultFields(r)) == EXEC_RESULT
    ensures Kinds(OperationFields(o)) == OPERATION
    ensures Kinds(OperationResultFields(p)) == OPERATION_RESULT
  {
    KindsAt(RequestFields(q), EXEC_REQUEST);
    KindsAt(ResultFields(r), EXEC_RESULT);
    KindsAt(OperationFields(o), OPERATION);
    KindsAt(OperationResultFields(p), OPERATION_RESULT);
  }

  lemma {:induction false} KindsAt(vs: seq<Value>, ks: seq<Kind>)
    requires |vs| == |ks| && forall i :: 0 <= i < |vs| ==> vs[i].Kind() == ks[i]
    ensures Kinds(vs) == ks
  {
    if vs != [] {
      KindsAt(vs[1..], ks[1..]);
      assert ks == [ks[0]] + ks[1..];
    }
  }

  /** Decode undoes Encode for every message of the four types within the limits. */
  lemma MessagesRoundTrip(q: ExecRequest, r: ExecResult, o: Operation, p: OperationResult)
    ensures Encoded(RequestFields(q)).Some? ==> Decoded(EXEC_REQUEST, Encoded(RequestFields(q)).value) == Some(RequestFields(q))
    ensures Encoded(ResultFields(r)).Some? ==> Decoded(EXEC_RESULT, Encoded(ResultFields(r)).value) == Some(ResultFields(r))
    ensures Encoded(OperationFields(o)).Some? ==> Decoded(OPERATION, Encoded(OperationFields(o)).value) == Some(OperationFields(o))
    ensures Encoded(OperationResultFields(p)).Some? ==> Decoded(OPERATION_RESULT, Encoded(OperationResultFields(p)).value) == Some(OperationResultFields(p))
  {
    MessageKinds(q, r, o, p);
    if Encoded(RequestFields(q)).Some? { DecodeUndoesEncode(RequestFields(q)); }
    if Encoded(ResultFields(r)).Some? { DecodeUndoesEncode(ResultFields(r)); }
    if Encoded(OperationFields(o)).Some? { DecodeUndoesEncode(OperationFields(o)); }
    if Encoded(OperationResultFields(p)).Some? { DecodeUndoesEncode(OperationResultFields(p)); }
  }

  // ----- the encoder

  lemma {:induction false} EncodeAllSnoc(vs: seq<Value>, v: Value)
    ensures EncodeAll(vs + [v]) == EncodeAll(vs) + Encode(v)
  {
    if vs == [] {
      assert (vs + [v])[1..] == [];
    } else {
      assert (vs + [v])[1..] == vs[1..] + [v];
      EncodeAllSnoc(vs[1..], v);
    }
  }

  class Encoder {
    var b: Bytes
    var err: bool
    ghost var written: seq<Value>

    ghost predicate Valid()
      reads this
    {
      && (err <==> !AllFit(written))
      && (!err ==> b == EncodeAll(written))
    }

    constructor ()
      ensures Valid() && written == []
    {
      b, err, written := [], false, [];
    }

    /** Records a field in the ghost history. */
    ghost method Note(v: Value, was: Bytes, wasErr: bool)
      requires (wasErr <==> !AllFit(written)) && (!wasErr ==> was == EncodeAll(written))
      requires err <==> wasErr || !v.Fits()
      requires !err ==> b == was + Encode(v)
      modifies this`written
      ensures Valid() && written == old(written) + [v]
    {
      EncodeAllSnoc(written, v);
      FitSnoc(written, v);
      written := written + [v];
    }

    method Append(data: Bytes)
      modifies this`b
      ensures b == old(b) + data
    {
      b := b + data;
    }

    method U8(v: byte)
      requires Valid()
      modifies this
      ensures Valid() && written == old(written) + [VByte(v)]
    {
      ghost var was := b;
      Append([v]);
      Note(VByte(v), was, err);
    }

    method Bool(v: bool)
      requires Valid()
      modifies this
      ensures Valid() && written == old(written) + [VBool(v)]
    {
      ghost var was := b;
      if v { Append([1]); } else { Append([0]); }
      Note(VBool(v), was, err);
    }

    method U64(v: u64)
      requires Valid()
      modifies this
      ensures Valid() && written == old(written) + [VU64(v)]
    {
      ghost var was := b;
      Append(BigEndian(v, 8));
      Note(VU64(v), was, err);
    }

    method I32(v: i32)
      requires Valid()
      modifies this
      ensures Valid() && written == old(written) + [VI32(v)]
    {
      ghost var was := b;
      Append(Word(v % U32));
      Note(VI32(v), was, err);
    }

    /** Appends a length-prefixed value, or records an error when it is too long. */
    method PutBlob(v: Bytes)
      modifies this`b, this`err
      ensures err <==> old(err) || |v| > MAX_STRING
      ensures |v| <= MAX_STRING ==> b == old(b) + LenPrefixed(v)
    {
      if |v| > MAX_STRING {
        err := true;
        return;
      }
      Append(Word(|v|));
      Append(v);
    }

    method Blob(v: Bytes)
      requires Valid()
      modifies this
      ensures Valid() && written == old(written) + [VBlob(v)]
    {
      ghost var was, wasErr := b, err;
      PutBlob(v);
      Note(VBlob(v), was, wasErr);
    }

    method Vec(v: seq<Bytes>)
      requires Valid()
      modifies this
      ensures Valid() && written == old(written) + [VVec(v)]
    {
      ghost var was, wasErr := b, err;
      if |v| > MAX_VECTOR {
        err := true;
      } else {
        PutItems(v);
      }
      Note(VVec(v), was, wasErr);
    }

    method PutItems(v: seq<Bytes>)
      requires |v| <= MAX_VECTOR
      modifies this`b, this`err
      ensures err <==> old(err) || !VVec(v).Fits()
      ensures !err ==> b == old(b) + Encode(VVec(v))
    {
      ghost var was, wasErr := b, err;
      Append(Word(|v|));
      ItemsStart(was, v);
      for i := 0 to |v|
        invariant err <==> wasErr || exists j :: 0 <= j < i && |v[j]| > MAX_STRING
        invariant !err ==> b + Items(v[i..]) == was + Encode(VVec(v))
      {
        ItemsTail(b, v, i);
        PutBlob(v[i]);
      }
      ItemsTail(b, v, |v|);
    }
  }

  /** Writing item i moves it from the rest to the bytes written so far. */
  lemma ItemsTail(b: Bytes, v: seq<Bytes>, i: nat)
    requires i <= |v|
    ensures i < |v| ==> b + Items(v[i..]) == (b + LenPrefixed(v[i])) + Items(v[i + 1..])
    ensures i == |v| ==> b + Items(v[i..]) == b
  {
    if i < |v| { assert v[i..][1..] == v[i + 1..]; }
  }

  lemma ItemsStart(was: Bytes, v: seq<Bytes>)
    ensures was + Word(|v|) + Items(v[0..]) == was + Encode(VVec(v))
  {
    assert v[0..] == v;
  }

  lemma FitSnoc(vs: seq<Value>, v: Value)
    ensures AllFit(vs + [v]) <==> AllFit(vs) && v.Fits()
  {
    var all := vs + [v];
    if AllFit(all) {
      assert all[|vs|] == v;
      forall i | 0 <= i < |vs| ensures vs[i].Fits() { assert all[i] == vs[i]; }
    }
  }

  method EncodeExecRequest(v: ExecRequest) returns (r: Option<Bytes>)
    ensures r == Encoded(RequestFields(v))
  {
    var e := new Encoder();
    e.Blob(v.path);
    e.Blob(v.dir);
    e.Vec(v.argv);
    e.Vec(v.env);
    assert e.written == RequestFields(v);
    return if e.err then None else Some(e.b);
  }

  method EncodeExecResult(v: ExecResult) returns (r: Option<Bytes>)
    ensures r == Encoded(ResultFields(v))
  {
    var e := new Encoder();
    e.Bool(v.allowed);
    e.Blob(v.path);
    e.Vec(v.argv);
    e.Vec(v.env);
    e.Blob(v.message);
    assert e.written == ResultFields(v);
    return if e.err then None else Some(e.b);
  }

  /** The first fields of an operation. */
  method EncodeOperationHead(e: Encoder, v: Operation)
    requires e.Valid()
    modifies e
    ensures e.Valid()
    ensures e.written == old(e.written) + [VU64(v.id), VByte(v.kind), VBlob(v.path), VVec(v.args)]
  {
    e.U64(v.id);
    e.U8(v.kind);
    e.Blob(v.path);
    e.Vec(v.args);
  }

  method EncodeOperationTail(e: Encoder, v: Operation)
    requires e.Valid()
    modifies e
    ensures e.Valid()
    ensures e.written == old(e.written) + [VBlob(v.dir), VVec(v.env), VBlob(v.prompt), VBool(v.capture)]
  {
    e.Blob(v.dir);
    e.Vec(v.env);
    e.Blob(v.prompt);
    e.Bool(v.capture);
  }

  method EncodeOperation(v: Operation) returns (r: Option<Bytes>)
    ensures r == Encoded(OperationFields(v))
  {
    var e := new Encoder();
    EncodeOperationHead(e, v);
    EncodeOperationTail(e, v);
    EightFields(VU64(v.id), VByte(v.kind), VBlob(v.path), VVec(v.args), VBlob(v.dir), VVec(v.env), VBlob(v.prompt), VBool(v.capture));
    assert e.written == OperationFields(v);
    return if e.err then None else Some(e.b);
  }

  method EncodeOperationResult(v: OperationResult) returns (r: Option<Bytes>)
    ensures r == Encoded(OperationResultFields(v))
  {
    var e := new Encoder();
    e.U64(v.id);
    e.Bool(v.ok);
    e.I32(v.exitCode);
    e.Blob(v.data);
    e.Blob(v.message);
    assert e.written == OperationResultFields(v);
    return if e.err then None else Some(e.b);
  }

  // ----- the decoder

  /** What is known of the input b after reading fields of these kinds: the values read and the bytes left, or a failure. */
  predicate ReadSoFar(ks: seq<Kind>, b: Bytes, vs: seq<Value>, rest: Bytes, err: bool) {
    if err then ParseAll(ks, b).Bad? else ParseAll(ks, b) == Got(vs, rest)
  }

  lemma {:induction false} ReadNext(ks: seq<Kind>, b: Bytes, vs: seq<Value>, rest: Bytes, err: bool, k: Kind)
    requires ReadSoFar(ks, b, vs, rest, err)
    ensures err || Parse(k, rest).Bad? ==> ParseAll(ks + [k], b).Bad?
    ensures !err && Parse(k, rest).Got? ==> ParseAll(ks + [k], b) == Got(vs + [Parse(k, rest).value], Parse(k, rest).rest)
  {
    if ks == [] {
      assert (ks + [k])[1..] == [];
      if !err && Parse(k, rest).Got? {
        var x := Parse(k, rest).value;
        assert ParseAll((ks + [k])[1..], Parse(k, rest).rest) == Got([], Parse(k, rest).rest);
        assert vs + [x] == [x] + [];
      }
    } else {
      assert (ks + [k])[1..] == ks[1..] + [k];
      match Parse(ks[0], b)
      case Bad =>
      case Got(v, tail) =>
        match ParseAll(ks[1..], tail)
        case Bad => ReadNext(ks[1..], tail, [], [], true, k);
        case Got(vs', rest') =>
          ReadNext(ks[1..], tail, vs', rest', false, k);
          if Parse(k, rest').Got? {
            assert [v] + (vs' + [Parse(k, rest').value]) == [v] + vs' + [Parse(k, rest').value];
          }
    }
  }

  lemma {:induction false} ItemsNext(m: nat, b: Bytes)
    ensures ParseItems(m, b).Bad? ==> ParseItems(m + 1, b).Bad?
    ensures ParseItems(m, b).Got? ==>
              var Got(xs, rest) := ParseItems(m, b);
              ParseItems(m + 1, b) == match ParseBlob(rest)
                                      case Bad => Bad
                                      case Got(x, rest') => Got(xs + [x], rest')
  {
    match ParseBlob(b)
    case Bad =>
    case Got(x, tail) =>
      if m == 0 {
        assert ParseItems(0, tail) == Got([], tail);
        assert [x] + [] == [] + [x];
      } else {
        ItemsNext(m - 1, tail);
        if ParseItems(m, tail).Got? {
          var Got(xs, rest) := ParseItems(m - 1, tail);
          Associative([x], xs, [ParseBlob(rest).value]);
        }
      }
  }

  class Decoder {
    const b: Bytes
    var off: nat
    var err: bool
    ghost var kinds: seq<Kind>
    ghost var values: seq<Value>

    ghost predicate Valid()
      reads this
    {
      off <= |b| && ReadSoFar(kinds, b, values, b[off..], err)
    }

    constructor (b: Bytes)
      ensures this.b == b && Valid() && kinds == [] && values == []
    {
      this.b, off, err, kinds, values := b, 0, false, [], [];
    }

    /** The next n bytes; on failure nothing is consumed and the error sticks. */
    method Take(n: nat) returns (v: Bytes)
      requires off <= |b|
      modifies this`off, this`err
      ensures old(off) <= off <= |b|
      ensures err <==> old(err) || |b| - old(off) < n
      ensures if err then v == [] && off == old(off) else v == b[old(off)..][..n] && b[off..] == b[old(off)..][n..]
    {
      if err || |b| - off < n {
        err := true;
        return [];
      }
      v := b[off..off + n];
      off := off + n;
    }

    method TakeWord() returns (n: nat)
      requires off <= |b|
      modifies this`off, this`err
      ensures old(off) <= off <= |b| && n < U32
      ensures err <==> old(err) || ParseWord(b[old(off)..]).Bad?
      ensures if err then n == 0 else ParseWord(b[old(off)..]) == Got(n, b[off..])
    {
      var v := Take(4);
      WordSizes();
      return if |v| < 4 then 0 else FromBigEndian(v);
    }

    method TakeBlob() returns (v: Bytes)
      requires off <= |b|
      modifies this`off, this`err
      ensures off <= |b|
      ensures err <==> old(err) || ParseBlob(b[old(off)..]).Bad?
      ensures !err ==> ParseBlob(b[old(off)..]) == Got(v, b[off..])
    {
      var n := TakeWord();
      if n > MAX_STRING {
        err := true;
        return [];
      }
      v := Take(n);
    }

    /** Records a field in the ghost history. */
    ghost method Note(k: Kind, v: Value, was: Bytes, wasErr: bool)
      requires off <= |b| && ReadSoFar(kinds, b, values, was, wasErr)
      requires err <==> wasErr || Parse(k, was).Bad?
      requires !err ==> Parse(k, was) == Got(v, b[off..])
      modifies this`kinds, this`values
      ensures Valid() && kinds == old(kinds) + [k] && values == old(values) + [v]
    {
      ReadNext(kinds, b, values, was, wasErr, k);
      kinds, values := kinds + [k], values + [v];
    }

    method U8() returns (v: byte)
      requires Valid()
      modifies this
      ensures Valid() && kinds == old(kinds) + [KByte] && values == old(values) + [VByte(v)]
    {
      ghost var was, wasErr := b[off..], err;
      var t := Take(1);
      v := if |t| == 0 then 0 else t[0];
      Note(KByte, VByte(v), was, wasErr);
    }

    method Bool() returns (v: bool)
      requires Valid()
      modifies this
      ensures Valid() && kinds == old(kinds) + [KBool] && values == old(values) + [VBool(v)]
    {
      ghost var was, wasErr := b[off..], err;
      var t := Take(1);
      var x := if |t| == 0 then 0 else t[0];
      if x > 1 { err := true; }
      v := x == 1;
      Note(KBool, VBool(v), was, wasErr);
    }

    method U64() returns (v: u64)
      requires Valid()
      modifies this
      ensures Valid() && kinds == old(kinds) + [KU64] && values == old(values) + [VU64(v)]
    {
      ghost var was, wasErr := b[off..], err;
      var t := Take(8);
      WordSizes();
      v := if |t| < 8 then 0 else FromBigEndian(t);
      Note(KU64, VU64(v), was, wasErr);
    }

    method I32() returns (v: i32)
      requires Valid()
      modifies this
      ensures Valid() && kinds == old(kinds) + [KI32] && values == old(values) + [VI32(v)]
    {
      ghost var was, wasErr := b[off..], err;
      var n := TakeWord();
      v := Signed(n);
      Note(KI32, VI32(v), was, wasErr);
    }

    method Blob() returns (v: Bytes)
      requires Valid()
      modifies this
      ensures Valid() && kinds == old(kinds) + [KBlob] && values == old(values) + [VBlob(v)]
    {
      ghost var was, wasErr := b[off..], err;
      v := TakeBlob();
      Note(KBlob, VBlob(v), was, wasErr);
    }

    method TakeItems(n: nat) returns (out: seq<Bytes>)
      requires off <= |b|
      modifies this`off, this`err
      ensures off <= |b|
      ensures err <==> old(err) || ParseItems(n, b[old(off)..]).Bad?
      ensures !err ==> ParseItems(n, b[old(off)..]) == Got(out, b[off..])
    {
      ghost var was, wasErr := b[off..], err;
      out := [];
      for i := 0 to n
        invariant off <= |b|
        invariant wasErr ==> err
        invariant !wasErr ==> if err then ParseItems(i, was).Bad? else ParseItems(i, was) == Got(out, b[off..])
      {
        ItemsNext(i, was);
        var x := TakeBlob();
        out := out + [x];
      }
    }

    method Vec() returns (v: seq<Bytes>)
      requires Valid()
      modifies this
      ensures Valid() && kinds == old(kinds) + [KVec] && values == old(values) + [VVec(v)]
    {
      ghost var was, wasErr := b[off..], err;
      var n := TakeWord();
      if n > MAX_VECTOR {
        err := true;
        v := [];
      } else {
        v := TakeItems(n);
      }
      Note(KVec, VVec(v), was, wasErr);
    }

    /** No error and nothing left over. */
    method Finished() returns (ok: bool)
      requires Valid()
      ensures ok ==> Decoded(kinds, b) == Some(values)
      ensures !ok ==> Decoded(kinds, b) == None
    {
      if err { return false; }
      if off != |b| {
        assert b[off..] != [];
        return false;
      }
      return true;
    }
  }

  method DecodeTwoBlobs(d: Decoder) returns (first: Bytes, second: Bytes)
    requires d.Valid()
    modifies d
    ensures d.Valid()
    ensures d.kinds == old(d.kinds) + [KBlob, KBlob]
    ensures d.values == old(d.values) + [VBlob(first), VBlob(second)]
  {
    first := d.Blob();
    second := d.Blob();
  }

  method DecodeTwoVecs(d: Decoder) returns (first: seq<Bytes>, second: seq<Bytes>)
    requires d.Valid()
    modifies d
    ensures d.Valid()
    ensures d.kinds == old(d.kinds) + [KVec, KVec]
    ensures d.values == old(d.values) + [VVec(first), VVec(second)]
  {
    first := d.Vec();
    second := d.Vec();
  }

  method DecodeExecRequest(b: Bytes) returns (r: Option<ExecRequest>)
    ensures match r
            case None => Decoded(EXEC_REQUEST, b) == None
            case Some(v) => Decoded(EXEC_REQUEST, b) == Some(RequestFields(v))
  {
    var d := new Decoder(b);
    var path, dir := DecodeTwoBlobs(d);
    var argv, env := DecodeTwoVecs(d);
    assert d.kinds == EXEC_REQUEST && d.values == RequestFields(ExecRequest(path, dir, argv, env));
    var ok := d.Finished();
    return if ok then Some(ExecRequest(path, dir, argv, env)) else None;
  }

  lemma FiveFields<T>(a: T, b: T, c: T, d: T, e: T)
    ensures [] + [a] + [b] + [c, d] + [e] == [a, b, c, d, e]
  {
  }

  method DecodeExecResult(b: Bytes) returns (r: Option<ExecResult>)
    ensures match r
            case None => Decoded(EXEC_RESULT, b) == None
            case Some(v) => Decoded(EXEC_RESULT, b) == Some(ResultFields(v))
  {
    var d := new Decoder(b);
    var allowed := d.Bool();
    var path := d.Blob();
    var argv, env := DecodeTwoVecs(d);
    var message := d.Blob();
    FiveFields(KBool, KBlob, KVec, KVec, KBlob);
    FiveFields(VBool(allowed), VBlob(path), VVec(argv), VVec(env), VBlob(message));
    assert d.kinds == EXEC_RESULT && d.values == ResultFields(ExecResult(allowed, path, argv, env, message));
    var ok := d.Finished();
    return if ok then Some(ExecResult(allowed, path, argv, env, message)) else None;
  }

  method DecodeOperationHead(d: Decoder) returns (id: u64, kind: byte, path: Bytes, args: seq<Bytes>)
    requires d.Valid()
    modifies d
    ensures d.Valid()
    ensures d.kinds == old(d.kinds) + [KU64, KByte, KBlob, KVec]
    ensures d.values == old(d.values) + [VU64(id), VByte(kind), VBlob(path), VVec(args)]
  {
    id := d.U64();
    kind := d.U8();
    path := d.Blob();
    args := d.Vec();
  }

  method DecodeOperationTail(d: Decoder) returns (dir: Bytes, env: seq<Bytes>, prompt: Bytes, capture: bool)
    requires d.Valid()
    modifies d
    ensures d.Valid()
    ensures d.kinds == old(d.kinds) + [KBlob, KVec, KBlob, KBool]
    ensures d.values == old(d.values) + [VBlob(dir), VVec(env), VBlob(prompt), VBool(capture)]
  {
    dir := d.Blob();
    env := d.Vec();
    prompt := d.Blob();
    capture := d.Bool();
  }

  lemma EightFields<T>(a: T, b: T, c: T, d: T, e: T, f: T, g: T, h: T)
    ensures [] + [a, b, c, d] + [e, f, g, h] == [a, b, c, d, e, f, g, h]
  {
  }

  method DecodeOperation(b: Bytes) returns (r: Option<Operation>)
    ensures match r
            case None => Decoded(OPERATION, b) == None
            case Some(v) => Decoded(OPERATION, b) == Some(OperationFields(v))
  {
    var d := new Decoder(b);
    var id, kind, path, args := DecodeOperationHead(d);
    var dir, env, prompt, capture := DecodeOperationTail(d);
    EightFields(KU64, KByte, KBlob, KVec, KBlob, KVec, KBlob, KBool);
    EightFields(VU64(id), VByte(kind), VBlob(path), VVec(args), VBlob(dir), VVec(env), VBlob(prompt), VBool(capture));
    assert d.kinds == OPERATION && d.values == OperationFields(Operation(id, kind, path, args, dir, env, prompt, capture));
    var ok := d.Finished();
    return if ok then Some(Operation(id, kind, path, args, dir, env, prompt, capture)) else None;
  }

  method DecodeOutcome(d: Decoder) returns (id: u64, ok: bool, exitCode: i32)
    requires d.Valid()
    modifies d
    ensures d.Valid()
    ensures d.kinds == old(d.kinds) + [KU64, KBool, KI32]
    ensures d.values == old(d.values) + [VU64(id), VBool(ok), VI32(exitCode)]
  {
    id := d.U64();
    ok := d.Bool();
    exitCode := d.I32();
  }

  method DecodeOperationResult(b: Bytes) returns (r: Option<OperationResult>)
    ensures match r
            case None => Decoded(OPERATION_RESULT, b) == None
            case Some(v) => Decoded(OPERATION_RESULT, b) == Some(OperationResultFields(v))
  {
    var d := new Decoder(b);
    var id, ok, exitCode := DecodeOutcome(d);
    var data, message := DecodeTwoBlobs(d);
    assert d.kinds == OPERATION_RESULT && d.values == OperationResultFields(OperationResult(id, ok, exitCode, data, message));
    var complete := d.Finished();
    return if complete then Some(OperationResult(id, ok, exitCode, data, message)) else None;
  }
}
