/** The bytes of hash inputs and messages, as other programs that read them expect them. */







module Layouts {
  import opened Bytes
  import opened CanonicalEncoding
  import opened Codec
  import opened Wrappers
  import ExecTransaction
  import MachO
  import Merkle

  // ----- integers

  lemma BigEndianStep(v: nat, n: nat)
    requires n > 0
    ensures BigEndian(v, n) == BigEndian(v / 256, n - 1) + [v % 256]
  {
  }

  lemma Quotients(v: nat)
    ensures v / 256 / 256 == v / 0x1_0000 && v / 256 / 256 / 256 == v / 0x100_0000
  {
  }

  /** A 32-bit word has its most significant byte first. */
  lemma WordBytes(v: nat)
    requires v < U32
    ensures Word(v) == [v / 0x100_0000, v / 0x1_0000 % 256, v / 0x100 % 256, v % 256]
  {
    BigEndianStep(v, 4);
    BigEndianStep(v / 256, 3);
    BigEndianStep(v / 256 / 256, 2);
    BigEndianStep(v / 256 / 256 / 256, 1);
    Quotients(v);
  }

  /** A string stands behind its length. */
  function Str(s: Bytes): Bytes
    requires |s| < U32
  {
    [|s| / 0x100_0000, |s| / 0x1_0000 % 256, |s| / 0x100 % 256, |s| % 256] + s
  }

  lemma StrIs(s: Bytes)
    requires |s| < U32
    ensures LenPrefixed(s) == Str(s)
  {
    WordBytes(|s|);
  }

  // ----- the Merkle tree and the payloads

  /** A leaf is hashed behind a zero byte, as tool, kind, identifier and payload; a node behind a one, left before right. */
  lemma HashInputs(l: Merkle.Leaf, left: Merkle.Digest, right: Merkle.Digest)
    requires Merkle.Encodable(l)
    ensures Merkle.LeafInput(l) == [0] + (Str(l.tool) + (Str(l.kind) + (Str(l.id) + Str(l.payload))))
    ensures Merkle.NodeInput(left, right) == [1] + left + right
  {
    StrIs(l.tool);
    StrIs(l.kind);
    StrIs(l.id);
    StrIs(l.payload);
  }

  /** Of two fields the one with the lower key stands first, each key before its value. */
  lemma KVBytes(a: Bytes, x: Bytes, b: Bytes, y: Bytes)
    requires GoesBefore(a, b) && |a| < U32 && |x| < U32 && |b| < U32 && |y| < U32
    ensures EncodedKV(map[a := x, b := y]) == Str(a) + Str(x) + Str(b) + Str(y)
  {
    BeforeMeaning(a, b);
    TwoFields(a, x, b, y);
    StrIs(a);
    StrIs(x);
    StrIs(b);
    StrIs(y);
  }

  lemma TwoKeys(a: Bytes, x: Bytes, b: Bytes, y: Bytes)
    requires Before(a, b)
    ensures var fields := map[a := x, b := y];
            fields[a] == x && fields[b] == y && Listing(fields.Keys) == [a, b]
  {
    var fields := map[a := x, b := y];
    BeforeTotal(a, b);
    ListingOfPair(a, b);
    assert fields.Keys == {a, b};
  }

  lemma TwoItems(fields: map<Bytes, Bytes>, a: Bytes, b: Bytes)
    requires a in fields && b in fields
    ensures Concat(CanonicalEncoding.Items([a, b], fields)) ==
            LenPrefixed(a) + LenPrefixed(fields[a]) + LenPrefixed(b) + LenPrefixed(fields[b])
  {
    var keys := [a, b];
    FieldAppended(keys, fields, 0);
    FieldAppended(keys, fields, 1);
    assert keys[..2] == keys && keys[..0] == [];
    NoFields(fields);
    assert [] + LenPrefixed(a) + LenPrefixed(fields[a]) == LenPrefixed(a) + LenPrefixed(fields[a]);
  }

  lemma TwoFields(a: Bytes, x: Bytes, b: Bytes, y: Bytes)
    requires Before(a, b)
    ensures EncodedKV(map[a := x, b := y]) == LenPrefixed(a) + LenPrefixed(x) + LenPrefixed(b) + LenPrefixed(y)
  {
    TwoKeys(a, x, b, y);
    TwoItems(map[a := x, b := y], a, b);
  }

  lemma NoFields(fields: map<Bytes, Bytes>)
    ensures Concat(CanonicalEncoding.Items([], fields)) == []
  {
  }

  // ----- the messages

  predicate StringFits(s: Bytes) { |s| <= 65536 }

  predicate VectorFits(items: seq<Bytes>) { |items| <= 256 && forall i :: 0 <= i < |items| ==> StringFits(items[i]) }

  function Strs(items: seq<Bytes>): Bytes
    requires VectorFits(items)
  {
    if items == [] then [] else Str(items[0]) + Strs(items[1..])
  }

  /** A vector stands behind the number of its items. */
  function Vec(items: seq<Bytes>): Bytes
    requires VectorFits(items)
  {
    [0, 0, |items| / 256, |items| % 256] + Strs(items)
  }

  lemma {:induction false} StrsAre(items: seq<Bytes>)
    requires VectorFits(items)
    ensures Codec.Items(items) == Strs(items)
  {
    if items != [] {
      StrIs(items[0]);
      StrsAre(items[1..]);
    }
  }

  lemma VecIs(items: seq<Bytes>)
    requires VectorFits(items)
    ensures Encode(VVec(items)) == Vec(items)
  {
    WordBytes(|items|);
    StrsAre(items);
  }

  function Flag(yes: bool): Bytes { [if yes then 1 else 0] }

  lemma EncodeCons(v: Value, vs: seq<Value>)
    ensures EncodeAll([v] + vs) == Encode(v) + EncodeAll(vs)
  {
    assert ([v] + vs)[1..] == vs;
  }

  lemma EncodeOne(v: Value)
    ensures EncodeAll([v]) == Encode(v)
  {
    assert [v][1..] == [];
    assert Encode(v) + [] == Encode(v);
  }

  lemma EncodeFour(a: Value, b: Value, c: Value, d: Value)
    ensures EncodeAll([a, b, c, d]) == Encode(a) + (Encode(b) + (Encode(c) + Encode(d)))
  {
    assert [a, b, c, d] == [a] + ([b] + ([c] + [d]));
    EncodeCons(a, [b] + ([c] + [d]));
    EncodeCons(b, [c] + [d]);
    EncodeCons(c, [d]);
    EncodeOne(d);
  }

  lemma EncodeFive(a: Value, b: Value, c: Value, d: Value, e: Value)
    ensures EncodeAll([a, b, c, d, e]) == Encode(a) + (Encode(b) + (Encode(c) + (Encode(d) + Encode(e))))
  {
    assert [a, b, c, d, e] == [a] + [b, c, d, e];
    EncodeCons(a, [b, c, d, e]);
    EncodeFour(b, c, d, e);
  }

  lemma EncodeEight(a: Value, b: Value, c: Value, d: Value, e: Value, f: Value, g: Value, h: Value)
    ensures EncodeAll([a, b, c, d, e, f, g, h]) ==
            Encode(a) + (Encode(b) + (Encode(c) + (Encode(d) + (Encode(e) + (Encode(f) + (Encode(g) + Encode(h)))))))
  {
    assert [d, e, f, g, h] == [d] + [e, f, g, h];
    assert [a, b, c, d, e, f, g, h] == [a] + ([b] + ([c] + [d, e, f, g, h]));
    EncodeCons(a, [b] + ([c] + [d, e, f, g, h]));
    EncodeCons(b, [c] + [d, e, f, g, h]);
    EncodeCons(c, [d, e, f, g, h]);
    EncodeFive(d, e, f, g, h);
  }

  predicate RequestFits(v: ExecRequest) { StringFits(v.path) && StringFits(v.dir) && VectorFits(v.argv) && VectorFits(v.env) }

  predicate ResultFits(v: ExecResult) { StringFits(v.path) && StringFits(v.message) && VectorFits(v.argv) && VectorFits(v.env) }

  predicate OperationFits(v: Operation) {
    StringFits(v.path) && StringFits(v.dir) && StringFits(v.prompt) && VectorFits(v.args) && VectorFits(v.env)
  }

  predicate ReplyFits(v: OperationResult) { StringFits(v.data) && StringFits(v.message) }

  /** An exec request is path, directory, arguments and environment; it is refused exactly beyond the limits. */
  lemma RequestBytes(v: ExecRequest)
    ensures Encoded(RequestFields(v)) ==
            if RequestFits(v) then Some(Str(v.path) + (Str(v.dir) + (Vec(v.argv) + Vec(v.env)))) else None
  {
    var fs := RequestFields(v);
    assert AllFit(fs) <==> fs[0].Fits() && fs[1].Fits() && fs[2].Fits() && fs[3].Fits();
    if RequestFits(v) {
      EncodeFour(fs[0], fs[1], fs[2], fs[3]);
      StrIs(v.path);
      StrIs(v.dir);
      VecIs(v.argv);
      VecIs(v.env);
    }
  }

  /** An exec result is the verdict, path, arguments, environment and message. */
  lemma ResultBytes(v: ExecResult)
    ensures Encoded(ResultFields(v)) ==
            if ResultFits(v) then Some(Flag(v.allowed) + (Str(v.path) + (Vec(v.argv) + (Vec(v.env) + Str(v.message))))) else None
  {
    var fs := ResultFields(v);
    assert AllFit(fs) <==> fs[0].Fits() && fs[1].Fits() && fs[2].Fits() && fs[3].Fits() && fs[4].Fits();
    if ResultFits(v) {
      EncodeFive(fs[0], fs[1], fs[2], fs[3], fs[4]);
      StrIs(v.path);
      VecIs(v.argv);
      VecIs(v.env);
      StrIs(v.message);
    }
  }

  /** An operation is identifier, kind, path, arguments, directory, environment, prompt and whether to capture. */
  lemma OperationBytes(v: Operation)
    ensures Encoded(OperationFields(v)) ==
            if OperationFits(v) then
              Some(BigEndian(v.id, 8) + ([v.kind] + (Str(v.path) + (Vec(v.args) + (Str(v.dir) + (Vec(v.env) + (Str(v.prompt) + Flag(v.capture))))))))
            else None
  {
    var fs := OperationFields(v);
    assert AllFit(fs) <==> fs[2].Fits() && fs[3].Fits() && fs[4].Fits() && fs[5].Fits() && fs[6].Fits();
    if OperationFits(v) {
      EncodeEight(fs[0], fs[1], fs[2], fs[3], fs[4], fs[5], fs[6], fs[7]);
      StrIs(v.path);
      VecIs(v.args);
      StrIs(v.dir);
      VecIs(v.env);
      StrIs(v.prompt);
    }
  }

  lemma TwosComplement(i: i32)
    ensures Encode(VI32(i)) == Word(if i < 0 then i + U32 else i)
  {
  }

  /** The reply is identifier, success, exit code in two's complement, data and message. */
  lemma ReplyBytes(v: OperationResult)
    ensures Encoded(OperationResultFields(v)) ==
            if ReplyFits(v) then
              Some(BigEndian(v.id, 8) + (Flag(v.ok) + (Word(if v.exitCode < 0 then v.exitCode + U32 else v.exitCode) + (Str(v.data) + Str(v.message)))))
            else None
  {
    var fs := OperationResultFields(v);
    assert AllFit(fs) <==> fs[3].Fits() && fs[4].Fits();
    if ReplyFits(v) {
      EncodeFive(fs[0], fs[1], fs[2], fs[3], fs[4]);
      TwosComplement(v.exitCode);
      StrIs(v.data);
      StrIs(v.message);
    }
  }

  /** The length of a frame counts its type. */
  lemma FrameLayout(f: ExecTransaction.Frame)
    requires ExecTransaction.Sendable(f)
    ensures |f.payload| < 0x10_0000 && ExecTransaction.FrameBytes(f) == Str([f.typ] + f.payload)
  {
    StrIs([f.typ] + f.payload);
  }

  // ----- the load command

  lemma LittleEndianStep(v: nat, n: nat)
    requires n > 0
    ensures LittleEndian(v, n) == [v % 256] + LittleEndian(v / 256, n - 1)
  {
  }

  /** A word of a Mach-O file has its least significant byte first. */
  lemma Le32Bytes(v: nat)
    requires v < U32
    ensures MachO.Le32(v) == [v % 256, v / 0x100 % 256, v / 0x1_0000 % 256, v / 0x100_0000]
  {
    LittleEndianStep(v, 4);
    LittleEndianStep(v / 256, 3);
    LittleEndianStep(v / 256 / 256, 2);
    LittleEndianStep(v / 256 / 256 / 256, 1);
    Quotients(v);
  }

  /** The files that are looked at are those that begin with these four bytes. */
  lemma MagicBytes(file: Bytes)
    requires |file| >= 4
    ensures MachO.U32At(file, 0) == MachO.MAGIC <==> file[0] == 0xcf && file[1] == 0xfa && file[2] == 0xed && file[3] == 0xfe
  {
    var b := file[0..4];
    FromLittleEndianStep(b);
    FromLittleEndianStep(b[1..]);
    FromLittleEndianStep(b[1..][1..]);
    FromLittleEndianStep(b[1..][1..][1..]);
    assert b[1..][1..][1..][1..] == [];
  }

  lemma FromLittleEndianStep(b: Bytes)
    requires b != []
    ensures FromLittleEndian(b) == b[0] + 256 * FromLittleEndian(b[1..])
  {
  }
}
