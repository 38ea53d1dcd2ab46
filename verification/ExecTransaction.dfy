/**
 Frames on a connection (sandbox/protocol/protocol.go) and one exec transaction
 of the daemon (sandbox/daemon/main.go). The guest's bytes, the point where the
 connection breaks and the guest operations the policy asks for are arbitrary.
 */
module ExecTransaction {
  import opened Bytes
  import opened Codec
  import opened Wrappers

  const MAX_FRAME: nat := 0x10_0000
  const MAGIC: Bytes := [83, 66, 88, 49]  // "SBX1"

  const TYPE_EXEC_REQUEST: byte := 1
  const TYPE_EXEC_RESULT: byte := 2
  const TYPE_OP_REQUEST: byte := 3
  const TYPE_OP_RESULT: byte := 4

  datatype Frame = Frame(typ: byte, payload: Bytes)

  predicate Sendable(f: Frame) { |f.payload| + 1 <= MAX_FRAME }

  function FrameBytes(f: Frame): (b: Bytes)
    ensures |b| >= 5
  {
    Word(|f.payload| + 1) + ([f.typ] + f.payload)
  }

  /** What ReadFrame makes of the unread bytes: a frame or an error, and what is left. */
  datatype Reading = Reading(frame: Option<Frame>, rest: Bytes)

  function NextFrame(input: Bytes): Reading {
    match ParseWord(input)
    case Bad => Reading(None, [])
    case Got(n, rest) =>
      if n == 0 || n > MAX_FRAME then Reading(None, rest)
      else if |rest| < n then Reading(None, [])
      else Reading(Some(Frame(rest[0], rest[1..n])), rest[n..])
  }

  /** Reading undoes writing. */
  lemma FrameRoundTrip(f: Frame, rest: Bytes)
    requires Sendable(f)
    ensures NextFrame(FrameBytes(f) + rest) == Reading(Some(f), rest)
  {
    var body := [f.typ] + f.payload;
    assert FrameBytes(f) + rest == Word(|body|) + (body + rest);
    WordThenRest(|body|, body + rest);
    assert (body + rest)[1..|body|] == f.payload && (body + rest)[|body|..] == rest;
  }

  /** A frame is read from exactly the bytes that are a frame and something after it. */
  lemma FrameIff(input: Bytes, f: Frame, rest: Bytes)
    ensures NextFrame(input) == Reading(Some(f), rest) <==> Sendable(f) && input == FrameBytes(f) + rest
  {
    if NextFrame(input) == Reading(Some(f), rest) {
      var n, body := FromBigEndian(input[..4]), input[4..];
      WordFromParse(input);
      assert body == ([f.typ] + f.payload) + rest by { assert body[..n] == [body[0]] + body[1..n]; assert body == body[..n] + body[n..]; }
      assert input == Word(n) + body;
    }
    if Sendable(f) && input == FrameBytes(f) + rest { FrameRoundTrip(f, rest); }
  }

  function AllBytes(fs: seq<Frame>): Bytes {
    if fs == [] then [] else FrameBytes(fs[0]) + AllBytes(fs[1..])
  }

  /** A stream of frames has one reading only. */
  lemma {:induction false} StreamUnique(fs: seq<Frame>, gs: seq<Frame>)
    requires (forall f :: f in fs ==> Sendable(f)) && (forall g :: g in gs ==> Sendable(g))
    requires AllBytes(fs) == AllBytes(gs)
    ensures fs == gs
  {
    if fs != [] && gs != [] {
      FrameRoundTrip(fs[0], AllBytes(fs[1..]));
      FrameRoundTrip(gs[0], AllBytes(gs[1..]));
      StreamUnique(fs[1..], gs[1..]);
      assert fs == [fs[0]] + fs[1..] && gs == [gs[0]] + gs[1..];
    }
  }

  lemma {:induction false} AllBytesSnoc(fs: seq<Frame>, f: Frame)
    ensures AllBytes(fs + [f]) == AllBytes(fs) + FrameBytes(f)
  {
    if fs == [] {
      assert (fs + [f])[1..] == [];
    } else {
      assert (fs + [f])[1..] == fs[1..] + [f];
      AllBytesSnoc(fs[1..], f);
    }
  }

  // ----- the connection

  datatype Action = Out(frame: Frame) | In(frame: Frame) | InFailed

  function Sent(wire: seq<Action>): seq<Frame> {
    if wire == [] then []
    else
      var front, last := Sent(wire[..|wire| - 1]), wire[|wire| - 1];
      if last.Out? then front + [last.frame] else front
  }

  lemma SentSnoc(wire: seq<Action>, f: Frame)
    ensures Sent(wire + [Out(f)]) == Sent(wire) + [f]
  {
    assert (wire + [Out(f)])[..|wire|] == wire;
  }

  lemma SentUnchanged(wire: seq<Action>, a: Action)
    requires !a.Out?
    ensures Sent(wire + [a]) == Sent(wire)
  {
    assert (wire + [a])[..|wire|] == wire;
  }

  /** What is left of the input after the reads on the wire; none when these are not its frames in order. */
  function Unread(input: Bytes, wire: seq<Action>): Option<Bytes> {
    if wire == [] then Some(input)
    else
      var front, last := Unread(input, wire[..|wire| - 1]), wire[|wire| - 1];
      if last.Out? || front == None then front
      else
        var next := NextFrame(front.value);
        if next.frame == (if last.In? then Some(last.frame) else None) then Some(next.rest) else None
  }

  lemma UnreadSnoc(input: Bytes, wire: seq<Action>, a: Action)
    requires Unread(input, wire).Some?
    ensures a.Out? ==> Unread(input, wire + [a]) == Unread(input, wire)
    ensures !a.Out? && NextFrame(Unread(input, wire).value).frame == (if a.In? then Some(a.frame) else None) ==>
              Unread(input, wire + [a]) == Some(NextFrame(Unread(input, wire).value).rest)
  {
    assert (wire + [a])[..|wire|] == wire;
  }

  lemma Assemble(p: Bytes, a: Bytes, w: Bytes, t: Bytes, d: Bytes)
    ensures p + a + [] + w + t + d == p + (a + (w + (t + d))) + []
  {
  }

  class Connection {
    const given: Bytes         // what the guest sends
    var input: Bytes           // the part of it that is unread
    var output: Bytes          // what has been written
    var budget: nat            // the connection breaks after this many more bytes
    ghost var wire: seq<Action>
    ghost var prologue: Bytes  // written before the first frame
    ghost var torn: Bytes      // part of a frame that broke off
    ghost var broken: bool     // a write has failed

    /** The bytes written are the frames sent, in order, and perhaps a torn one on a broken connection; what was read are the first frames of the input. */
    ghost predicate Valid()
      reads this
    {
      && output == prologue + AllBytes(Sent(wire)) + torn
      && (torn != [] ==> broken)
      && (broken ==> budget == 0)
      && Unread(given, wire) == Some(input)
      && forall f :: f in Sent(wire) ==> Sendable(f)
    }

    constructor (input: Bytes, budget: nat)
      ensures Valid() && given == input && this.budget == budget
      ensures wire == [] && output == [] && !broken
    {
      given, this.input, this.budget, output := input, input, budget, [];
      wire, prologue, torn, broken := [], [], [], false;
    }

    method Write(data: Bytes) returns (ok: bool)
      modifies this`output, this`budget, this`broken
      ensures ok <==> |data| <= old(budget)
      ensures broken == (old(broken) || !ok)
      ensures budget == if ok then old(budget) - |data| else 0
      ensures output == old(output) + if ok then data else data[..old(budget)]
    {
      ok := |data| <= budget;
      var n := if ok then |data| else budget;
      output := output + data[..n];
      budget := budget - n;
      broken := broken || !ok;
    }

    method WriteMagic() returns (ok: bool)
      requires Valid() && wire == [] && torn == []
      modifies this`output, this`budget, this`prologue, this`broken
      ensures Valid() && (ok || broken)
      ensures ok ==> prologue == old(prologue) + MAGIC
    {
      ok := Write(MAGIC);
      prologue := output;
    }

    method WriteFrame(typ: byte, payload: Bytes) returns (ok: bool)
      requires Valid()
      modifies this`output, this`budget, this`wire, this`torn, this`broken
      ensures Valid()
      ensures broken == (old(broken) || (!ok && Sendable(Frame(typ, payload))))
      ensures wire == old(wire) + if ok then [Out(Frame(typ, payload))] else []
      ensures ok <==> Sendable(Frame(typ, payload)) && |FrameBytes(Frame(typ, payload))| <= old(budget)
    {
      if |payload| + 1 > MAX_FRAME {
        return false;
      }
      ghost var f := Frame(typ, payload);
      ghost var start := output;
      ok := Write(Word(|payload| + 1));
      if ok { ok := Write([typ]); }
      if ok { ok := Write(payload); }
      if ok {
        Complete(f, start);
      } else {
        BreakOff(start);
      }
    }

    /** A frame has broken off somewhere. */
    ghost method BreakOff(start: Bytes)
      requires start == prologue + AllBytes(Sent(wire)) + torn
      requires start <= output && broken && budget == 0
      requires Unread(given, wire) == Some(input) && forall g :: g in Sent(wire) ==> Sendable(g)
      modifies this`torn
      ensures Valid()
    {
      ghost var base := prologue + AllBytes(Sent(wire));
      assert base == start[..|base|] == output[..|base|];
      torn := output[|base|..];
      assert output == base + torn;
    }

    /** A frame has gone out whole. */
    ghost method Complete(f: Frame, start: Bytes)
      requires start == prologue + AllBytes(Sent(wire)) + torn && torn == [] && !broken
      requires output == start + Word(|f.payload| + 1) + [f.typ] + f.payload
      requires Sendable(f) && Unread(given, wire) == Some(input) && forall g :: g in Sent(wire) ==> Sendable(g)
      modifies this`wire
      ensures Valid() && wire == old(wire) + [Out(f)]
    {
      SentSnoc(wire, f);
      UnreadSnoc(given, wire, Out(f));
      AllBytesSnoc(Sent(wire), f);
      Assemble(prologue, AllBytes(Sent(wire)), Word(|f.payload| + 1), [f.typ], f.payload);
      wire := wire + [Out(f)];
    }

    method ReadFrame() returns (f: Option<Frame>)
      requires Valid()
      modifies this`input, this`wire
      ensures Valid()
      ensures Reading(f, input) == NextFrame(old(input))
      ensures wire == old(wire) + [if f.Some? then In(f.value) else InFailed]
    {
      if |input| < 4 {
        input := [];
        f := None;
      } else {
        var n := FromBigEndian(input[..4]);
        input := input[4..];
        if n == 0 || n > MAX_FRAME {
          f := None;
        } else if |input| < n {
          input := [];
          f := None;
        } else {
          f := Some(Frame(input[0], input[1..n]));
          input := input[n..];
        }
      }
      ghost var a := if f.Some? then In(f.value) else InFailed;
      SentUnchanged(wire, a);
      UnreadSnoc(given, wire, a);
      wire := wire + [a];
    }
  }

  // ----- guest operations

  /** The request for this operation, with its ID, on the wire. */
  ghost predicate IsRequest(a: Action, op: Operation) {
    && a.Out? && a.frame.typ == TYPE_OP_REQUEST
    && Decoded(OPERATION, a.frame.payload) == Some(OperationFields(op))
  }

  lemma EncodedIsRequest(op: Operation, payload: Bytes)
    requires Encoded(OperationFields(op)) == Some(payload)
    ensures IsRequest(Out(Frame(TYPE_OP_REQUEST, payload)), op)
  {
    KindsAt(OperationFields(op), OPERATION);
    DecodeUndoesEncode(OperationFields(op));
  }

  /** A request determines the operation that was asked for. */
  lemma RequestDetermines(a: Action, op: Operation, op': Operation)
    requires IsRequest(a, op) && IsRequest(a, op')
    ensures op == op'
  {
    assert forall i :: 0 <= i < 8 ==> OperationFields(op)[i] == OperationFields(op')[i];
    assert OperationFields(op)[0] == VU64(op.id) && OperationFields(op)[1] == VByte(op.kind);
  }

  /** The reply that the daemon accepts for the request with this ID. */
  predicate Accepts(a: Action, id: nat, v: OperationResult) {
    && a.In? && a.frame.typ == TYPE_OP_RESULT
    && Decoded(OPERATION_RESULT, a.frame.payload) == Some(OperationResultFields(v))
    && v.id == id && v.ok
  }

  /** A uint64 counter wraps. */
  function NextID(id: u64): u64 {
    if id == U64 - 1 then 0 else id + 1
  }

  /** The request for this operation can be encoded and framed, whatever its ID. */
  predicate Fits(op: Operation) {
    AllFit(OperationFields(op)) && |EncodeAll(OperationFields(op))| + 1 <= MAX_FRAME
  }

  function Rest(op: Operation): seq<Value> { OperationFields(op)[1..] }

  lemma FitsRest(op: Operation)
    ensures Fits(op) <==> AllFit(Rest(op)) && 8 + |EncodeAll(Rest(op))| + 1 <= MAX_FRAME
  {
  }

  lemma FitsAnyId(op: Operation, id: u64)
    ensures Fits(op.(id := id)) <==> Fits(op)
  {
    FitsRest(op);
    FitsRest(op.(id := id));
    assert Rest(op.(id := id)) == Rest(op);
  }

  class GuestOperations {
    const conn: Connection
    var nextID: u64

    constructor (conn: Connection)
      ensures this.conn == conn && nextID == 0
    {
      this.conn, nextID := conn, 0;
    }

    /** One guest operation: one request frame and one reply, or nothing on the wire. */
    method Operate(cancelled: bool, op: Operation) returns (r: Option<OperationResult>)
      requires conn.Valid()
      modifies this, conn`input, conn`output, conn`budget, conn`wire, conn`torn, conn`broken
      ensures conn.Valid() && (old(conn.broken) ==> conn.broken)
      ensures nextID == if cancelled then old(nextID) else NextID(old(nextID))
      ensures conn.wire != old(conn.wire) <==> !cancelled && Fits(op) && !conn.broken
      ensures conn.wire == old(conn.wire) ||
              (|conn.wire| == |old(conn.wire)| + 2 && old(conn.wire) <= conn.wire
               && IsRequest(conn.wire[|conn.wire| - 2], op.(id := nextID)) && !conn.wire[|conn.wire| - 1].Out?)
      ensures r.Some? ==> conn.wire != old(conn.wire) && Accepts(conn.wire[|conn.wire| - 1], nextID, r.value)
      ensures r.Some? ==> r.value.id == nextID && r.value.ok && conn.wire[|conn.wire| - 1].In?
      ensures forall v :: conn.wire != old(conn.wire) && Accepts(conn.wire[|conn.wire| - 1], nextID, v) ==> r == Some(v)
    {
      if cancelled { return None; }
      nextID := NextID(nextID);
      var request := op.(id := nextID);
      FitsAnyId(op, nextID);
      var payload := EncodeOperation(request);
      if payload.None? { return None; }
      var sent := conn.WriteFrame(TYPE_OP_REQUEST, payload.value);
      if !sent { return None; }
      EncodedIsRequest(request, payload.value);
      r := Reply();
    }

    /** Read one frame; it is the result if it is a reply that answers the last request. */
    method Reply() returns (r: Option<OperationResult>)
      requires conn.Valid()
      modifies conn`input, conn`wire
      ensures conn.Valid()
      ensures |conn.wire| == |old(conn.wire)| + 1 && old(conn.wire) <= conn.wire
      ensures !conn.wire[|conn.wire| - 1].Out?
      ensures forall v :: Accepts(conn.wire[|conn.wire| - 1], nextID, v) <==> r == Some(v)
    {
      var frame := conn.ReadFrame();
      if frame.None? || frame.value.typ != TYPE_OP_RESULT { return None; }
      var result := DecodeOperationResult(frame.value.payload);
      if result.None? { return None; }
      if result.value.id != nextID || !result.value.ok { return None; }
      return result;
    }
  }

  // ----- one transaction

  /** These requests, with increasing IDs above last, each followed by its one reply or a failure to read it. */
  ghost predicate Exchanges(w: seq<Action>, requests: seq<Operation>, last: nat) {
    if requests == [] then w == []
    else |w| >= 2 && IsRequest(w[0], requests[0]) && !w[1].Out? && requests[0].id > last && Exchanges(w[2..], requests[1..], requests[0].id)
  }

  /** What has happened on the wire since start. */
  ghost predicate Since(wire: seq<Action>, start: seq<Action>, requests: seq<Operation>) {
    start <= wire && Exchanges(wire[|start|..], requests, 0)
  }

  function LastOf(requests: seq<Operation>, last: nat): nat {
    if requests == [] then last else requests[|requests| - 1].id
  }

  lemma {:induction false} ExchangesSnoc(w: seq<Action>, requests: seq<Operation>, last: nat, a: Action, b: Action, op: Operation)
    requires Exchanges(w, requests, last) && IsRequest(a, op) && !b.Out? && op.id > LastOf(requests, last)
    ensures Exchanges(w + [a, b], requests + [op], last)
  {
    var w', requests' := w + [a, b], requests + [op];
    if requests == [] {
      assert w' == [a, b] && w'[2..] == [] && requests'[1..] == [];
    } else {
      assert w'[2..] == w[2..] + [a, b] && requests'[1..] == requests[1..] + [op];
      ExchangesSnoc(w[2..], requests[1..], requests[0].id, a, b, op);
    }
  }

  datatype Call = Call(cancelled: bool, op: Operation)

  predicate Goes(c: Call) { !c.cancelled && Fits(c.op) }

  /** How many IDs the calls use up. */
  function Used(calls: seq<Call>): (n: nat)
    ensures n <= |calls|
  {
    if calls == [] then 0
    else
      var front, last := Used(calls[..|calls| - 1]), calls[|calls| - 1];
      if last.cancelled then front else front + 1
  }

  /** The IDs of the requests on the wire, on a connection that does not break. */
  function IdsOf(calls: seq<Call>): seq<nat> {
    if calls == [] then []
    else
      var front, last := IdsOf(calls[..|calls| - 1]), calls[|calls| - 1];
      if Goes(last) then front + [Used(calls)] else front
  }

  /** The operations that are sent, each with its ID. */
  function RequestsOf(calls: seq<Call>): seq<Operation>
    requires |calls| < U64
  {
    if calls == [] then []
    else
      var front, last := RequestsOf(calls[..|calls| - 1]), calls[|calls| - 1];
      if Goes(last) then front + [last.op.(id := Used(calls))] else front
  }

  lemma RequestsSnoc(calls: seq<Call>, k: nat)
    requires k < |calls| < U64
    ensures RequestsOf(calls[..k + 1]) ==
            RequestsOf(calls[..k]) + if Goes(calls[k]) then [calls[k].op.(id := Used(calls[..k + 1]))] else []
  {
    assert calls[..k + 1][..k] == calls[..k];
  }

  /** Every call that goes is on the wire in its turn: the operation as it was asked for, with the number of calls so far that were not cancelled. */
  lemma {:induction false} RequestAt(calls: seq<Call>, j: nat)
    requires j < |calls| < U64 && Goes(calls[j])
    ensures var n := |RequestsOf(calls[..j])|;
            n < |RequestsOf(calls)| && RequestsOf(calls)[n] == calls[j].op.(id := Used(calls[..j + 1]))
    decreases |calls|
  {
    var front := calls[..|calls| - 1];
    if j < |front| {
      RequestAt(front, j);
      assert front[..j] == calls[..j] && front[..j + 1] == calls[..j + 1];
    } else {
      assert calls[..j + 1] == calls;
    }
  }

  lemma {:induction false} RequestIds(calls: seq<Call>)
    requires |calls| < U64
    ensures |RequestsOf(calls)| == |IdsOf(calls)|
    ensures forall i :: 0 <= i < |IdsOf(calls)| ==> RequestsOf(calls)[i].id == IdsOf(calls)[i]
  {
    if calls != [] { RequestIds(calls[..|calls| - 1]); }
  }

  lemma IdsSnoc(calls: seq<Call>, k: nat)
    requires k < |calls|
    ensures Used(calls[..k + 1]) == Used(calls[..k]) + if calls[k].cancelled then 0 else 1
    ensures IdsOf(calls[..k + 1]) == IdsOf(calls[..k]) + if Goes(calls[k]) then [Used(calls[..k + 1])] else []
  {
    assert calls[..k + 1][..k] == calls[..k];
  }

  predicate CountUp(ids: seq<nat>) {
    forall i :: 0 <= i < |ids| ==> ids[i] == i + 1
  }

  /** Every operation that was not cancelled fits. */
  predicate AllGo(calls: seq<Call>) {
    forall i :: 0 <= i < |calls| ==> calls[i].cancelled || Fits(calls[i].op)
  }

  /** No operation that cannot be sent stands before one that is. */
  predicate NoGap(calls: seq<Call>) {
    forall i, j :: 0 <= i < j < |calls| && Goes(calls[j]) ==> calls[i].cancelled || Fits(calls[i].op)
  }

  lemma {:induction false} SentCount(calls: seq<Call>)
    ensures |IdsOf(calls)| <= Used(calls)
    ensures |IdsOf(calls)| == Used(calls) <==> AllGo(calls)
  {
    if calls != [] {
      var front, last := calls[..|calls| - 1], calls[|calls| - 1];
      SentCount(front);
      assert AllGo(calls) <==> AllGo(front) && (last.cancelled || Fits(last.op)) by { AllGoSnoc(front, last); assert calls == front + [last]; }
    }
  }

  lemma AllGoSnoc(calls: seq<Call>, c: Call)
    ensures AllGo(calls + [c]) <==> AllGo(calls) && (c.cancelled || Fits(c.op))
  {
    var longer := calls + [c];
    if AllGo(longer) {
      forall i | 0 <= i < |calls| ensures calls[i].cancelled || Fits(calls[i].op) { assert longer[i] == calls[i]; }
      assert longer[|calls|] == c;
    }
  }

  lemma NoGapSnoc(calls: seq<Call>, c: Call)
    ensures NoGap(calls + [c]) <==> NoGap(calls) && (Goes(c) ==> AllGo(calls))
  {
    var longer := calls + [c];
    if NoGap(longer) {
      forall i, j | 0 <= i < j < |calls| && Goes(calls[j]) ensures calls[i].cancelled || Fits(calls[i].op) {
        assert longer[i] == calls[i] && longer[j] == calls[j];
      }
      forall i | 0 <= i < |calls| && Goes(c) ensures calls[i].cancelled || Fits(calls[i].op) {
        assert longer[i] == calls[i] && longer[|calls|] == c;
      }
    }
  }

  lemma CountUpSnoc(ids: seq<nat>, id: nat)
    ensures CountUp(ids + [id]) <==> CountUp(ids) && id == |ids| + 1
  {
    var longer := ids + [id];
    if CountUp(longer) {
      forall i | 0 <= i < |ids| ensures ids[i] == i + 1 { assert longer[i] == ids[i]; }
      assert longer[|ids|] == id;
    }
  }

  /** The IDs on the wire count 1, 2, 3, ... exactly when no operation that cannot be sent stands before one that is. */
  lemma {:induction false} IdsConsecutiveIff(calls: seq<Call>)
    ensures CountUp(IdsOf(calls)) <==> NoGap(calls)
  {
    if calls != [] {
      var front, last := calls[..|calls| - 1], calls[|calls| - 1];
      assert calls == front + [last];
      IdsConsecutiveIff(front);
      NoGapSnoc(front, last);
      SentCount(front);
      if Goes(last) { CountUpSnoc(IdsOf(front), Used(calls)); }
    }
  }

  /** An operation with a prompt that is too long uses up an ID: the next one goes out with ID 2. */
  lemma OversizedSkipsId(small: Operation)
    requires Fits(small)
    ensures var big := small.(prompt := seq(MAX_STRING + 1, i => 0));
            IdsOf([Call(false, big), Call(false, small)]) == [2]
  {
    var big := small.(prompt := seq(MAX_STRING + 1, i => 0));
    var calls := [Call(false, big), Call(false, small)];
    assert !OperationFields(big)[6].Fits() && OperationFields(big)[6] in OperationFields(big);
    assert !AllFit(OperationFields(big));
    IdsSnoc(calls, 0);
    IdsSnoc(calls, 1);
    assert calls[..2] == calls && calls[..0] == [];
  }

  // ----- the whole transaction

  /** After the request, exchanges up to index k, and then the answer. */
  ghost predicate AnsweredAt(wire: seq<Action>, k: nat, requests: seq<Operation>, verdict: ExecResult, broken: bool) {
    1 <= k <= |wire| && Exchanges(wire[1..k], requests, 0) && IsAnswer(wire[k..], verdict, broken)
  }

  /** The wire of a whole transaction with a guest that sends input. */
  ghost predicate Transaction(wire: seq<Action>, input: Bytes, broken: bool, requests: seq<Operation>, final: ExecResult) {
    if wire == [] then broken && requests == []
    else if RequestRead(wire[0])
    then && NextFrame(input).frame == Some(wire[0].frame)
         && (Decoded(EXEC_REQUEST, wire[0].frame.payload).None? ==> requests == [])
         && exists k :: AnsweredAt(wire, k, requests, Verdict(wire[0].frame, final), broken)
    else |wire| == 1 && requests == [] && IsFirstRead(wire[0], NextFrame(input).frame)
  }

  predicate RequestRead(a: Action) {
    a.In? && a.frame.typ == TYPE_EXEC_REQUEST
  }

  predicate IsFirstRead(a: Action, frame: Option<Frame>) {
    a == if frame.Some? then In(frame.value) else InFailed
  }

  /** The decided result, or a refusal when the request does not decode. */
  function Verdict(request: Frame, final: ExecResult): ExecResult {
    if Decoded(EXEC_REQUEST, request.payload).Some? then final else INVALID_REQUEST
  }

  predicate Deliverable(result: ExecResult) {
    && Encoded(ResultFields(result)).Some?
    && Sendable(Frame(TYPE_EXEC_RESULT, Encoded(ResultFields(result)).value))
  }

  function ResultFrame(result: ExecResult): Action
    requires Deliverable(result)
  {
    Out(Frame(TYPE_EXEC_RESULT, Encoded(ResultFields(result)).value))
  }

  /** One result frame, exactly when the connection is whole and the result can be sent. */
  predicate IsAnswer(w: seq<Action>, result: ExecResult, broken: bool) {
    w == if Deliverable(result) && !broken then [ResultFrame(result)] else []
  }

  function Results(wire: seq<Action>): nat {
    if wire == [] then 0
    else (if wire[0].Out? && wire[0].frame.typ == TYPE_EXEC_RESULT then 1 else 0) + Results(wire[1..])
  }

  lemma {:induction false} ResultsSum(v: seq<Action>, w: seq<Action>)
    ensures Results(v + w) == Results(v) + Results(w)
  {
    if v == [] {
      assert v + w == w;
    } else {
      assert (v + w)[1..] == v[1..] + w;
      ResultsSum(v[1..], w);
    }
  }

  lemma {:induction false} ExchangesHoldNoResult(w: seq<Action>, requests: seq<Operation>, last: nat)
    requires Exchanges(w, requests, last)
    ensures Results(w) == 0
  {
    if requests != [] {
      ExchangesHoldNoResult(w[2..], requests[1..], requests[0].id);
      assert w[1..][1..] == w[2..] && Results(w[1..]) == 0;
    }
  }

  lemma AnswerCounts(request: Action, exchanges: seq<Action>, answer: seq<Action>, requests: seq<Operation>, verdict: ExecResult, broken: bool)
    requires request.In? && Exchanges(exchanges, requests, 0) && IsAnswer(answer, verdict, broken)
    ensures var wire := [request] + exchanges + answer;
            && Results(wire) == (if Deliverable(verdict) && !broken then 1 else 0)
            && (Deliverable(verdict) && !broken ==> wire[|wire| - 1] == ResultFrame(verdict))
  {
    ExchangesHoldNoResult(exchanges, requests, 0);
    ResultsSum([request] + exchanges, answer);
    ResultsSum([request], exchanges);
    assert Results([request]) == 0 by { assert [request][1..] == []; }
    if answer != [] { assert answer[1..] == []; }
  }

  lemma ThreeParts(wire: seq<Action>, k: nat)
    requires 1 <= k <= |wire|
    ensures [wire[0]] + wire[1..k] + wire[k..] == wire
  {
  }

  lemma AnsweredOnce(wire: seq<Action>, k: nat, requests: seq<Operation>, verdict: ExecResult, broken: bool)
    requires AnsweredAt(wire, k, requests, verdict, broken) && wire[0].In?
    ensures Results(wire) == if Deliverable(verdict) && !broken then 1 else 0
    ensures Deliverable(verdict) && !broken ==> wire[|wire| - 1] == ResultFrame(verdict)
  {
    AnswerCounts(wire[0], wire[1..k], wire[k..], requests, verdict, broken);
    ThreeParts(wire, k);
  }

  /** A request was read, its verdict can be sent and the connection is whole. */
  predicate Answerable(wire: seq<Action>, broken: bool, final: ExecResult) {
    wire != [] && RequestRead(wire[0]) && Deliverable(Verdict(wire[0].frame, final)) && !broken
  }

  /** A transaction sends one result, as the last frame, exactly when it can; otherwise none. */
  lemma OneResult(wire: seq<Action>, input: Bytes, broken: bool, requests: seq<Operation>, final: ExecResult)
    requires Transaction(wire, input, broken, requests, final)
    ensures Results(wire) == if Answerable(wire, broken, final) then 1 else 0
    ensures Answerable(wire, broken, final) ==> wire[|wire| - 1] == ResultFrame(Verdict(wire[0].frame, final))
  {
    if wire != [] && RequestRead(wire[0]) {
      var verdict := Verdict(wire[0].frame, final);
      var k :| AnsweredAt(wire, k, requests, verdict, broken);
      AnsweredOnce(wire, k, requests, verdict, broken);
    } else if wire != [] {
      assert wire[1..] == [];
    }
  }

  const INVALID_REQUEST := ExecResult(false, [], [], [], [105, 110, 118, 97, 108, 105, 100, 32, 101, 120, 101, 99, 32, 114, 101, 113, 117, 101, 115, 116])

  method WriteExecResult(conn: Connection, result: ExecResult) returns (sent: bool)
    requires conn.Valid()
    modifies conn`output, conn`budget, conn`wire, conn`torn, conn`broken
    ensures conn.Valid() && old(conn.wire) <= conn.wire && (old(conn.broken) ==> conn.broken)
    ensures IsAnswer(conn.wire[|old(conn.wire)|..], result, conn.broken)
  {
    var payload := EncodeExecResult(result);
    if payload.None? { return false; }
    sent := conn.WriteFrame(TYPE_EXEC_RESULT, payload.value);
  }

  lemma ExchangeAdded(start: seq<Action>, before: seq<Action>, after: seq<Action>, requests: seq<Operation>, op: Operation)
    requires Since(before, start, requests) && before <= after && |after| == |before| + 2 && op.id > LastOf(requests, 0)
    requires IsRequest(after[|after| - 2], op) && !after[|after| - 1].Out?
    ensures Since(after, start, requests + [op])
  {
    var n := |after|;
    TwoMore(start, before, after);
    ExchangesSnoc(before[|start|..], requests, 0, after[n - 2], after[n - 1], op);
  }

  lemma TwoMore(start: seq<Action>, before: seq<Action>, after: seq<Action>)
    requires start <= before <= after && |after| == |before| + 2
    ensures after[|start|..] == before[|start|..] + [after[|after| - 2], after[|after| - 1]]
  {
  }

  /** After the first i calls: those before served met no broken connection. */
  predicate Served(calls: seq<Call>, i: nat, served: nat, requests: seq<Operation>, nextID: nat, broken: bool) {
    && served <= i <= |calls| && |calls| < U64 && requests == RequestsOf(calls[..served]) && (served < i ==> broken)
    && LastOf(requests, 0) <= nextID == Used(calls[..i])
  }

  lemma ServedNext(calls: seq<Call>, i: nat, served: nat, requests: seq<Operation>, nextID: nat, broken: bool, broken': bool) returns (served': nat)
    requires i < |calls| && Served(calls, i, served, requests, nextID, broken) && (broken ==> broken')
    ensures var next := nextID + if calls[i].cancelled then 0 else 1;
            && next < U64
            && Served(calls, i + 1, served', requests + if Goes(calls[i]) && !broken' then [calls[i].op.(id := next)] else [], next, broken')
  {
    IdsSnoc(calls, i);
    RequestsSnoc(calls, i);
    served' := if broken' then served else i + 1;
  }

  /** What one call has done to the wire, the counter and the connection. */
  ghost predicate Called(call: Call, before: seq<Action>, after: seq<Action>, id: nat, id': u64, broken: bool, broken': bool) {
    && (broken ==> broken') && id' == id + (if call.cancelled then 0 else 1)
    && (after != before <==> Goes(call) && !broken')
    && (after == before || (|after| == |before| + 2 && before <= after && IsRequest(after[|after| - 2], call.op.(id := id')) && !after[|after| - 1].Out?))
  }

  /** After the first i calls, on the wire and in the counter. */
  ghost predicate Progress(calls: seq<Call>, i: nat, served: nat, requests: seq<Operation>, nextID: nat, broken: bool, wire: seq<Action>, start: seq<Action>) {
    Served(calls, i, served, requests, nextID, broken) && Since(wire, start, requests)
  }

  lemma ProgressNext(calls: seq<Call>, i: nat, served: nat, requests: seq<Operation>, id: nat, id': u64, broken: bool, broken': bool,
                     before: seq<Action>, after: seq<Action>, start: seq<Action>) returns (served': nat, requests': seq<Operation>)
    requires i < |calls| && Progress(calls, i, served, requests, id, broken, before, start)
    requires Called(calls[i], before, after, id, id', broken, broken')
    ensures Progress(calls, i + 1, served', requests', id', broken', after, start)
  {
    served' := ServedNext(calls, i, served, requests, id, broken, broken');
    requests' := requests;
    if after != before {
      var op := calls[i].op.(id := id');
      ExchangeAdded(start, before, after, requests, op);
      requests' := requests + [op];
    }
  }

  /** One guest operation extends the exchanges by a whole one, or not at all. */
  method RunCall(ops: GuestOperations, call: Call)
    requires ops.conn.Valid() && ops.nextID < U64 - 1
    modifies ops, ops.conn`input, ops.conn`output, ops.conn`budget, ops.conn`wire, ops.conn`torn, ops.conn`broken
    ensures ops.conn.Valid()
    ensures Called(call, old(ops.conn.wire), ops.conn.wire, old(ops.nextID), ops.nextID, old(ops.conn.broken), ops.conn.broken)
  {
    var r := ops.Operate(call.cancelled, call.op);
  }

  /** The guest operations that the policy decision asks for, one after another; the first served of them met no broken connection. */
  method RunCalls(conn: Connection, calls: seq<Call>) returns (ghost requests: seq<Operation>, ghost served: nat)
    requires conn.Valid() && |calls| < U64
    modifies conn`input, conn`output, conn`budget, conn`wire, conn`torn, conn`broken
    ensures conn.Valid() && Since(conn.wire, old(conn.wire), requests)
    ensures served <= |calls| && requests == RequestsOf(calls[..served])
    ensures served < |calls| ==> conn.broken
  {
    var ops := new GuestOperations(conn);
    requests, served := [], 0;
    ghost var start := conn.wire;
    for i := 0 to |calls|
      invariant ops.conn == conn && conn.Valid()
      invariant Progress(calls, i, served, requests, ops.nextID, conn.broken, conn.wire, start)
    {
      ghost var id, broken, before := ops.nextID, conn.broken, conn.wire;
      RunCall(ops, calls[i]);
      served, requests := ProgressNext(calls, i, served, requests, id, ops.nextID, broken, conn.broken, before, conn.wire, start);
    }
  }

  lemma AllGoCountsUp(calls: seq<Call>, served: nat)
    requires served <= |calls| < U64 && NoGap(calls)
    ensures forall i :: 0 <= i < |RequestsOf(calls[..served])| ==> RequestsOf(calls[..served])[i].id == i + 1
  {
    var first := calls[..served];
    forall i, j | 0 <= i < j < |first| && Goes(first[j]) ensures first[i].cancelled || Fits(first[i].op) {
      assert first[i] == calls[i] && first[j] == calls[j];
    }
    IdsConsecutiveIff(first);
    RequestIds(first);
  }

  /** handleProtocol: the decision consists of guest operations and a final result. */
  method HandleProtocol(conn: Connection, calls: seq<Call>, final: ExecResult) returns (ghost requests: seq<Operation>, ghost served: nat)
    requires conn.Valid() && conn.wire == [] && conn.torn == [] && |calls| < U64
    modifies conn
    ensures conn.Valid()
    ensures Transaction(conn.wire, conn.given, conn.broken, requests, final)
    ensures conn.wire != [] ==> conn.prologue == old(conn.output) + MAGIC
    ensures served <= |calls| && requests == RequestsOf(calls[..served]) && (NoGap(calls) ==> forall i :: 0 <= i < |requests| ==> requests[i].id == i + 1)
    ensures (!conn.broken && conn.wire != [] && RequestRead(conn.wire[0]) && Decoded(EXEC_REQUEST, conn.wire[0].frame.payload).Some?)
            ==> served == |calls|
  {
    requests, served := [], 0;
    var ok := conn.WriteMagic();
    if !ok { return; }
    var frame := conn.ReadFrame();
    if frame.None? || frame.value.typ != TYPE_EXEC_REQUEST { return; }
    requests, served := Decide(conn, frame.value, calls, final, conn.given);
    if NoGap(calls) { AllGoCountsUp(calls, served); }
  }

  /** The transaction once an exec request frame has been read. */
  method Decide(conn: Connection, frame: Frame, calls: seq<Call>, final: ExecResult, ghost input: Bytes) returns (ghost requests: seq<Operation>, ghost served: nat)
    requires conn.Valid() && conn.wire == [In(frame)] && frame.typ == TYPE_EXEC_REQUEST && |calls| < U64
    requires NextFrame(input).frame == Some(frame)
    modifies conn`input, conn`output, conn`budget, conn`wire, conn`torn, conn`broken
    ensures conn.Valid() && conn.wire != [] && conn.wire[0] == In(frame)
    ensures Transaction(conn.wire, input, conn.broken, requests, final)
    ensures served <= |calls| && requests == RequestsOf(calls[..served])
    ensures !conn.broken && Decoded(EXEC_REQUEST, frame.payload).Some? ==> served == |calls|
  {
    requests, served := [], 0;
    var req := DecodeExecRequest(frame.payload);
    var result := INVALID_REQUEST;
    if req.Some? {
      requests, served := RunCalls(conn, calls);
      result := final;
    }
    ghost var before := conn.wire;
    var sent := WriteExecResult(conn, result);
    ResultAdded(before, conn.wire, frame, input, conn.broken, requests, result, final);
  }

  lemma ResultAdded(before: seq<Action>, after: seq<Action>, request: Frame, input: Bytes, broken: bool, requests: seq<Operation>, result: ExecResult, final: ExecResult)
    requires |before| >= 1 && before[0] == In(request) && request.typ == TYPE_EXEC_REQUEST
    requires NextFrame(input).frame == Some(request)
    requires Exchanges(before[1..], requests, 0)
    requires Decoded(EXEC_REQUEST, request.payload).None? ==> requests == []
    requires result == Verdict(request, final)
    requires before <= after && IsAnswer(after[|before|..], result, broken)
    ensures Transaction(after, input, broken, requests, final)
  {
    AnswerAdded(before, after, requests, result, broken);
    assert after[0] == In(request);
  }

  lemma AnswerAdded(before: seq<Action>, after: seq<Action>, requests: seq<Operation>, result: ExecResult, broken: bool)
    requires |before| >= 1 && before <= after && Exchanges(before[1..], requests, 0) && IsAnswer(after[|before|..], result, broken)
    ensures AnsweredAt(after, |before|, requests, result, broken)
  {
    assert after[1..|before|] == before[1..];
  }
}
