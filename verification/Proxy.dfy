/**
  A proxied call against a direct one. The client's encoding, the daemon's decoding, the module call,
  the daemon's return-code filter, its reply and the client's reading are composed as functions and
  compared with what the caller would have got from the module itself.
 */
module Proxy {
  import opened Bytes
  import opened EggBuffers
  import opened Signature
  import opened Wire
  import opened Arguments
  import opened Truncation
  import Framing
  import Ckr

  // ----- Replies ----------------------------------------------------------------------------

  /** What the daemon sends back: a filled-in response, or the error pseudo-call with a code. */
  datatype Reply = Success(parts: seq<Part>) | Error(rv: Ulong)

  predicate Sendable(id: int, r: Reply) {
    IsCall(id) && (r.Success? ==> AllFit(r.parts) && Kinds(r.parts) == PartsOf(id, false))
  }

  /** The bytes of a reply; an error code is narrowed to 32 bits before it is written. */
  function ReplyBytes(id: int, r: Reply): seq<Byte>
    requires Sendable(id, r)
  {
    match r
    case Success(ps) => EncodeMessage(id, false, ps)
    case Error(rv) => EncodeMessage(CALL_ERROR, false, [PUlong(Truncate32(rv))])
  }

  /**
    call_run on a reply of the modelled daemon: the code to return at once, or the parts of the response
    still to be interpreted. The Short case is not the code's answer to other peers: a reply whose call id
    is right but whose signature does not match leaves the code at CKR_OK (gck-rpc-module.c:648-649).
   */
  function CallRun(id: int, reply: seq<Byte>): Reply {
    match DecodeMessage(reply, false)
    case Short => Error(Ckr.DEVICE_ERROR)
    case Got((rid, ps), _) =>
      if rid == CALL_ERROR then
        if |ps| == 1 && ps[0].PUlong? && ps[0].v > Ckr.OK then Error(ps[0].v) else Error(Ckr.DEVICE_ERROR)
      else if rid != id then Error(Ckr.DEVICE_ERROR)
      else Success(ps)
  }

  /** The client's view of a reply: responses arrive as sent, codes modulo 2^32 and never as success. */
  lemma ReplyArrives(id: int, r: Reply)
    requires Sendable(id, r)
    ensures CallRun(id, ReplyBytes(id, r)) ==
            if r.Success? then r
            else Error(if Truncate32(r.rv) == Ckr.OK then Ckr.DEVICE_ERROR else Truncate32(r.rv))
  {
    hide EncodeMessage, DecodeMessage, PartsOf;
    match r
    case Success(ps) => MessageRoundTrip(id, false, ps);
    case Error(rv) =>
      var ps := [PUlong(Truncate32(rv))];
      assert Kinds(ps) == [U] + Kinds([]);
      MessageRoundTrip(CALL_ERROR, false, ps);
  }

  /** An error code of the module reaches the caller unchanged exactly when it fits 32 bits. */
  lemma ErrorCodeIff(id: int, rv: Ulong)
    requires IsCall(id) && rv != Ckr.OK
    ensures CallRun(id, ReplyBytes(id, Error(rv))) == Error(rv) <==> rv < TWO_32
  {
    hide CallRun, ReplyBytes;
    ReplyArrives(id, Error(rv));
  }

  /** What the other end reads of a message: as much as its 32-bit length word announces. */
  function Announced(wire: seq<Byte>): seq<Byte> {
    wire[..|wire| % TWO_32]
  }

  /**
    The client's end of a reply; a daemon that cannot send one drops the connection. A reply of 2^32 bytes
    and more is cut short, so that the caveat at CallRun applies to it.
   */
  function Answered(id: int, r: Reply): Reply {
    if Sendable(id, r) then CallRun(id, Announced(ReplyBytes(id, r))) else Error(Ckr.DEVICE_ERROR)
  }

  lemma AnsweredShort(id: int, r: Reply)
    requires Sendable(id, r) && |ReplyBytes(id, r)| < TWO_32
    ensures Answered(id, r) == CallRun(id, ReplyBytes(id, r))
  {
    hide CallRun, ReplyBytes, EncodeMessage, AllFit, Kinds, PartsOf;
    assert Announced(ReplyBytes(id, r)) == ReplyBytes(id, r);
  }

  /**
    The request as the daemon decodes it. One that announces 0x0FFFFFFF bytes or more, like one whose header
    is refused, makes the daemon drop the connection, and the caller gets CKR_DEVICE_ERROR, which is also the
    code for parts that are missing.
   */
  function Received(id: int, ps: seq<Part>): Read<(int, seq<Part>)>
    requires IsCall(id) && AllFit(ps)
  {
    var wire := Announced(EncodeMessage(id, true, ps));
    if |wire| >= Framing.MAX_REQUEST then Short else DecodeMessage(wire, true)
  }

  /** The daemon does not refuse the request for its length. */
  predicate Carried(id: int, ps: seq<Part>)
    requires IsCall(id)
  {
    |EncodeMessage(id, true, ps)| < Framing.MAX_REQUEST
  }

  /** A request is received exactly as sent if it is carried, and not at all otherwise, even if its length word wraps. */
  lemma ReceivedIff(id: int, ps: seq<Part>)
    requires IsCall(id) && AllFit(ps) && Kinds(ps) == PartsOf(id, true)
    ensures Received(id, ps) == if Carried(id, ps) then Got((id, ps), |EncodeMessage(id, true, ps)|) else Short
  {
    hide DecodeMessage, EncodeMessage, PartsOf, AllFit, Kinds;
    var wire := EncodeMessage(id, true, ps);
    if |wire| < TWO_32 {
      assert Announced(wire) == wire;
      MessageRoundTrip(id, true, ps);
    } else {
      CutShort(id, true, ps, |wire| % TWO_32);
    }
  }

  lemma HeaderShort(id: int, request: bool)
    requires IsCall(id)
    ensures |Header(id, request)| <= 44
  {
    hide PartsOf, Codes;
    CodesShort(PartsOf(id, request));
  }

  /** `k` times `n`, by addition. */
  function Times(n: nat, k: nat): (r: nat)
    ensures k <= 18 && n <= 13 ==> r <= 13 * k
  {
    if k == 0 then 0 else n + Times(n, k - 1)
  }

  /** Parts of at most `n` bytes each. */
  lemma {:induction false} PartsSize(ps: seq<Part>, n: nat)
    requires forall p <- ps :: |Encode(p)| <= n
    ensures |EncodeAll(ps)| <= Times(n, |ps|)
    decreases |ps|
  {
    hide Encode;
    if ps == [] {
    } else {
      PartsSize(ps[1..], n);
    }
  }

  /** A request without byte blocks is carried. */
  lemma SmallCarried(id: int, ps: seq<Part>)
    requires IsCall(id) && Kinds(ps) == PartsOf(id, true) && forall p <- ps :: |Encode(p)| <= 13
    ensures Carried(id, ps)
  {
    hide Encode, Header, EncodeAll, Kinds;
    HeaderShort(id, true);
    PartsSize(ps, 13);
  }

  lemma ErrorReplyShort(id: int, r: Reply)
    requires Sendable(id, r) && r.Error?
    ensures |ReplyBytes(id, r)| == 12
  {
    var ps := [PUlong(Truncate32(r.rv))];
    assert EncodeAll(ps) == Encode(ps[0]) + EncodeAll([]);
  }

  /** A reply of one part that is itself short enough. */
  lemma OnePartShort(id: int, r: Reply)
    requires Sendable(id, r) && (r.Success? ==> |r.parts| == 1 && |Encode(r.parts[0])| <= 0xffff_ff00)
    ensures |ReplyBytes(id, r)| < TWO_32
  {
    hide PartsOf;
    if r.Error? {
      ErrorReplyShort(id, r);
    } else {
      HeaderShort(id, false);
      hide Header, Encode;
      assert EncodeAll(r.parts) == Encode(r.parts[0]) + EncodeAll([]);
    }
  }

  // ----- Byte outputs (section 11.2 of PKCS#11 v2.20) ------------------------------------------

  /** A caller's output buffer: NULL or a memory block, and NULL or the count it points to. */
  datatype ByteOutput = ByteOutput(buf: Option<seq<Byte>>, count: Option<Ulong>)

  /** The module's answer: its code, the count it stores and the bytes it places in the buffer. */
  datatype ByteAnswer = ByteAnswer(rv: Ulong, count: Ulong, data: seq<Byte>)

  /** A byte-output function of the module: its inputs, whether the buffer is NULL, and the room. */
  type ByteFunction = (seq<Part>, bool, Option<Ulong>) -> ByteAnswer

  /** The conventions of section 11.2: size query, success within the room, or too small. */
  predicate ConformingBytes(nullData: bool, room: Option<Ulong>, a: ByteAnswer) {
    if a.rv == Ckr.OK then
      room.Some? && (if nullData then a.count < TWO_32 && a.data == [] else a.count == |a.data| <= room.value)
    else if a.rv == Ckr.BUFFER_TOO_SMALL then
      room.Some? && !nullData && a.count < TWO_32 && a.data == []
    else a.rv < TWO_32
  }

  /** A memory block after `data` has been copied to its start. */
  function Overlay(data: seq<Byte>, block: seq<Byte>): seq<Byte> {
    if |data| <= |block| then data + block[|data|..] else data
  }

  /** What the caller holds after a direct call. */
  function DirectBytes(out: ByteOutput, a: ByteAnswer): (Ulong, ByteOutput) {
    if a.rv == Ckr.OK then
      (a.rv, ByteOutput(if out.buf.None? then None else Some(Overlay(a.data, out.buf.value)), Some(a.count)))
    else if a.rv == Ckr.BUFFER_TOO_SMALL then (a.rv, ByteOutput(out.buf, Some(a.count)))
    else (a.rv, out)
  }

  /** IN_BYTE_BUFFER on the client. */
  function ByteBufferPart(out: ByteOutput): Part {
    PByteBuffer(out.buf.None?, out.count.None?, if out.count.None? then 0 else Truncate32(out.count.value))
  }

  /** proto_write_byte_array on the daemon, with its filter on the return code. */
  function FilterBytes(nullData: bool, a: ByteAnswer): Reply {
    if a.rv != Ckr.OK && a.rv != Ckr.BUFFER_TOO_SMALL then Error(a.rv)
    else if nullData || a.rv == Ckr.BUFFER_TOO_SMALL then Success([PNoBytes(Truncate32(a.count))])
    else if |a.data| >= ARRAY_LIMIT then Error(Ckr.PREP_ERROR)
    else Success([PBytes(a.data)])
  }

  /** What the module is asked: its inputs, whether the buffer is NULL, and NULL or the room. */
  datatype Question = Question(ins: seq<Part>, nullData: bool, room: Option<Ulong>)

  /** The question in a request whose last part is a byte buffer, or the daemon's refusal to ask it. */
  function BytesQuestion(id: int, ps: seq<Part>): Result<Question>
    requires IsCall(id) && AllFit(ps)
  {
    match Received(id, ps)
    case Short => Err(Ckr.PARSE_ERROR)
    case Got((_, qs), _) =>
      if qs == [] || !qs[|qs| - 1].PByteBuffer? then Err(Ckr.PARSE_ERROR)
      else if exists q <- qs :: !Granted(q) then Err(Ckr.DEVICE_MEMORY)
      else
        var b := qs[|qs| - 1];
        Ok(Question(qs[..|qs| - 1], b.nullData, if b.nullCount then None else Some(b.room)))
  }

  /** The daemon's handling of such a request. */
  function ServeBytes(id: int, ps: seq<Part>, oracle: ByteFunction): Reply
    requires IsCall(id) && AllFit(ps)
  {
    match BytesQuestion(id, ps)
    case Err(rv) => Error(rv)
    case Ok(q) => FilterBytes(q.nullData, oracle(q.ins, q.nullData, q.room))
  }

  /** OUT_BYTE_ARRAY and proto_read_byte_array on the client. */
  function ReadBytes(out: ByteOutput, r: Reply): (Ulong, ByteOutput) {
    if r.Error? then (r.rv, out)
    else if out.count.None? then (Ckr.ARGUMENTS_BAD, out)
    else if |r.parts| != 1 then (Ckr.PARSE_ERROR, out)
    else match r.parts[0]
         case PNoBytes(n) =>
           (if out.buf.Some? then Ckr.BUFFER_TOO_SMALL else Ckr.OK, out.(count := Some(n)))
         case PBytes(v) =>
           var len := Some(|v| % TWO_64);
           if out.buf.None? then (Ckr.OK, out.(count := len))
           else if out.count.value < |v| then (Ckr.BUFFER_TOO_SMALL, out.(count := len))
           else (Ckr.OK, ByteOutput(Some(Overlay(v, out.buf.value)), len))
         case _ => (Ckr.PARSE_ERROR, out)
  }

  /** The question that reaches the module, or the code of the end that refuses to pass it on. */
  function BytesAsked(id: int, ins: seq<Part>, out: ByteOutput): Result<Question>
    requires IsCall(id)
  {
    match Admitted(id, ins + [ByteBufferPart(out)])
    case Err(rv) => Err(rv)
    case Ok(ps) => BytesQuestion(id, ps)
  }

  function ProxiedBytes(id: int, ins: seq<Part>, out: ByteOutput, oracle: ByteFunction): (Ulong, ByteOutput)
    requires IsCall(id)
  {
    match Admitted(id, ins + [ByteBufferPart(out)])
    case Err(rv) => (rv, out)
    case Ok(ps) => ReadBytes(out, Answered(id, ServeBytes(id, ps, oracle)))
  }

  /** C_GenerateRandom does not ask for a NULL buffer to be filled. */
  predicate Askable(id: int, out: ByteOutput) {
    id == GENERATE_RANDOM ==> out.buf.Some?
  }

  /** What the client sends for a call with a byte output. */
  lemma BytesAdmitted(id: int, ins: seq<Part>, out: ByteOutput)
    requires IsCall(id) && PartsOf(id, true) == Kinds(ins) + [FY]
    ensures Admitted(id, ins + [ByteBufferPart(out)]) ==
            if !Askable(id, out) then Err(Ckr.ARGUMENTS_BAD)
            else match AdmitAll(ins) case Err(rv) => Err(rv) case Ok(ps) => Ok(ps + [ByteBufferPart(out)])
  {
    hide PartsOf, AdmitAll, EntryCheck;
    BufferEntry(id, ins, ByteBufferPart(out));
    AdmitAppend(ins, ByteBufferPart(out));
  }

  /** The caller's side of the conventions: a buffer really has the announced room, and the wire can fill it. */
  predicate SoundOutput(out: ByteOutput) {
    out.buf.Some? && out.count.Some? ==> out.count.value < ARRAY_LIMIT && out.count.value <= |out.buf.value|
  }

  lemma {:induction false} KindsSplit(a: seq<Part>, b: seq<Part>)
    ensures Kinds(a + b) == Kinds(a) + Kinds(b)
  {
    if a == [] {
      assert a + b == b;
    } else {
      assert (a + b)[1..] == a[1..] + b;
      KindsSplit(a[1..], b);
    }
  }

  lemma BytesKinds(ins: seq<Part>, p: Part)
    requires p.PByteBuffer?
    ensures Kinds(ins + [p]) == Kinds(ins) + [FY]
  {
    KindsSplit(ins, [p]);
    assert Kinds([p]) == [FY] + Kinds([]);
  }

  /** What the daemon makes of the arguments it is sent. */
  lemma BytesReach(id: int, ps: seq<Part>, out: ByteOutput)
    requires IsCall(id) && PartsOf(id, true) == Kinds(ps) + [FY] && AllFit(ps)
    ensures
      var p := ByteBufferPart(out);
      BytesQuestion(id, ps + [p]) ==
      if !Carried(id, ps + [p]) then Err(Ckr.DEVICE_ERROR)
      else if !Granted(p) || exists q <- ps :: !Granted(q) then Err(Ckr.DEVICE_MEMORY)
      else Ok(Question(ps, out.buf.None?, if out.count.None? then None else Some(Truncate32(out.count.value))))
  {
    hide PartsOf, Received, Granted, Carried, Kinds;
    var p := ByteBufferPart(out);
    var qs := ps + [p];
    BytesKinds(ps, p);
    ReceivedIff(id, qs);
    assert qs[|qs| - 1] == p && qs[..|qs| - 1] == ps;
    assert (exists q <- qs :: !Granted(q)) <==> !Granted(p) || exists q <- ps :: !Granted(q);
  }

  /** The wire can carry the room, and call_alloc provides it. */
  predicate ExpressibleOutput(out: ByteOutput) {
    out.count.Some? ==> out.count.value < TWO_32 && (out.buf.Some? ==> Allocatable(out.count.value))
  }

  /**
    The module is asked the caller's question exactly when the client sends every input as it is, call_alloc
    provides for them, the wire can carry the room, it is not C_GenerateRandom without a buffer, and the whole
    request is shorter than 0x0FFFFFFF bytes.
   */
  lemma BytesAskedIff(id: int, ins: seq<Part>, out: ByteOutput)
    requires IsCall(id) && PartsOf(id, true) == Kinds(ins) + [FY]
    ensures BytesAsked(id, ins, out) == Ok(Question(ins, out.buf.None?, out.count))
       <==> && (forall p <- ins :: Passes(p) && Granted(p)) && ExpressibleOutput(out) && Askable(id, out)
            && Carried(id, ins + [ByteBufferPart(out)])
  {
    AdmitAllIff(ins);
    BytesAskedForm(id, ins, out);
    RoomGranted(out);
    hide PartsOf, Kinds, BytesAsked, AdmitAll, Passes, Granted, Carried, ByteBufferPart;
  }

  lemma RoomGranted(out: ByteOutput)
    ensures (out.count.Some? ==> out.count.value < TWO_32) ==> (Granted(ByteBufferPart(out)) <==> ExpressibleOutput(out))
  {
  }

  /** The question in terms of what the client sends. */
  lemma BytesAskedForm(id: int, ins: seq<Part>, out: ByteOutput)
    requires IsCall(id) && PartsOf(id, true) == Kinds(ins) + [FY]
    ensures BytesAsked(id, ins, out) ==
      if !Askable(id, out) then Err(Ckr.ARGUMENTS_BAD)
      else match AdmitAll(ins)
           case Err(rv) => Err(rv)
           case Ok(ps) =>
             if !Carried(id, ps + [ByteBufferPart(out)]) then Err(Ckr.DEVICE_ERROR)
             else if !Granted(ByteBufferPart(out)) || exists q <- ps :: !Granted(q) then Err(Ckr.DEVICE_MEMORY)
             else Ok(Question(ps, out.buf.None?, if out.count.None? then None else Some(Truncate32(out.count.value))))
  {
    hide PartsOf, BytesQuestion, AdmitAll, Admitted, Carried, Granted, Kinds;
    BytesAdmitted(id, ins, out);
    if AdmitAll(ins).Ok? {
      BytesReach(id, AdmitAll(ins).value, out);
    }
  }

  /** A module that gives the same answer to a size query whatever the count held before it. */
  ghost predicate IgnoresRoom(ins: seq<Part>, oracle: ByteFunction) {
    forall r: Ulong, q: Ulong :: oracle(ins, true, Some(r)) == oracle(ins, true, Some(q))
  }

  /** A size query may hold any count; the module has to be indifferent to one that does not fit the wire. */
  ghost predicate SoundQuery(ins: seq<Part>, out: ByteOutput, oracle: ByteFunction) {
    out.buf.None? && out.count.Some? && out.count.value >= TWO_32 ==> IgnoresRoom(ins, oracle)
  }

  /** The daemon puts to the module the caller's question, or one with the same answer. */
  lemma ServedBytes(id: int, ins: seq<Part>, out: ByteOutput, oracle: ByteFunction)
    requires IsCall(id) && PartsOf(id, true) == Kinds(ins) + [FY] && forall p <- ins :: Passes(p) && Granted(p)
    requires SoundOutput(out) && SoundQuery(ins, out, oracle) && Carried(id, ins + [ByteBufferPart(out)])
    ensures AllFit(ins + [ByteBufferPart(out)])
    ensures ServeBytes(id, ins + [ByteBufferPart(out)], oracle)
         == FilterBytes(out.buf.None?, oracle(ins, out.buf.None?, out.count))
  {
    hide PartsOf, FilterBytes, BytesQuestion, Passes, Carried;
    PassingFit(ins);
    BytesReach(id, ins, out);
  }

  /** Filtering on the daemon and reading on the client together give the direct call's effect. */
  lemma FilteredBytes(id: int, out: ByteOutput, a: ByteAnswer)
    requires IsCall(id) && PartsOf(id, false) == [AY]
    requires SoundOutput(out) && ConformingBytes(out.buf.None?, out.count, a)
    ensures ReadBytes(out, Answered(id, FilterBytes(out.buf.None?, a))) == DirectBytes(out, a)
  {
    hide CallRun, ReplyBytes, PartsOf;
    var r := FilterBytes(out.buf.None?, a);
    if r.Success? { assert Kinds(r.parts) == [AY] + Kinds([]); }
    OnePartShort(id, r);
    AnsweredShort(id, r);
    ReplyArrives(id, r);
  }

  /** Transparency for byte outputs: same code, same count, same bytes, rest of the buffer untouched. */
  lemma TransparentBytes(id: int, ins: seq<Part>, out: ByteOutput, oracle: ByteFunction)
    requires IsCall(id) && PartsOf(id, true) == Kinds(ins) + [FY] && PartsOf(id, false) == [AY]
    requires (forall p <- ins :: Passes(p) && Granted(p)) && Askable(id, out) && Carried(id, ins + [ByteBufferPart(out)])
    requires SoundOutput(out) && SoundQuery(ins, out, oracle)
    requires ConformingBytes(out.buf.None?, out.count, oracle(ins, out.buf.None?, out.count))
    ensures ProxiedBytes(id, ins, out, oracle) == DirectBytes(out, oracle(ins, out.buf.None?, out.count))
  {
    hide Answered, ServeBytes, PartsOf, FilterBytes, DirectBytes, ReadBytes, AdmitAll, Passes, Granted, Admitted, Carried;
    AdmitAllIff(ins);
    BytesAdmitted(id, ins, out);
    ServedBytes(id, ins, out, oracle);
    FilteredBytes(id, out, oracle(ins, out.buf.None?, out.count));
  }

  /**
    The same with the conventions and codes spelled out: a NULL buffer gets the size, a buffer the bytes, one that
    is too small (0x150) the size; after any other code count and buffer are as they were.
   */
  lemma BytesCases(id: int, ins: seq<Part>, out: ByteOutput, oracle: ByteFunction)
    requires IsCall(id) && PartsOf(id, true) == Kinds(ins) + [FY] && PartsOf(id, false) == [AY]
    requires (forall p <- ins :: Passes(p) && Granted(p)) && Askable(id, out) && Carried(id, ins + [ByteBufferPart(out)])
    requires SoundOutput(out) && SoundQuery(ins, out, oracle)
    requires
      var a := oracle(ins, out.buf.None?, out.count);
      && a.rv < 0x1_0000_0000 && a.count < 0x1_0000_0000
      && (a.rv == 0 ==> out.count.Some? && if out.buf.None? then a.data == [] else a.count == |a.data| <= out.count.value)
      && (a.rv == 0x150 ==> out.count.Some? && out.buf.Some? && a.data == [])
    ensures
      var a := oracle(ins, out.buf.None?, out.count);
      var (rv, now) := ProxiedBytes(id, ins, out, oracle);
      && rv == a.rv && now.count == (if rv == 0 || rv == 0x150 then Some(a.count) else out.count)
      && if rv == 0 && out.buf.Some? then now.buf.Some? && Placed(now.buf.value, out.buf.value, a.data) else now.buf == out.buf
  {
    hide Answered, ServeBytes, PartsOf, FilterBytes, ReadBytes, Passes, Granted, Admitted, Carried, ProxiedBytes;
    TransparentBytes(id, ins, out, oracle);
  }

  /** The caller's block after a call: the bytes `data` at its start, and the rest as it was. */
  predicate Placed(now: seq<Byte>, was: seq<Byte>, data: seq<Byte>) {
    |now| == |was| && |data| <= |was| && now[..|data|] == data && now[|data|..] == was[|data|..]
  }

  /**
    What a proxied call leaves in the caller's memory, whatever the module: with CKR_OK exactly the bytes of the
    module's answer at the start of the buffer, their number in the count, and the rest of the buffer as it
    was; with any other code the whole buffer is as it was.
   */
  lemma BytesAfter(id: int, ins: seq<Part>, out: ByteOutput, oracle: ByteFunction)
    requires IsCall(id) && PartsOf(id, true) == Kinds(ins) + [FY] && PartsOf(id, false) == [AY]
    requires out.buf.Some? && (out.count.Some? ==> out.count.value <= |out.buf.value|)
    ensures
      var (rv, now) := ProxiedBytes(id, ins, out, oracle);
      && now.buf.Some?
      && (rv != 0 ==> now.buf == out.buf)
      && (rv == 0 ==>
            && BytesAsked(id, ins, out).Ok?
            && var q := BytesAsked(id, ins, out).value;
            var data := oracle(q.ins, q.nullData, q.room).data;
            now.count == Some(|data|) && Placed(now.buf.value, out.buf.value, data))
  {
    hide PartsOf, Kinds, AdmitAll, Admitted, BytesQuestion, Carried, Granted;
    BytesAdmitted(id, ins, out);
    BytesNotNull(id, ins, out);
    if Admitted(id, ins + [ByteBufferPart(out)]).Ok? {
      var q := BytesQuestion(id, Admitted(id, ins + [ByteBufferPart(out)]).value);
      if q.Ok? {
        ReadAfter(id, out, oracle(q.value.ins, q.value.nullData, q.value.room));
      } else {
        ErrorRead(id, out, q.rv);
      }
    }
  }

  /** The question about a buffer says that there is one. */
  lemma BytesNotNull(id: int, ins: seq<Part>, out: ByteOutput)
    requires IsCall(id) && PartsOf(id, true) == Kinds(ins) + [FY]
    ensures BytesAsked(id, ins, out).Ok? ==> BytesAsked(id, ins, out).value.nullData == out.buf.None?
  {
    hide PartsOf, Kinds, AdmitAll, Admitted, BytesQuestion, Carried, Granted;
    BytesAdmitted(id, ins, out);
    if AdmitAll(ins).Ok? { BytesReach(id, AdmitAll(ins).value, out); }
  }

  /** An error reply, and a connection that is dropped, change nothing and are no success. */
  lemma ErrorRead(id: int, out: ByteOutput, e: Ulong)
    requires IsCall(id)
    ensures ReadBytes(out, Answered(id, Error(e))).0 != 0 && ReadBytes(out, Answered(id, Error(e))).1 == out
  {
    hide CallRun, ReplyBytes;
    ErrorReplyShort(id, Error(e));
    AnsweredShort(id, Error(e));
    ReplyArrives(id, Error(e));
  }

  lemma ReadAfter(id: int, out: ByteOutput, a: ByteAnswer)
    requires IsCall(id) && PartsOf(id, false) == [AY]
    requires out.buf.Some? && (out.count.Some? ==> out.count.value <= |out.buf.value|)
    ensures
      var (rv, now) := ReadBytes(out, Answered(id, FilterBytes(false, a)));
      && now.buf.Some? && (rv != 0 ==> now.buf == out.buf)
      && (rv == 0 ==> now.count == Some(|a.data|) && Placed(now.buf.value, out.buf.value, a.data))
  {
    hide CallRun, ReplyBytes, PartsOf;
    var r := FilterBytes(false, a);
    if r.Success? {
      assert Kinds(r.parts) == [AY] + Kinds([]);
      OnePartShort(id, r);
      AnsweredShort(id, r);
      ReplyArrives(id, r);
    } else {
      ErrorRead(id, out, r.rv);
    }
  }

  // ----- Inputs that are too long -------------------------------------------------------------

  const ENCRYPT := 33

  lemma EncryptTable()
    ensures PartsOf(ENCRYPT, true) == [U, AY, FY] && PartsOf(ENCRYPT, false) == [AY]
  {
  }

  lemma EncryptParts(session: Ulong, data: seq<Byte>)
    ensures PartsOf(ENCRYPT, true) == Kinds([PUlong(session), PBytes(data)]) + [FY] && PartsOf(ENCRYPT, false) == [AY]
    ensures |Codes(PartsOf(ENCRYPT, true))| == 5
  {
    hide PartsOf, CallOf;
    EncryptTable();
    var ks := [U, AY, FY];
    var ins := [PUlong(session), PBytes(data)];
    assert ins[1..] == [ins[1]] && Kinds([ins[1]]) == [AY] + Kinds([]) && Kinds(ins) == [U, AY];
    assert [U, AY] + [FY] == ks;
    assert ks[1..] == [AY, FY] && [AY, FY][1..] == [FY] && Codes([FY]) == "fy" + Codes([]);
    assert Codes([AY, FY]) == "ay" + Codes([FY]) && Codes(ks) == "u" + Codes([AY, FY]);
  }

  lemma EncryptSize(session: Ulong, data: seq<Byte>, out: ByteOutput)
    requires |data| < ARRAY_LIMIT
    ensures |EncodeMessage(ENCRYPT, true, [PUlong(session), PBytes(data)] + [ByteBufferPart(out)])| == |data| + 31
  {
    EncryptParts(session, data);
    hide PartsOf, Codes, EncodeUint32, EncodeUint64, SignatureBytes, Kinds;
    var p := ByteBufferPart(out);
    var ps := [PUlong(session), PBytes(data), p];
    assert [PUlong(session), PBytes(data)] + [p] == ps && ps[1..] == [ps[1], p] && ps[1..][1..] == [p] && [p][1..] == [];
    assert |EncodeAll([p])| == |Encode(p)| + 0 == 5 && |Encode(ps[1])| == 5 + |data| && |Encode(ps[0])| == 8;
    assert EncodeAll(ps) == Encode(ps[0]) + EncodeAll(ps[1..]) && EncodeAll(ps[1..]) == Encode(ps[1]) + EncodeAll([p]);
    assert |EncodeAll(ps)| == 18 + |data|;
  }

  /** C_Encrypt of 0x0FFFFFE0 bytes and more never reaches the module, whatever there is memory for. */
  lemma EncryptTooLong(session: Ulong, data: seq<Byte>, out: ByteOutput, oracle: ByteFunction)
    requires |data| < ARRAY_LIMIT
    ensures
      var ins := [PUlong(session), PBytes(data)];
      Carried(ENCRYPT, ins + [ByteBufferPart(out)]) <==> |data| < 0x0fff_ffe0
    ensures |data| >= 0x0fff_ffe0 ==>
      ProxiedBytes(ENCRYPT, [PUlong(session), PBytes(data)], out, oracle) == (Ckr.DEVICE_ERROR, out)
  {
    var ins, p := [PUlong(session), PBytes(data)], ByteBufferPart(out);
    EncryptSize(session, data, out);
    EncryptParts(session, data);
    assert forall q <- ins :: Passes(q);
    if |data| >= 0x0fff_ffe0 {
      var r := Error(Ckr.DEVICE_ERROR);
      hide PartsOf, Kinds, AdmitAll, Admitted, BytesQuestion, EncodeMessage, ReplyBytes, CallRun, Passes;
      AdmitAllIff(ins);
      BytesAdmitted(ENCRYPT, ins, out);
      BytesReach(ENCRYPT, ins, out);
      ErrorReplyShort(ENCRYPT, r);
      AnsweredShort(ENCRYPT, r);
      ReplyArrives(ENCRYPT, r);
    }
  }

  // ----- Arguments the client does not send ---------------------------------------------------

  const WRAP_KEY := 63

  /** The inputs of C_WrapKey. */
  function WrapKeyArgs(session: Ulong, mech: Uint32, param: Option<seq<Byte>>, wrapping: Ulong, key: Ulong): seq<Part> {
    [PUlong(session), PMechanism(mech, param), PUlong(wrapping), PUlong(key)]
  }

  lemma WrapKeyParts(session: Ulong, mech: Uint32, param: Option<seq<Byte>>, wrapping: Ulong, key: Ulong)
    ensures PartsOf(WRAP_KEY, true) == Kinds(WrapKeyArgs(session, mech, param, wrapping, key)) + [FY]
    ensures PartsOf(WRAP_KEY, false) == [AY]
  {
    assert PartsOf(WRAP_KEY, true) == [U, M, U, U] + [FY] && PartsOf(WRAP_KEY, false) == [AY];
    hide PartsOf;
    var ins := WrapKeyArgs(session, mech, param, wrapping, key);
    assert ins == [ins[0], ins[1]] + [ins[2], ins[3]];
    KindsSplit([ins[0], ins[1]], [ins[2], ins[3]]);
    assert [ins[0], ins[1]][1..] == [ins[1]] && [ins[2], ins[3]][1..] == [ins[3]];
    assert Kinds([ins[1]]) == [M] + Kinds([]) && Kinds([ins[3]]) == [U] + Kinds([]);
    assert Kinds([ins[0], ins[1]]) == [U, M] && Kinds([ins[2], ins[3]]) == [U, U];
  }

  /** A module that answers every size query with `n`. */
  function Sized(n: Uint32): ByteFunction {
    (ins, nullData, room: Option<Ulong>) =>
      if nullData && room.Some? then ByteAnswer(Ckr.OK, n, []) else ByteAnswer(Ckr.GENERAL_ERROR, 0, [])
  }

  /**
    A mechanism the client does not know is refused without asking the module: a direct call would have
    succeeded.
   */
  lemma UnknownMechanismRefused(session: Ulong, param: Option<seq<Byte>>, wrapping: Ulong, key: Ulong, n: Uint32, room: Ulong)
    ensures
      var ins, out := WrapKeyArgs(session, 0x1087, param, wrapping, key), ByteOutput(None, Some(room));
      && Kinds(ins) + [FY] == PartsOf(WRAP_KEY, true)
      && ConformingBytes(true, out.count, Sized(n)(ins, true, out.count))
      && DirectBytes(out, Sized(n)(ins, true, out.count)) == (Ckr.OK, out.(count := Some(n)))
      && forall oracle :: ProxiedBytes(WRAP_KEY, ins, out, oracle) == (Ckr.MECHANISM_INVALID, out)
  {
    var ins := WrapKeyArgs(session, 0x1087, param, wrapping, key);
    WrapKeyParts(session, 0x1087, param, wrapping, key);
    FirstRefused(ins, 1);
    hide PartsOf, Answered, ServeBytes, AdmitAll, Admitted, Kinds;
    BytesAdmitted(WRAP_KEY, ins, ByteOutput(None, Some(room)));
  }

  /** CKM_RSA_PKCS has no parameter, so one that is given is dropped. */
  lemma WrapKeyAdmitted(session: Ulong, param: seq<Byte>, wrapping: Ulong, key: Ulong)
    ensures AdmitAll(WrapKeyArgs(session, 1, Some(param), wrapping, key)) == Ok(WrapKeyArgs(session, 1, None, wrapping, key))
    ensures forall q <- WrapKeyArgs(session, 1, None, wrapping, key) :: Granted(q)
  {
    hide AdmitAll;
    var ins, sent := WrapKeyArgs(session, 1, Some(param), wrapping, key), WrapKeyArgs(session, 1, None, wrapping, key);
    assert Admit(ins[1]) == Ok(sent[1]);
    NoneRefused(ins, sent);
  }

  lemma WrapKeyCarried(session: Ulong, wrapping: Ulong, key: Ulong, out: ByteOutput)
    ensures Carried(WRAP_KEY, WrapKeyArgs(session, 1, None, wrapping, key) + [ByteBufferPart(out)])
  {
    var ps := WrapKeyArgs(session, 1, None, wrapping, key) + [ByteBufferPart(out)];
    hide PartsOf, Kinds, Carried, EncodeUint32;
    assert forall p <- ps :: |Encode(p)| <= 13;
    WrapKeyParts(session, 1, None, wrapping, key);
    BytesKinds(WrapKeyArgs(session, 1, None, wrapping, key), ByteBufferPart(out));
    SmallCarried(WRAP_KEY, ps);
  }

  /** A parameter given with a mechanism that has none never reaches the module. */
  lemma ParameterDropped(session: Ulong, param: seq<Byte>, wrapping: Ulong, key: Ulong, room: Uint32)
    ensures
      var out := ByteOutput(None, Some(room));
      BytesAsked(WRAP_KEY, WrapKeyArgs(session, 1, Some(param), wrapping, key), out)
      == Ok(Question(WrapKeyArgs(session, 1, None, wrapping, key), true, Some(room)))
  {
    hide PartsOf, BytesQuestion, AdmitAll, Admitted, Kinds, WrapKeyArgs, Carried;
    WrapKeyParts(session, 1, Some(param), wrapping, key);
    BytesAdmitted(WRAP_KEY, WrapKeyArgs(session, 1, Some(param), wrapping, key), ByteOutput(None, Some(room)));
    WrapKeyAdmitted(session, param, wrapping, key);
    WrapKeyParts(session, 1, None, wrapping, key);
    WrapKeyCarried(session, wrapping, key, ByteOutput(None, Some(room)));
    BytesReach(WRAP_KEY, WrapKeyArgs(session, 1, None, wrapping, key), ByteOutput(None, Some(room)));
  }
}
