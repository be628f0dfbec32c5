/**
  A call with a byte output from end to end, as code: the four messages, the caller's buffer and the module.
  It computes the function whose transparency is proved, or runs out of memory.
 */
module ByteCalls {
  import opened Bytes
  import opened Signature
  import opened Wire
  import opened Arguments
  import opened Proxy
  import opened Messages
  import opened Dispatch
  import opened ClientReads
  import Ckr

  /** The reply of an rpc function with one byte output. */
  function ByteReply(id: int, ps: seq<Part>, oracle: ByteFunction): (r: Reply)
    ensures r.Success? ==>
      && IsCall(id) && PartsOf(id, false) == [AY] && |r.parts| == 1 && Fits(r.parts[0])
      && (r.parts[0].PBytes? || r.parts[0].PNoBytes?)
  {
    if !IsCall(id) || PartsOf(id, false) != [AY] || ps == [] || !ps[|ps| - 1].PByteBuffer? then Error(Ckr.GENERAL_ERROR)
    else
      var b := ps[|ps| - 1];
      FilterBytes(b.nullData, oracle(ps[..|ps| - 1], b.nullData, if b.nullCount then None else Some(b.room)))
  }

  /** These rpc functions around a module. */
  function ByteService(oracle: ByteFunction): Service {
    (id, ps) => ByteReply(id, ps, oracle)
  }

  lemma ByteServiceOk(oracle: ByteFunction)
    ensures forall id, ps :: ServiceOk(ByteService(oracle), id, ps)
  {
    hide PartsOf, ByteReply, EncodeMessage;
    forall id, ps ensures ServiceOk(ByteService(oracle), id, ps) {
      var r := ByteReply(id, ps, oracle);
      if r.Success? {
        assert Kinds(r.parts) == [KindOf(r.parts[0])] + Kinds([]);
        ByteReplyShort(id, ps, oracle);
      }
    }
  }

  /** A reply with one byte output is short enough for its length word. */
  lemma ByteReplyShort(id: int, ps: seq<Part>, oracle: ByteFunction)
    requires Sendable(id, ByteReply(id, ps, oracle))
    ensures |ReplyBytes(id, ByteReply(id, ps, oracle))| < TWO_32
  {
    hide PartsOf, ByteReply, ReplyBytes;
    OnePartShort(id, ByteReply(id, ps, oracle));
  }

  /** What the daemon answers is what the proxy function says of it. */
  lemma ByteTurned(id: int, ps: seq<Part>, out: ByteOutput, oracle: ByteFunction)
    requires IsCall(id) && PartsOf(id, true) == Kinds(ps) + [FY] && PartsOf(id, false) == [AY] && AllFit(ps)
    requires Carried(id, ps + [ByteBufferPart(out)])
    ensures ServeBytes(id, ps + [ByteBufferPart(out)], oracle) == Turned(ByteService(oracle), id, ps + [ByteBufferPart(out)])
  {
    hide PartsOf, BytesQuestion, Granted, FilterBytes, Carried, Kinds;
    var p := ByteBufferPart(out);
    var qs := ps + [p];
    assert qs[|qs| - 1] == p && qs[..|qs| - 1] == ps;
    assert (exists q <- qs :: !Granted(q)) <==> !Granted(p) || exists q <- ps :: !Granted(q);
    BytesReach(id, ps, out);
    ByteFits(id, qs, oracle);
  }

  lemma ByteFits(id: int, ps: seq<Part>, oracle: ByteFunction)
    ensures ByteReply(id, ps, oracle).Success? ==> AllFit(ByteReply(id, ps, oracle).parts)
  {
    hide ByteReply, Fits;
    var r := ByteReply(id, ps, oracle);
    assert r.Success? ==> forall p <- r.parts :: p == r.parts[0];
  }

  /** The client reads what the proxy function says. */
  lemma ByteConversed(id: int, ins: seq<Part>, out: ByteOutput, oracle: ByteFunction)
    requires IsCall(id) && PartsOf(id, true) == Kinds(ins) + [FY] && PartsOf(id, false) == [AY]
    ensures ProxiedBytes(id, ins, out, oracle) == ReadBytes(out, Conversed(ByteService(oracle), id, ins + [ByteBufferPart(out)]))
  {
    hide PartsOf, AdmitAll, Admitted, ServeBytes, ReadBytes, Kinds, Turned, Received, Answered, Carried;
    BytesAdmitted(id, ins, out);
    BytesKinds(ins, ByteBufferPart(out));
    if Admitted(id, ins + [ByteBufferPart(out)]).Err? {
      RefusedRead(out);
    } else {
      var ps := AdmitAll(ins).value;
      BytesKinds(ps, ByteBufferPart(out));
      ReceivedIff(id, ps + [ByteBufferPart(out)]);
      if Carried(id, ps + [ByteBufferPart(out)]) {
        ByteTurned(id, ps, out, oracle);
      } else {
        ByteDropped(id, ps, out, oracle);
      }
    }
  }

  lemma RefusedRead(out: ByteOutput)
    ensures forall e: Ulong :: ReadBytes(out, Error(e)) == (e, out)
  {
  }

  /** A request that is dropped reads like an error reply. */
  lemma ByteDropped(id: int, ps: seq<Part>, out: ByteOutput, oracle: ByteFunction)
    requires IsCall(id) && PartsOf(id, true) == Kinds(ps) + [FY] && AllFit(ps) && !Carried(id, ps + [ByteBufferPart(out)])
    ensures Answered(id, ServeBytes(id, ps + [ByteBufferPart(out)], oracle)) == Error(Ckr.DEVICE_ERROR)
  {
    hide PartsOf, BytesQuestion, Kinds, Carried, ReplyBytes, CallRun;
    var r := Error(Ckr.DEVICE_ERROR);
    BytesReach(id, ps, out);
    ErrorReplyShort(id, r);
    AnsweredShort(id, r);
    ReplyArrives(id, r);
  }

  /** OUT_BYTE_ARRAY on a response that stands ready. */
  method OutByteArray(cresp: Message, id: int, arr: array?<Byte>, count: Option<Ulong>, ghost ps: seq<Part>)
    returns (rv: Ulong, len: Option<Ulong>)
    requires IsCall(id) && PartsOf(id, false) == [AY] && Ready(cresp, id, ps) && arr != cresp.buffer.buf
    requires arr != null && count.Some? ==> count.value <= arr.Length
    modifies cresp, cresp.buffer`failures, arr
    ensures (rv, ByteOutput(Block(arr), len)) == ReadBytes(ByteOutput(old(Block(arr)), count), Success(ps))
  {
    OnePart(AY, cresp.Contents(), cresp.parsed);
    assert Codes([AY]) == Code(AY) + Codes([]);
    hide PartsOf, DecodeAll, Decode;
    if count.None? { return Ckr.ARGUMENTS_BAD, count; }
    var n;
    rv, n := ReadByteArrayInto(cresp, arr, count.value);
    len := Some(n);
  }

  /** The memory of all four messages does not run out. */
  predicate AllAmple(creq: Message, cresp: Message, req: Message, resp: Message) {
    creq.buffer.Ample() && cresp.buffer.Ample() && req.buffer.Ample() && resp.buffer.Ample()
  }

  lemma ByteArguments(id: int, ins: seq<Part>, p: Part, oracle: ByteFunction)
    requires p.PByteBuffer? && Bounded(p) && forall i | 0 <= i < |ins| :: Bounded(ins[i]) && Light(ins[i])
    ensures forall i | 0 <= i < |ins + [p]| :: Bounded((ins + [p])[i]) && Light((ins + [p])[i])
    ensures IsCall(id) ==> ReplyInFrame(ByteService(oracle), id, ins + [p])
  {
    LightPart(p);
    hide Bounded, Light, Turned, ReplyBytes, Sendable, ByteReply, Admitted;
    if IsCall(id) && Admitted(id, ins + [p]).Ok? { ByteTurnedShort(id, Admitted(id, ins + [p]).value, oracle); }
  }

  lemma ByteTurnedShort(id: int, ps: seq<Part>, oracle: ByteFunction)
    requires IsCall(id)
    ensures
      var r := Turned(ByteService(oracle), id, ps);
      Sendable(id, r) ==> |ReplyBytes(id, r)| < TWO_32
  {
    hide ByteReply, ReplyBytes, Sendable;
    var r := Turned(ByteService(oracle), id, ps);
    if Sendable(id, r) {
      if r == ByteReply(id, ps, oracle) {
        ByteReplyShort(id, ps, oracle);
      } else {
        ErrorReplyShort(id, r);
      }
    }
  }

  /** The call up to the response; `r` is what the client reads. */
  method AskBytes(creq: Message, cresp: Message, req: Message, resp: Message, id: int, ins: seq<Part>, p: Part,
                  oracle: ByteFunction, ghost out: ByteOutput, ghost ample: bool)
    returns (rv: Ulong, ghost r: Reply)
    requires creq.Valid() && cresp.Valid() && req.Valid() && resp.Valid()
    requires Apart(creq, cresp) && Apart(creq, req) && Apart(creq, resp) && Apart(cresp, req) && Apart(cresp, resp) && Apart(req, resp)
    requires IsCall(id) && PartsOf(id, true) == Kinds(ins) + [FY] && PartsOf(id, false) == [AY] && p == ByteBufferPart(out)
    requires forall i | 0 <= i < |ins| :: Bounded(ins[i]) && Light(ins[i])
    requires ample ==> AllAmple(creq, cresp, req, resp) && RequestInFrame(id, ins + [p])
    modifies creq, creq.buffer, creq.buffer.buf, cresp, cresp.buffer, cresp.buffer.buf
    modifies req, req.buffer, req.buffer.buf, resp, resp.buffer, resp.buffer.buf
    ensures cresp.Valid() && (cresp.buffer.buf == old(cresp.buffer.buf) || fresh(cresp.buffer.buf))
    ensures
      || (!ample && Exhausted(rv))
      || (ProxiedBytes(id, ins, out, oracle) == ReadBytes(out, r)
          && if r.Error? then rv == r.rv != Ckr.OK else rv == Ckr.OK && Ready(cresp, id, r.parts))
  {
    BytesKinds(ins, p);
    ByteArguments(id, ins, p, oracle);
    ByteServiceOk(oracle);
    ByteConversed(id, ins, out, oracle);
    hide PartsOf, Kinds, Bounded, Light, ServiceOk, Ready, ReadBytes, ProxiedBytes, Conversed, ReplyInFrame, RequestInFrame, Apart;
    r := Conversed(ByteService(oracle), id, ins + [p]);
    rv := Ask(creq, cresp, req, resp, id, ins + [p], ByteService(oracle), ample);
  }

  /**
    A call with one byte output. If memory does not run out, and the request is short enough for its length
    word, the caller's code, count and buffer are those of ProxiedBytes, which TransparentBytes compares with
    a direct call. Whatever happens, otherwise, they are that or a memory or device error with nothing changed.
   */
  method ByteCall(creq: Message, cresp: Message, req: Message, resp: Message, id: int, ins: seq<Part>,
                  arr: array?<Byte>, count: Option<Ulong>, oracle: ByteFunction)
    returns (rv: Ulong, len: Option<Ulong>)
    requires creq.Valid() && cresp.Valid() && req.Valid() && resp.Valid()
    requires Apart(creq, cresp) && Apart(creq, req) && Apart(creq, resp) && Apart(cresp, req) && Apart(cresp, resp) && Apart(req, resp)
    requires arr != creq.buffer.buf && arr != cresp.buffer.buf && arr != req.buffer.buf && arr != resp.buffer.buf
    requires IsCall(id) && PartsOf(id, true) == Kinds(ins) + [FY] && PartsOf(id, false) == [AY]
    requires forall i | 0 <= i < |ins| :: Bounded(ins[i]) && Light(ins[i])
    requires arr != null && count.Some? ==> count.value <= arr.Length
    modifies creq, creq.buffer, creq.buffer.buf, cresp, cresp.buffer, cresp.buffer.buf
    modifies req, req.buffer, req.buffer.buf, resp, resp.buffer, resp.buffer.buf, arr
    ensures
      || (Exhausted(rv) && Block(arr) == old(Block(arr)) && len == count)
      || (rv, ByteOutput(Block(arr), len)) == ProxiedBytes(id, ins, ByteOutput(old(Block(arr)), count), oracle)
    ensures
      AllAmple(creq, cresp, req, resp) && RequestInFrame(id, ins + [ByteBufferPart(ByteOutput(old(Block(arr)), count))]) ==>
        (rv, ByteOutput(Block(arr), len)) == ProxiedBytes(id, ins, ByteOutput(old(Block(arr)), count), oracle)
    ensures arr != null && rv != 0 ==> arr[..] == old(arr[..])
    ensures arr != null && rv == 0 ==>
      var asked := BytesAsked(id, ins, ByteOutput(old(Block(arr)), count));
      && asked.Ok?
      && var data := oracle(asked.value.ins, asked.value.nullData, asked.value.room).data;
      len == Some(|data|) && Proxy.Placed(arr[..], old(arr[..]), data)
  {
    ghost var out := ByteOutput(Block(arr), count);
    var p := PByteBuffer(arr == null, count.None?, if count.None? then 0 else Truncate32(count.value));
    hide PartsOf, Kinds, Bounded, Light, Ready, ReadBytes, ProxiedBytes, RequestInFrame, Apart;
    ghost var ample := AllAmple(creq, cresp, req, resp) && RequestInFrame(id, ins + [p]);
    ghost var r;
    rv, r := AskBytes(creq, cresp, req, resp, id, ins, p, oracle, out, ample);
    len := count;
    RefusedRead(out);
    if out.buf.Some? { BytesAfter(id, ins, out, oracle); }
    hide BytesAsked, Proxy.Placed;
    if rv == Ckr.OK {
      rv, len := OutByteArray(cresp, id, arr, count, r.parts);
    }
  }
}
