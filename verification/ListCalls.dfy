/** A call that returns a list from end to end, as code: the four messages, the caller's list and the module. */
module ListCalls {
  import opened Bytes
  import opened Signature
  import opened Wire
  import opened Arguments
  import opened Proxy
  import opened ProxyLists
  import opened Messages
  import opened Dispatch
  import opened ClientReads
  import opened ByteCalls
  import Ckr

  /** The reply of an rpc function with one list; a list of 2^28 entries or more is not one the module can fill. */
  function ListReply(id: int, ps: seq<Part>, oracle: ListFunction): (r: Reply)
    ensures r.Success? ==>
      && IsCall(id) && PartsOf(id, false) == [AU] && |r.parts| == 1
      && (r.parts[0].PNoUlongs? || (r.parts[0].PUlongs? && Allocatable(|r.parts[0].vs| * 8)))
  {
    if !IsCall(id) || PartsOf(id, false) != [AU] || ps == [] || !ps[|ps| - 1].PUlongBuffer? then Error(Ckr.GENERAL_ERROR)
    else
      var room := RoomReceived(ps[|ps| - 1].room);
      var a := oracle(ps[..|ps| - 1], room);
      if !Allocatable(|a.list| * 8) then Error(Ckr.GENERAL_ERROR) else FilterList(room, a)
  }

  /** These rpc functions around a module. */
  function ListService(oracle: ListFunction): Service {
    (id, ps) => ListReply(id, ps, oracle)
  }

  lemma ListReplyShort(id: int, ps: seq<Part>, oracle: ListFunction)
    requires Sendable(id, ListReply(id, ps, oracle))
    ensures |ReplyBytes(id, ListReply(id, ps, oracle))| < TWO_32
  {
    var r := ListReply(id, ps, oracle);
    hide PartsOf, ListReply, ReplyBytes;
    if r.Success? { ListReplySize(r.parts[0]); }
    OnePartShort(id, r);
  }

  lemma ListFitsWire(id: int, ps: seq<Part>, oracle: ListFunction)
    ensures
      var r := ListReply(id, ps, oracle);
      r.Success? ==> AllFit(r.parts) && Kinds(r.parts) == [AU] && Writable(r.parts[0])
  {
    var r := ListReply(id, ps, oracle);
    hide ListReply;
    if r.Success? {
      assert forall p <- r.parts :: p == r.parts[0];
      assert Kinds(r.parts) == [KindOf(r.parts[0])] + Kinds([]);
    }
  }

  lemma ListServiceOk(oracle: ListFunction)
    ensures forall id, ps :: ServiceOk(ListService(oracle), id, ps)
  {
    hide PartsOf, ListReply, EncodeMessage, Writable, AllFit, Kinds;
    forall id, ps ensures ServiceOk(ListService(oracle), id, ps) {
      ListFitsWire(id, ps, oracle);
      if ListReply(id, ps, oracle).Success? { ListReplyShort(id, ps, oracle); }
    }
  }

  /** Within its means the module's list is what the daemon's part of the proxy function sends. */
  lemma ListTurned(id: int, ins: seq<Part>, out: ListOutput, oracle: ListFunction)
    requires IsCall(id) && PartsOf(id, true) == Kinds(ins) + [FU] && PartsOf(id, false) == [AU] && AllFit(ins)
    requires forall room :: Allocatable(|oracle(ins, room).list| * 8)
    ensures AllFit(ins + [ListBufferPart(out)])
    ensures ServeList(id, ins + [ListBufferPart(out)], oracle) == Turned(ListService(oracle), id, ins + [ListBufferPart(out)])
  {
    hide Received, Carried, PartsOf, FilterList, Granted, Kinds;
    var p := ListBufferPart(out);
    var ps := ins + [p];
    ListCarried(id, ins, p);
    ReceivedIff(id, ps);
    assert ps[..|ps| - 1] == ins && ps[|ps| - 1] == p;
    ListFitsWire(id, ps, oracle);
  }

  /** The client reads what the proxy function says. */
  lemma ListConversed(id: int, ins: seq<Part>, out: ListOutput, oracle: ListFunction)
    requires IsCall(id) && PartsOf(id, true) == Kinds(ins) + [FU] && PartsOf(id, false) == [AU] && forall p <- ins :: Passes(p)
    requires forall room :: Allocatable(|oracle(ins, room).list| * 8)
    ensures ProxiedList(id, ins, out, oracle) == ReadList(out, Conversed(ListService(oracle), id, ins + [ListBufferPart(out)]))
  {
    hide PartsOf, Admitted, ServeList, ReadList, Kinds, Turned, Received, Answered, Carried, Passes;
    ListAdmitted(id, ins, out);
    PassingFit(ins);
    ListCarried(id, ins, ListBufferPart(out));
    ListTurned(id, ins, out, oracle);
    ReceivedIff(id, ins + [ListBufferPart(out)]);
  }

  /** OUT_ULONG_ARRAY on a response that stands ready. */
  method OutUlongArray(cresp: Message, id: int, arr: array?<Ulong>, max: Ulong, ghost ps: seq<Part>) returns (rv: Ulong, len: Ulong)
    requires IsCall(id) && PartsOf(id, false) == [AU] && Ready(cresp, id, ps)
    requires arr != null ==> max <= arr.Length
    modifies cresp, cresp.buffer`failures, arr
    ensures Shows(ReadList(ListOutput(arr == null, max), Success(ps)), rv, len, List(arr), old(List(arr)))
  {
    OnePart(AU, cresp.Contents(), cresp.parsed);
    assert Codes([AU]) == Code(AU) + Codes([]);
    hide PartsOf, DecodeAll, Decode, ReadList;
    rv, len := ReadUlongArrayInto(cresp, arr, max);
  }

  lemma ListArguments(id: int, ins: seq<Part>, p: Part, oracle: ListFunction)
    requires p.PUlongBuffer? && forall i | 0 <= i < |ins| :: Bounded(ins[i]) && Light(ins[i])
    ensures forall i | 0 <= i < |ins + [p]| :: Bounded((ins + [p])[i]) && Light((ins + [p])[i])
    ensures IsCall(id) ==> ReplyInFrame(ListService(oracle), id, ins + [p])
  {
    LightPart(p);
    hide Light, Turned, ReplyBytes, Sendable, ListReply, Admitted;
    if IsCall(id) && Admitted(id, ins + [p]).Ok? { ListTurnedShort(id, Admitted(id, ins + [p]).value, oracle); }
  }

  lemma ListTurnedShort(id: int, ps: seq<Part>, oracle: ListFunction)
    requires IsCall(id)
    ensures
      var r := Turned(ListService(oracle), id, ps);
      Sendable(id, r) ==> |ReplyBytes(id, r)| < TWO_32
  {
    hide ListReply, ReplyBytes, Sendable;
    var r := Turned(ListService(oracle), id, ps);
    if Sendable(id, r) {
      if r == ListReply(id, ps, oracle) {
        ListReplyShort(id, ps, oracle);
      } else {
        ErrorReplyShort(id, r);
      }
    }
  }

  /**
    A call with one list. If memory does not run out the caller's code, count and list are those of
    ProxiedList, which TransparentList compares with a direct call; in any case they are that, or a memory
    or device error with nothing changed.
   */
  method ListCall(creq: Message, cresp: Message, req: Message, resp: Message, id: int, ins: seq<Part>,
                  arr: array?<Ulong>, max: Ulong, oracle: ListFunction)
    returns (rv: Ulong, len: Ulong)
    requires creq.Valid() && cresp.Valid() && req.Valid() && resp.Valid()
    requires Apart(creq, cresp) && Apart(creq, req) && Apart(creq, resp) && Apart(cresp, req) && Apart(cresp, resp) && Apart(req, resp)
    requires IsCall(id) && PartsOf(id, true) == Kinds(ins) + [FU] && PartsOf(id, false) == [AU]
    requires forall i | 0 <= i < |ins| :: Bounded(ins[i]) && Light(ins[i])
    requires (forall p <- ins :: Passes(p)) && forall room :: Allocatable(|oracle(ins, room).list| * 8)
    requires arr != null ==> max <= arr.Length
    modifies creq, creq.buffer, creq.buffer.buf, cresp, cresp.buffer, cresp.buffer.buf
    modifies req, req.buffer, req.buffer.buf, resp, resp.buffer, resp.buffer.buf, arr
    ensures
      || (Exhausted(rv) && List(arr) == old(List(arr)) && len == max)
      || Shows(ProxiedList(id, ins, ListOutput(arr == null, max), oracle), rv, len, List(arr), old(List(arr)))
    ensures AllAmple(creq, cresp, req, resp) ==>
      Shows(ProxiedList(id, ins, ListOutput(arr == null, max), oracle), rv, len, List(arr), old(List(arr)))
  {
    ghost var out := ListOutput(arr == null, max);
    var p := PUlongBuffer(if arr == null then 0 else Truncate32(max));
    ghost var r;
    hide PartsOf, Kinds, Bounded, Light, Ready, ReadList, ProxiedList, Passes, Apart;
    rv, r := AskList(creq, cresp, req, resp, id, ins, p, oracle, out, AllAmple(creq, cresp, req, resp));
    len := max;
    RefusedList(out, List(arr));
    if rv == Ckr.OK {
      rv, len := OutUlongArray(cresp, id, arr, max, r.parts);
    }
  }

  lemma RefusedList(out: ListOutput, was: seq<Ulong>)
    ensures forall e: Ulong :: Shows(ReadList(out, Error(e)), e, out.count, was, was)
  {
    assert [] + was[0..] == was;
  }

  /** The call up to the response; `r` is what the client reads. */
  method AskList(creq: Message, cresp: Message, req: Message, resp: Message, id: int, ins: seq<Part>, p: Part,
                 oracle: ListFunction, ghost out: ListOutput, ghost ample: bool)
    returns (rv: Ulong, ghost r: Reply)
    requires creq.Valid() && cresp.Valid() && req.Valid() && resp.Valid()
    requires Apart(creq, cresp) && Apart(creq, req) && Apart(creq, resp) && Apart(cresp, req) && Apart(cresp, resp) && Apart(req, resp)
    requires IsCall(id) && PartsOf(id, true) == Kinds(ins) + [FU] && PartsOf(id, false) == [AU] && p == ListBufferPart(out)
    requires forall i | 0 <= i < |ins| :: Bounded(ins[i]) && Light(ins[i])
    requires (forall p <- ins :: Passes(p)) && forall room :: Allocatable(|oracle(ins, room).list| * 8)
    requires ample ==> AllAmple(creq, cresp, req, resp)
    modifies creq, creq.buffer, creq.buffer.buf, cresp, cresp.buffer, cresp.buffer.buf
    modifies req, req.buffer, req.buffer.buf, resp, resp.buffer, resp.buffer.buf
    ensures cresp.Valid() && (cresp.buffer.buf == old(cresp.buffer.buf) || fresh(cresp.buffer.buf))
    ensures
      || (!ample && Exhausted(rv))
      || (ProxiedList(id, ins, out, oracle) == ReadList(out, r)
          && if r.Error? then rv == r.rv != Ckr.OK else rv == Ckr.OK && Ready(cresp, id, r.parts))
  {
    ListArguments(id, ins, p, oracle);
    ListServiceOk(oracle);
    ListConversed(id, ins, out, oracle);
    ListRequest(id, ins, out);
    hide PartsOf, Kinds, Bounded, Light, ServiceOk, Ready, ReadList, ProxiedList, Conversed, ReplyInFrame, RequestInFrame, Apart, Passes;
    r := Conversed(ListService(oracle), id, ins + [p]);
    rv := Ask(creq, cresp, req, resp, id, ins + [p], ListService(oracle), ample);
  }

  /** Requests for lists are short. */
  lemma ListRequest(id: int, ins: seq<Part>, out: ListOutput)
    requires IsCall(id) && PartsOf(id, true) == Kinds(ins) + [FU] && forall p <- ins :: Passes(p)
    ensures Kinds(ins + [ListBufferPart(out)]) == PartsOf(id, true) && RequestInFrame(id, ins + [ListBufferPart(out)])
  {
    hide PartsOf, Admitted, Kinds, Passes, EncodeMessage;
    ListAdmitted(id, ins, out);
    ListCarried(id, ins, ListBufferPart(out));
  }
}
