/**
  The client's call states and their shared pool, and the daemon loops at the other end of each
  connection, as one state machine. Threads and daemon loops interleave step by step; every socket
  transfer moves an arbitrary number of bytes.
 */
module CallPool {
  import opened Bytes
  import opened Signature
  import opened Wire
  import opened Proxy
  import opened Verdicts
  import opened Replies
  import opened Framing
  import Ckr

  const MAX_CALL_STATE_POOL := 8
  const APP_ID_SIZE := 8

  type Id = nat

  datatype Status = INVALID | READY | PREP | TRANSIT | PARSE

  /** A heap-allocated CallState; `next` links the pooled ones. */
  datatype CallState = CallState(status: Status, socket: Option<Id>, next: Option<Id>)

  datatype Exchange = Exchange(request: seq<Byte>, reply: seq<Byte>)

  /**
    A connection: bytes in flight each way, and the daemon loop's progress with it: application id
    bytes still expected, the request frame read so far, the reply frame still to be written. `log`
    lists the requests the daemon served with its replies, `done` what the client took them to be.
   */
  datatype Conn = Conn(up: seq<Byte>, down: seq<Byte>, alive: bool, appId: nat, got: seq<Byte>, out: seq<Byte>,
                       log: seq<Exchange>, done: seq<Exchange>)

  /** Where a thread is between call_lookup and call_done; `unread` after a response could not be reserved. */
  datatype Phase =
    | Looked
    | Building
    | Talking(id: int, req: seq<Byte>, rest: seq<Byte>, read: seq<Byte>, reserved: bool)
    | Finishing(rv: Ulong, unread: bool)

  datatype Thread = Connecting | Holding(cs: Id, phase: Phase)

  datatype State = State(heap: map<Id, CallState>, head: Option<Id>, n: nat, threads: map<Id, Thread>, conns: map<Id, Conn>)

  const INIT := State(map[], None, 0, map[], map[])

  /** Bytes a frame reader may take next: the rest of the length word, then the rest of the body. */
  function Need(read: seq<Byte>): int {
    if |read| < 4 then 4 - |read| else 4 + DecodeUint32(read[..4]) - |read|
  }

  /** A whole frame has been read. */
  predicate Whole(read: seq<Byte>) {
    |read| >= 4 && Need(read) == 0
  }

  // ----- Steps ------------------------------------------------------------------------------

  datatype Step =
    | Pop(t: Id)
    | SawEmpty(t: Id)
    | Connect(t: Id, c: Id, k: Id, appId: seq<Byte>)
    | ConnectFail(t: Id)
    | Prepare(t: Id)
    | Abandon(t: Id, rv: Ulong)
    | Run(t: Id, id: int, parts: seq<Part>)
    | Send(t: Id, count: nat)
    | Recv(t: Id, count: nat)
    | Reserve(t: Id)
    | ReserveFail(t: Id)
    | Break(t: Id, disconnect: bool)
    | Complete(t: Id, out: Ulong)
    | Done(t: Id)
    | DaemonRecv(k: Id, count: nat)
    | DaemonServe(k: Id, reply: Reply)
    | DaemonSend(k: Id, count: nat)
    | DaemonClose(k: Id)

  predicate At(s: State, t: Id) {
    t in s.threads && s.threads[t].Holding? && s.threads[t].cs in s.heap
  }

  /** The thread is inside call_send_recv on an open connection. */
  predicate Talks(s: State, t: Id) {
    && At(s, t)
    && s.threads[t].phase.Talking?
    && s.heap[s.threads[t].cs].socket.Some?
    && s.heap[s.threads[t].cs].socket.value in s.conns
  }

  function ConnId(s: State, t: Id): Id
    requires Talks(s, t)
  {
    s.heap[s.threads[t].cs].socket.value
  }

  /** The request is one the client builds, and its length fits the length word. */
  predicate Requestable(id: int, ps: seq<Part>) {
    && IsCall(id) && AllFit(ps) && Kinds(ps) == PartsOf(id, true) && |EncodeMessage(id, true, ps)| < TWO_32
  }

  /** The call id of a request. */
  function CallId(request: seq<Byte>): int {
    match ParseHeader(request, true)
    case Short => CALL_ERROR
    case Got(id, _) => id
  }

  /** A reply the daemon can send to a request; its length fits the length word. */
  predicate Replying(request: seq<Byte>, reply: Reply) {
    Sendable(CallId(request), reply) && |ReplyBytes(CallId(request), reply)| < TWO_32
  }

  function ReplyText(request: seq<Byte>, reply: Reply): seq<Byte>
    requires Replying(request, reply)
  {
    ReplyBytes(CallId(request), reply)
  }

  /** The client has read a whole frame. */
  predicate HasReply(s: State, t: Id) {
    Talks(s, t) && s.threads[t].phase.reserved && Whole(s.threads[t].phase.read)
  }

  /** What call_run makes of it. */
  function Ruling(s: State, t: Id): Verdict
    requires HasReply(s, t)
  {
    Judge(s.threads[t].phase.id, s.threads[t].phase.read[4..])
  }

  predicate Discards(rv: Ulong) {
    rv == Ckr.DEVICE_ERROR || rv == Ckr.DEVICE_REMOVED
  }

  predicate Enabled(s: State, step: Step) {
    match step
    case Pop(t) => t !in s.threads && s.head.Some? && s.head.value in s.heap
    case SawEmpty(t) => t !in s.threads && s.head.None?
    case Connect(t, c, k, appId) =>
      t in s.threads && s.threads[t].Connecting? && c !in s.heap && k !in s.conns && |appId| == APP_ID_SIZE
    case ConnectFail(t) => t in s.threads && s.threads[t].Connecting?
    case Prepare(t) => At(s, t) && s.threads[t].phase.Looked?
    case Abandon(t, _) => At(s, t) && (s.threads[t].phase.Looked? || s.threads[t].phase.Building?)
    case Run(t, id, ps) => At(s, t) && s.threads[t].phase.Building? && Requestable(id, ps)
    case Send(t, count) => Talks(s, t) && 0 < count <= |s.threads[t].phase.rest|
    case Recv(t, count) =>
      && Talks(s, t)
      && var p := s.threads[t].phase;
      && p.rest == []
      && (|p.read| < 4 || p.reserved)
      && 0 < count <= |s.conns[ConnId(s, t)].down|
      && count <= Need(p.read)
    case Reserve(t) => Talks(s, t) && |s.threads[t].phase.read| == 4 && !s.threads[t].phase.reserved
    case ReserveFail(t) =>
      && Talks(s, t) && |s.threads[t].phase.read| == 4 && !s.threads[t].phase.reserved
      && DecodeUint32(s.threads[t].phase.read) >= FIRST_CAPACITY
    case Break(t, _) => Talks(s, t)
    case Complete(t, _) => HasReply(s, t) && !Ruling(s, t).Aborts?
    case Done(t) => At(s, t) && s.threads[t].phase.Finishing?
    case DaemonRecv(k, count) =>
      && k in s.conns
      && var d := s.conns[k];
      && d.alive && d.out == []
      && 0 < count <= |d.up|
      && (if d.appId > 0 then count <= d.appId
          else count <= Need(d.got) && (|d.got| >= 4 ==> DecodeUint32(d.got[..4]) < MAX_REQUEST))
    case DaemonServe(k, reply) =>
      k in s.conns && s.conns[k].alive && s.conns[k].out == [] && Whole(s.conns[k].got) && Replying(s.conns[k].got[4..], reply)
    case DaemonSend(k, count) => k in s.conns && s.conns[k].alive && 0 < count <= |s.conns[k].out|
    case DaemonClose(k) => k in s.conns
  }

  function SetPhase(s: State, t: Id, p: Phase): State
    requires At(s, t)
  {
    s.(threads := s.threads[t := Holding(s.threads[t].cs, p)])
  }

  function SetCall(s: State, c: Id, cs: CallState): State {
    s.(heap := s.heap[c := cs])
  }

  function SetConn(s: State, k: Id, d: Conn): State {
    s.(conns := s.conns[k := d])
  }

  /** One read of the daemon loop. */
  function DaemonReads(d: Conn, count: nat): Conn
    requires count <= |d.up|
  {
    if d.appId > 0 then d.(up := d.up[count..], appId := if count <= d.appId then d.appId - count else 0)
    else d.(up := d.up[count..], got := d.got + d.up[..count])
  }

  /** One write of the daemon loop; after the last byte it goes back to reading a length word. */
  function DaemonWrites(d: Conn, count: nat): Conn
    requires count <= |d.out|
  {
    d.(down := d.down + d.out[..count], out := d.out[count..], got := if count == |d.out| then [] else d.got)
  }

  function DaemonAnswers(d: Conn, reply: seq<Byte>): Conn
    requires |d.got| >= 4
  {
    d.(out := Frame(reply), log := d.log + [Exchange(d.got[4..], reply)])
  }

  /** The client takes what it has read for the reply to its request, unless that is CKR_DEVICE_ERROR. */
  function Accepts(d: Conn, p: Phase): Conn
    requires p.Talking? && |p.read| >= 4
  {
    if Judge(p.id, p.read[4..]) == Returns(Ckr.DEVICE_ERROR) then d
    else d.(done := d.done + [Exchange(p.req, p.read[4..])])
  }

  /** call_done: back into the pool, or destroyed. */
  function Release(s: State, t: Id): State
    requires At(s, t) && s.threads[t].phase.Finishing?
  {
    var c := s.threads[t].cs;
    var s1 := s.(threads := s.threads - {t});
    if !Discards(s.threads[t].phase.rv) && s.heap[c].socket.Some? && s.n < MAX_CALL_STATE_POOL then
      SetCall(s1, c, s.heap[c].(status := READY, next := s.head)).(head := Some(c), n := s.n + 1)
    else s1.(heap := s.heap - {c})
  }

  function Apply(s: State, step: Step): State
    requires Enabled(s, step)
  {
    match step
    case Pop(t) =>
      var c := s.head.value;
      SetCall(s, c, s.heap[c].(next := None)).(head := s.heap[c].next, n := if s.n > 0 then s.n - 1 else 0,
        threads := s.threads[t := Holding(c, Looked)])
    case SawEmpty(t) => s.(threads := s.threads[t := Connecting])
    case Connect(t, c, k, appId) =>
      s.(heap := s.heap[c := CallState(READY, Some(k), None)], threads := s.threads[t := Holding(c, Looked)],
         conns := s.conns[k := Conn(appId, [], true, APP_ID_SIZE, [], [], [], [])])
    case ConnectFail(t) => s.(threads := s.threads - {t})
    case Prepare(t) =>
      var c := s.threads[t].cs;
      SetPhase(SetCall(s, c, s.heap[c].(status := PREP)), t, Building)
    case Abandon(t, rv) => SetPhase(s, t, Finishing(rv, false))
    case Run(t, id, ps) =>
      var c := s.threads[t].cs;
      var req := EncodeMessage(id, true, ps);
      SetPhase(SetCall(s, c, s.heap[c].(status := TRANSIT)), t, Talking(id, req, Frame(req), [], false))
    case Send(t, count) =>
      var p, k := s.threads[t].phase, ConnId(s, t);
      SetPhase(SetConn(s, k, s.conns[k].(up := s.conns[k].up + p.rest[..count])), t, p.(rest := p.rest[count..]))
    case Recv(t, count) =>
      var p, k := s.threads[t].phase, ConnId(s, t);
      var d := s.conns[k];
      SetPhase(SetConn(s, k, d.(down := d.down[count..])), t, p.(read := p.read + d.down[..count]))
    case Reserve(t) => SetPhase(s, t, s.threads[t].phase.(reserved := true))
    case ReserveFail(t) =>
      var c := s.threads[t].cs;
      SetPhase(SetCall(s, c, s.heap[c].(status := PARSE)), t, Finishing(Ckr.HOST_MEMORY, true))
    case Break(t, disconnect) =>
      var c := s.threads[t].cs;
      var cs := s.heap[c].(status := PARSE);
      SetPhase(SetCall(s, c, if disconnect then cs.(socket := None) else cs), t, Finishing(Ckr.DEVICE_ERROR, false))
    case Complete(t, out) =>
      var c, k := s.threads[t].cs, ConnId(s, t);
      SetPhase(SetCall(SetConn(s, k, Accepts(s.conns[k], s.threads[t].phase)), c, s.heap[c].(status := PARSE)),
               t, Finishing(if Ruling(s, t).Returns? then Ruling(s, t).rv else out, false))
    case Done(t) => Release(s, t)
    case DaemonRecv(k, count) => SetConn(s, k, DaemonReads(s.conns[k], count))
    case DaemonServe(k, reply) =>
      var d := s.conns[k];
      SetConn(s, k, DaemonAnswers(d, ReplyText(d.got[4..], reply)))
    case DaemonSend(k, count) => SetConn(s, k, DaemonWrites(s.conns[k], count))
    case DaemonClose(k) => SetConn(s, k, s.conns[k].(alive := false))
  }

  /** The asserts of call_lookup, call_prepare, call_run, call_send_recv and call_done at a step. */
  predicate AssertsHold(s: State, step: Step)
    requires Enabled(s, step)
  {
    match step
    case Pop(t) =>
      && s.n > 0
      && var cs := Apply(s, step).heap[s.head.value];
      && cs.status == READY && cs.socket.Some? && cs.next.None?
    case Prepare(t) => s.heap[s.threads[t].cs].status == READY
    case Run(t, _, _) => s.heap[s.threads[t].cs].status == PREP && s.heap[s.threads[t].cs].socket.Some?
    case Reserve(t) => s.heap[s.threads[t].cs].status == TRANSIT
    case ReserveFail(t) => s.heap[s.threads[t].cs].status == TRANSIT
    case Break(t, _) => s.heap[s.threads[t].cs].status == TRANSIT
    case Complete(t, _) => s.heap[s.threads[t].cs].status == TRANSIT
    case Done(t) => s.heap[s.threads[t].cs].status != INVALID && s.heap[s.threads[t].cs].next.None?
    case _ => true
  }

  // ----- Invariant --------------------------------------------------------------------------

  /** At a frame boundary: nothing unread, nothing half sent, every exchange completed. */
  predicate Idle(d: Conn) {
    |d.up| == d.appId && d.down == [] && d.got == [] && d.out == [] && d.log == d.done
  }

  /** An unread response is in front of the next reply. */
  ghost predicate Spoilt(d: Conn) {
    exists b, id :: Unread(b, id) && Fronted(b, id, d.down + d.out)
  }

  /** Nobody uses the connection; if the run is clean there is nothing on it. */
  ghost predicate AtRest(d: Conn, clean: bool) {
    Idle(d) || (!clean && Spoilt(d))
  }

  /** The request is on its way: what the daemon read, the wire and the client hold make up its frame. */
  predicate Asking(d: Conn, p: Phase)
    requires p.Talking?
  {
    && d.down == [] && d.out == [] && d.log == d.done && p.read == [] && !p.reserved
    && d.appId <= |d.up| && (d.appId > 0 ==> d.got == [])
    && d.got + d.up[d.appId..] + p.rest == Frame(p.req)
  }

  /** The reply is on its way: what the client read, the wire and the daemon hold make up its frame. */
  ghost predicate Answering(d: Conn, p: Phase)
    requires p.Talking?
  {
    && d.up == [] && d.appId == 0 && p.rest == []
    && (d.out == [] ==> d.got == [])
    && |d.log| == |d.done| + 1 && d.log[..|d.done|] == d.done
    && var e := d.log[|d.done|];
    && e.request == p.req && |e.reply| < TWO_32 && IsReply(e.reply)
    && p.read + d.down + d.out == Frame(e.reply)
    && (p.reserved ==> |p.read| >= 4)
  }

  /** The client is about to take an unread response for its reply. */
  ghost predicate Misled(d: Conn, p: Phase)
    requires p.Talking?
  {
    && (p.reserved ==> |p.read| >= 4)
    && exists b, id :: Unread(b, id) && Fronted(b, id, p.read + d.down + d.out)
  }

  ghost predicate TalkOk(d: Conn, p: Phase, clean: bool)
    requires p.Talking?
  {
    IsCall(p.id) && |p.req| < TWO_32 && (Asking(d, p) || Answering(d, p) || (!clean && Misled(d, p)))
  }

  predicate Owns(s: State, c: Id) {
    c in s.heap && s.heap[c].socket.Some? && s.heap[c].socket.value in s.conns
  }

  ghost predicate PooledOk(s: State, c: Id, clean: bool) {
    Owns(s, c) && s.heap[c].status == READY && AtRest(s.conns[s.heap[c].socket.value], clean)
  }

  ghost predicate HeldOk(s: State, c: Id, p: Phase, clean: bool) {
    && c in s.heap && s.heap[c].next.None?
    && match p
       case Looked => PooledOk(s, c, clean)
       case Building => Owns(s, c) && s.heap[c].status == PREP && AtRest(s.conns[s.heap[c].socket.value], clean)
       case Talking(_, _, _, _, _) => Owns(s, c) && s.heap[c].status == TRANSIT && TalkOk(s.conns[s.heap[c].socket.value], p, clean)
       case Finishing(rv, unread) =>
         && s.heap[c].status != INVALID
         && (s.heap[c].socket.Some? ==> Owns(s, c))
         && (s.heap[c].socket.Some? && !Discards(rv) && !unread ==> AtRest(s.conns[s.heap[c].socket.value], clean))
         && (unread ==> Owns(s, c) && !Discards(rv) && Spoilt(s.conns[s.heap[c].socket.value]))
  }

  /** `chain` is the linked list from the pool's head to its NULL end. */
  predicate Linked(heap: map<Id, CallState>, head: Option<Id>, chain: seq<Id>)
    decreases |chain|
  {
    if chain == [] then head.None?
    else head == Some(chain[0]) && chain[0] in heap && Linked(heap, heap[chain[0]].next, chain[1..])
  }

  predicate Distinct(chain: seq<Id>) {
    forall i, j | 0 <= i < j < |chain| :: chain[i] != chain[j]
  }

  predicate Holds(s: State, t: Id, c: Id) {
    t in s.threads && s.threads[t].Holding? && s.threads[t].cs == c
  }

  /** No call state is held twice or both held and pooled, and no two share a connection. */
  ghost predicate Exclusive(s: State, chain: seq<Id>) {
    && (forall t, c | Holds(s, t, c) :: c !in chain)
    && (forall t, u, c | Holds(s, t, c) && Holds(s, u, c) :: t == u)
    && (forall c, d | c in s.heap && d in s.heap && c != d ::
          s.heap[c].socket.None? || s.heap[c].socket != s.heap[d].socket)
    && (forall c | c in s.heap && s.heap[c].socket.Some? :: Owns(s, c))
  }

  /** The invariant of every run, and with `clean` of those that never pool an unread response. */
  ghost predicate Inv(s: State, chain: seq<Id>, clean: bool) {
    && Linked(s.heap, s.head, chain) && Distinct(chain)
    && s.n == |chain| <= MAX_CALL_STATE_POOL
    && (forall c <- chain :: PooledOk(s, c, clean))
    && (forall t, c | Holds(s, t, c) :: HeldOk(s, c, s.threads[t].phase, clean))
    && Exclusive(s, chain)
    && (forall k | k in s.conns :: s.conns[k].done <= s.conns[k].log)
  }

  // ----- Connections ------------------------------------------------------------------------

  /** What a daemon step may do to a connection: nothing that any client phase could object to. */
  ghost predicate Harmless(d: Conn, e: Conn) {
    && e.done == d.done && (d.done <= d.log ==> e.done <= e.log)
    && (Idle(d) ==> Idle(e)) && (Spoilt(d) ==> Spoilt(e))
    && (forall p: Phase, clean: bool | p.Talking? && TalkOk(d, p, clean) :: TalkOk(e, p, clean))
  }

  /** The stream that the client reads only grows at its end. */
  lemma Onward(d: Conn, e: Conn)
    requires d.down + d.out <= e.down + e.out
    ensures Spoilt(d) ==> Spoilt(e)
    ensures forall p: Phase | p.Talking? && Misled(d, p) :: Misled(e, p)
  {
    hide Unread;
    if Spoilt(d) {
      var b, id :| Unread(b, id) && Fronted(b, id, d.down + d.out);
      assert Fronted(b, id, e.down + e.out);
    }
    forall p: Phase | p.Talking? && Misled(d, p) ensures Misled(e, p) {
      var b, id :| Unread(b, id) && Fronted(b, id, p.read + d.down + d.out);
      assert p.read + d.down + d.out == p.read + (d.down + d.out) && p.read + e.down + e.out == p.read + (e.down + e.out);
      assert Fronted(b, id, p.read + e.down + e.out);
    }
  }

  /** The same stream, for the client and for those that come after it. */
  lemma SameStream(d: Conn, p: Phase, e: Conn, q: Phase)
    requires p.Talking? && q.Talking? && p.read + d.down + d.out == q.read + e.down + e.out
    requires Misled(d, p) && (q.reserved ==> |q.read| >= 4)
    ensures Misled(e, q)
  {
    hide Unread, Fronted;
  }

  /** A prefix of a frame that announces its own length is the whole frame. */
  lemma WholePrefix(read: seq<Byte>, more: seq<Byte>, payload: seq<Byte>)
    requires read + more == Frame(payload) && |payload| < TWO_32 && |read| >= 4
    ensures DecodeUint32(read[..4]) == |payload|
    ensures Whole(read) ==> more == [] && read[4..] == payload
  {
    FrameLengthIff(payload);
    assert read[..4] == Frame(payload)[..4];
    if Whole(read) { assert read + more == read && read[4..] == Frame(payload)[4..]; }
  }

  lemma DaemonRecvHarmless(d: Conn, count: nat)
    requires d.out == [] && 0 < count <= |d.up| && (d.appId > 0 ==> count <= d.appId)
    ensures Harmless(d, DaemonReads(d, count))
  {
    hide Spoilt, Misled;
    var e := DaemonReads(d, count);
    Onward(d, e);
    forall p: Phase, clean: bool | p.Talking? && TalkOk(d, p, clean) ensures TalkOk(e, p, clean) {
      if Asking(d, p) {
        if d.appId > 0 {
          assert e.up[e.appId..] == d.up[d.appId..];
        } else {
          assert e.got + e.up[0..] == d.got + d.up[0..];
        }
        assert Asking(e, p);
      }
    }
  }

  lemma DaemonServeHarmless(d: Conn, reply: seq<Byte>)
    requires d.out == [] && Whole(d.got) && |reply| < TWO_32 && IsReply(reply)
    ensures Harmless(d, DaemonAnswers(d, reply))
  {
    hide Spoilt, Misled, IsReply;
    var e := DaemonAnswers(d, reply);
    assert d.down + d.out <= e.down + e.out;
    Onward(d, e);
    forall p: Phase, clean: bool | p.Talking? && TalkOk(d, p, clean) ensures TalkOk(e, p, clean) {
      if Asking(d, p) {
        var more := d.up[d.appId..] + p.rest;
        assert d.got + more == Frame(p.req);
        WholePrefix(d.got, more, p.req);
        assert p.read + e.down + e.out == Frame(reply);
        assert Answering(e, p);
      }
    }
  }

  lemma DaemonSendHarmless(d: Conn, count: nat)
    requires 0 < count <= |d.out|
    ensures Harmless(d, DaemonWrites(d, count))
  {
    hide Spoilt, Misled, IsReply;
    var e := DaemonWrites(d, count);
    assert d.down + d.out == e.down + e.out;
    Onward(d, e);
    forall p: Phase, clean: bool | p.Talking? && TalkOk(d, p, clean) ensures TalkOk(e, p, clean) {
      if Answering(d, p) {
        assert p.read + e.down + e.out == p.read + d.down + d.out;
        assert Answering(e, p);
      }
    }
  }

  lemma ClientAsks(d: Conn, id: int, req: seq<Byte>, clean: bool)
    requires AtRest(d, clean) && |req| < TWO_32 && IsCall(id)
    ensures TalkOk(d, Talking(id, req, Frame(req), [], false), clean)
  {
    hide Unread, Fronted;
    var p := Talking(id, req, Frame(req), [], false);
    if Idle(d) {
      assert d.got + d.up[d.appId..] + Frame(req) == Frame(req);
      assert Asking(d, p);
    } else {
      assert p.read + d.down + d.out == d.down + d.out;
      assert Misled(d, p);
    }
  }

  lemma ClientReserves(d: Conn, p: Phase, clean: bool)
    requires p.Talking? && TalkOk(d, p, clean) && |p.read| == 4
    ensures TalkOk(d, p.(reserved := true), clean)
  {
    hide IsReply, Fronted, Unread;
    if Answering(d, p) {
      assert Answering(d, p.(reserved := true));
    } else {
      SameStream(d, p, d, p.(reserved := true));
    }
  }

  lemma ClientSends(d: Conn, p: Phase, count: nat, clean: bool)
    requires p.Talking? && TalkOk(d, p, clean) && 0 < count <= |p.rest|
    ensures TalkOk(d.(up := d.up + p.rest[..count]), p.(rest := p.rest[count..]), clean)
  {
    hide Misled;
    var e, q := d.(up := d.up + p.rest[..count]), p.(rest := p.rest[count..]);
    if Asking(d, p) {
      assert e.up[e.appId..] == d.up[d.appId..] + p.rest[..count];
      assert e.got + e.up[e.appId..] + q.rest == d.got + d.up[d.appId..] + p.rest;
      assert Asking(e, q);
    } else {
      assert p.reserved ==> |p.read| >= 4 by { MisledReserved(d, p); }
      SameStream(d, p, e, q);
    }
  }

  lemma MisledReserved(d: Conn, p: Phase)
    requires p.Talking? && Misled(d, p)
    ensures p.reserved ==> |p.read| >= 4
  {
    hide Unread, Fronted;
  }

  lemma ClientReads(d: Conn, p: Phase, count: nat, clean: bool)
    requires p.Talking? && TalkOk(d, p, clean) && 0 < count <= |d.down|
    ensures TalkOk(d.(down := d.down[count..]), p.(read := p.read + d.down[..count]), clean)
  {
    hide Misled, IsReply;
    var e, q := d.(down := d.down[count..]), p.(read := p.read + d.down[..count]);
    assert q.read + e.down + e.out == p.read + d.down + d.out;
    if Answering(d, p) {
      assert Answering(e, q);
    } else {
      MisledReserved(d, p);
      SameStream(d, p, e, q);
    }
  }

  /** The frame at the front of a stream. */
  lemma FrameAt(read: seq<Byte>, more: seq<Byte>)
    requires Whole(read)
    ensures
      var stream := read + more;
      && |stream| >= 4 + DecodeUint32(stream[..4]) && read[4..] == stream[4..4 + DecodeUint32(stream[..4])]
  {
    var stream := read + more;
    assert stream[..4] == read[..4] && stream[..|read|] == read;
    hide DecodeUint32;
    assert stream[4..|read|] == stream[..|read|][4..];
  }

  /** A whole frame that was cut from an unread response is no reply. */
  lemma MisledRead(d: Conn, p: Phase)
    requires p.Talking? && Misled(d, p) && Whole(p.read) && IsCall(p.id)
    ensures Judge(p.id, p.read[4..]) == Returns(Ckr.DEVICE_ERROR) || Judge(p.id, p.read[4..]) == Aborts
  {
    hide Judge, Fronted, Unread;
    var b, id :| Unread(b, id) && Fronted(b, id, p.read + d.down + d.out);
    assert p.read + d.down + d.out == p.read + (d.down + d.out);
    MisledFrame(p.read, d.down + d.out, b, id, p.id);
  }

  lemma MisledFrame(read: seq<Byte>, more: seq<Byte>, b: seq<Byte>, id: int, call: int)
    requires Whole(read) && IsCall(call) && Unread(b, id) && Fronted(b, id, read + more)
    ensures IsCall(id)
    ensures Judge(call, read[4..])
         == if b <= read + more && id >= 4 && SignatureLength(id) == call then Aborts else Returns(Ckr.DEVICE_ERROR)
  {
    FrameAt(read, more);
    Misjudged(b, id, read + more, call);
    hide Judge, Fronted, Unread, Whole, DecodeUint32, SignatureLength;
  }

  /** A client that has read a whole frame has read the daemon's reply to its own request, or no reply at all. */
  lemma ReplyRead(d: Conn, p: Phase, clean: bool)
    requires p.Talking? && TalkOk(d, p, clean) && Whole(p.read)
    ensures
      || (d.log == d.done + [Exchange(p.req, p.read[4..])] && Idle(d.(done := d.log)) && IsReply(p.read[4..]))
      || (!clean && (Judge(p.id, p.read[4..]) == Returns(Ckr.DEVICE_ERROR) || Judge(p.id, p.read[4..]) == Aborts))
  {
    hide IsReply, Judge, Misled;
    if Answering(d, p) {
      var e := d.log[|d.done|];
      assert p.read + (d.down + d.out) == Frame(e.reply);
      WholePrefix(p.read, d.down + d.out, e.reply);
      assert d.log == d.log[..|d.done|] + [e];
    } else {
      MisledRead(d, p);
    }
  }

  /** What the client takes for its reply leaves the connection at rest. */
  lemma AcceptOk(d: Conn, p: Phase, clean: bool)
    requires p.Talking? && TalkOk(d, p, clean) && Whole(p.read) && !Judge(p.id, p.read[4..]).Aborts?
    ensures d.done <= d.log ==> Accepts(d, p).done <= Accepts(d, p).log
    ensures Judge(p.id, p.read[4..]) == Returns(Ckr.DEVICE_ERROR) || AtRest(Accepts(d, p), clean)
  {
    ReplyRead(d, p, clean);
    hide Judge, Spoilt, IsReply, TalkOk;
  }

  /** A reply of the daemon never makes the client abort. */
  lemma ReplyNeverAborts(b: seq<Byte>, call: int)
    requires IsReply(b) && IsCall(call)
    ensures !Judge(call, b).Aborts?
  {
    var id, r :| Sendable(id, r) && b == ReplyBytes(id, r);
    hide Judge, Header, EncodeAll, Sendable, PartsOf;
    JudgeParsed(call, b);
    match r
    case Success(ps) => HeaderRoundTrip(id, false, EncodeAll(ps));
    case Error(rv) => HeaderRoundTrip(CALL_ERROR, false, EncodeAll([PUlong(Truncate32(rv))]));
  }

  /** A response that could not be reserved is in front of the connection when the call is over. */
  lemma UnreadBody(d: Conn, p: Phase, clean: bool)
    requires p.Talking? && TalkOk(d, p, clean) && |p.read| == 4 && DecodeUint32(p.read) >= FIRST_CAPACITY
    ensures Spoilt(d)
    ensures clean ==> |d.done| < |d.log| && d.down + d.out == d.log[|d.done|].reply
  {
    hide Unread, IsReply;
    if Answering(d, p) {
      var e := d.log[|d.done|];
      assert p.read + (d.down + d.out) == Frame(e.reply) && d.down + d.out == Frame(e.reply)[4..] == e.reply;
      WholePrefix(p.read, d.down + d.out, e.reply);
      assert p.read[..4] == p.read;
      var id := LongReply(e.reply);
      assert Fronted(e.reply, id, d.down + d.out);
    } else {
      MisledFails(d, p);
    }
  }

  lemma MisledFails(d: Conn, p: Phase)
    requires p.Talking? && Misled(d, p) && |p.read| == 4 && DecodeUint32(p.read) >= FIRST_CAPACITY
    ensures Spoilt(d)
  {
    hide Unread;
    var stream := p.read + d.down + d.out;
    var b, id :| Unread(b, id) && Fronted(b, id, stream);
    FrontLength(b, id, stream);
    assert stream[..4] == p.read && stream[4..] == d.down + d.out;
    assert b <= stream;
    UnreadFront(b, id);
    assert b[4..] <= stream[4..];
    assert Fronted(b, id, d.down + d.out);
  }

  // ----- Steps keep the invariant -----------------------------------------------------------

  lemma {:induction false} LinkedFrame(heap: map<Id, CallState>, heap': map<Id, CallState>, head: Option<Id>, chain: seq<Id>)
    requires Linked(heap, head, chain)
    requires forall c <- chain :: c in heap && c in heap' && heap'[c].next == heap[c].next
    ensures Linked(heap', head, chain)
    decreases |chain|
  {
    if chain == [] {
    } else {
      LinkedFrame(heap, heap', heap[chain[0]].next, chain[1..]);
    }
  }

  lemma DaemonStep(s: State, chain: seq<Id>, k: Id, e: Conn, clean: bool)
    requires Inv(s, chain, clean) && k in s.conns && Harmless(s.conns[k], e)
    ensures Inv(SetConn(s, k, e), chain, clean)
  {
    hide HeldOk, PooledOk, Linked, Distinct, Idle, Spoilt, TalkOk;
    var s' := SetConn(s, k, e);
    forall c <- chain ensures PooledOk(s', c, clean) {
      HarmlessOthers(s, k, e, c, Looked, clean);
    }
    forall t, c | Holds(s', t, c) ensures HeldOk(s', c, s'.threads[t].phase, clean) {
      assert Holds(s, t, c);
      HarmlessOthers(s, k, e, c, s.threads[t].phase, clean);
    }
    assert forall t, c :: Holds(s', t, c) ==> Holds(s, t, c);
  }

  /** No call state minds a harmless step. */
  lemma HarmlessOthers(s: State, k: Id, e: Conn, c: Id, p: Phase, clean: bool)
    requires k in s.conns && Harmless(s.conns[k], e)
    ensures PooledOk(s, c, clean) ==> PooledOk(SetConn(s, k, e), c, clean)
    ensures HeldOk(s, c, p, clean) ==> HeldOk(SetConn(s, k, e), c, p, clean)
  {
    hide Idle, Spoilt, TalkOk;
  }

  /** Nor one whose own state and connection stay as they are. */
  lemma Unnoticed(s: State, s': State, c: Id, p: Phase, clean: bool)
    requires c in s.heap ==> c in s'.heap && s'.heap[c] == s.heap[c]
    requires forall k | k in s.conns :: k in s'.conns && s'.conns[k] == s.conns[k]
    ensures PooledOk(s, c, clean) ==> PooledOk(s', c, clean)
    ensures HeldOk(s, c, p, clean) ==> HeldOk(s', c, p, clean)
  {
    hide AtRest, Spoilt, TalkOk;
  }

  /** A step of thread `t` on its own call state, phase and connection. */
  ghost predicate OwnStep(s: State, s': State, t: Id, clean: bool) {
    && t in s.threads && s.threads[t].Holding? && s.threads[t].cs in s.heap
    && var c := s.threads[t].cs;
    && c in s'.heap && s' == s.(heap := s.heap[c := s'.heap[c]], threads := s'.threads, conns := s'.conns)
    && t in s'.threads && s'.threads == s.threads[t := s'.threads[t]]
    && s'.threads[t].Holding? && s'.threads[t].cs == c
    && (s'.heap[c].socket == s.heap[c].socket || s'.heap[c].socket.None?)
    && s'.conns.Keys == s.conns.Keys
    && (forall k | k in s.conns :: s'.conns[k] == s.conns[k] || s.heap[c].socket == Some(k))
    && (forall k | k in s'.conns :: s'.conns[k].done <= s'.conns[k].log)
    && HeldOk(s', c, s'.threads[t].phase, clean)
  }

  lemma OwnStepExclusive(s: State, s': State, chain: seq<Id>, t: Id, clean: bool)
    requires Exclusive(s, chain) && OwnStep(s, s', t, clean)
    ensures Exclusive(s', chain)
    ensures forall u, b :: Holds(s', u, b) ==> Holds(s, u, b)
  {
    hide HeldOk;
    var c := s.threads[t].cs;
    assert Holds(s, t, c);
    forall u, b | Holds(s', u, b) ensures Holds(s, u, b) {
    }
  }

  /** Another call state, pooled or held, does not notice. */
  lemma OwnStepOthers(s: State, s': State, chain: seq<Id>, t: Id, b: Id, clean: bool)
    requires Exclusive(s, chain) && OwnStep(s, s', t, clean) && b in s.heap && b != s.threads[t].cs
    ensures b in s'.heap && s'.heap[b] == s.heap[b]
    ensures Owns(s, b) ==> Owns(s', b) && s'.conns[s.heap[b].socket.value] == s.conns[s.heap[b].socket.value]
  {
    hide HeldOk;
  }

  lemma ThreadStep(s: State, s': State, chain: seq<Id>, t: Id, clean: bool)
    requires Inv(s, chain, clean) && OwnStep(s, s', t, clean)
    ensures Inv(s', chain, clean)
  {
    hide AtRest, Spoilt, TalkOk, Distinct, Exclusive;
    var c := s.threads[t].cs;
    OwnStepExclusive(s, s', chain, t, clean);
    assert c !in chain by { NotPooled(s, chain, t); }
    LinkedFrame(s.heap, s'.heap, s.head, chain);
    forall b <- chain ensures PooledOk(s', b, clean) {
      assert PooledOk(s, b, clean);
      OwnStepOthers(s, s', chain, t, b, clean);
    }
    forall u, b | Holds(s', u, b) ensures HeldOk(s', b, s'.threads[u].phase, clean) {
      assert Holds(s, u, b) && HeldOk(s, b, s.threads[u].phase, clean);
      if u != t {
        HeldOnce(s, chain, t, u);
        OwnStepOthers(s, s', chain, t, b, clean);
      }
    }
  }

  lemma NotPooled(s: State, chain: seq<Id>, t: Id)
    requires Exclusive(s, chain) && t in s.threads && s.threads[t].Holding?
    ensures s.threads[t].cs !in chain
  {
    assert Holds(s, t, s.threads[t].cs);
  }

  lemma HeldOnce(s: State, chain: seq<Id>, t: Id, u: Id)
    requires Exclusive(s, chain) && t != u
    requires t in s.threads && s.threads[t].Holding? && u in s.threads && s.threads[u].Holding?
    ensures s.threads[t].cs != s.threads[u].cs
  {
    assert Holds(s, t, s.threads[t].cs) && Holds(s, u, s.threads[u].cs);
  }

  lemma PopStep(s: State, chain: seq<Id>, t: Id, clean: bool)
    requires Inv(s, chain, clean) && Enabled(s, Pop(t))
    ensures chain != [] && Inv(Apply(s, Pop(t)), chain[1..], clean) && AssertsHold(s, Pop(t))
  {
    Popped(s, chain, t, clean);
    PopExclusive(s, chain, t);
    PopIs(s, t);
    hide Enabled, Apply;
    PopKeeps(s, Apply(s, Pop(t)), chain, t, clean);
  }

  /** `s'` is `s` after the head of the pool has been taken out by thread `t`. */
  predicate Popping(s: State, s': State, t: Id) {
    && t !in s.threads && s.head.Some? && s.head.value in s.heap
    && s'.heap == s.heap[s.head.value := s.heap[s.head.value].(next := None)] && s'.head == s.heap[s.head.value].next
    && s'.n == (if s.n > 0 then s.n - 1 else 0) && s'.threads == s.threads[t := Holding(s.head.value, Looked)] && s'.conns == s.conns
  }

  lemma PopIs(s: State, t: Id)
    requires Enabled(s, Pop(t))
    ensures Popping(s, Apply(s, Pop(t)), t)
  {
  }

  lemma PopKeeps(s: State, s': State, chain: seq<Id>, t: Id, clean: bool)
    requires Inv(s, chain, clean) && Popping(s, s', t) && chain != [] && chain[0] == s.head.value
    requires HeldOk(s', s.head.value, Looked, clean) && (forall b <- chain :: b in s.heap) && Exclusive(s', chain[1..])
    ensures Inv(s', chain[1..], clean)
  {
    hide HeldOk, PooledOk;
    var c, rest := s.head.value, chain[1..];
    assert forall b <- rest :: b in chain && b != c;
    LinkedFrame(s.heap, s'.heap, s.heap[c].next, rest);
    hide Exclusive, Linked;
    forall b <- rest ensures PooledOk(s', b, clean) {
      Unnoticed(s, s', b, Looked, clean);
    }
    forall u, b | Holds(s', u, b) ensures HeldOk(s', b, s'.threads[u].phase, clean) {
      if u != t {
        assert Holds(s, u, b);
        NotPooled(s, chain, u);
        Unnoticed(s, s', b, s.threads[u].phase, clean);
      }
    }
  }

  /** The call state taken out of the pool is the first, and ready. */
  lemma Popped(s: State, chain: seq<Id>, t: Id, clean: bool)
    requires Inv(s, chain, clean) && Enabled(s, Pop(t))
    ensures chain != [] && chain[0] == s.head.value && AssertsHold(s, Pop(t))
    ensures HeldOk(Apply(s, Pop(t)), s.head.value, Looked, clean) && forall b <- chain :: b in s.heap
  {
    hide AtRest, Spoilt, TalkOk, Exclusive;
    assert PooledOk(s, chain[0], clean);
  }

  lemma PopExclusive(s: State, chain: seq<Id>, t: Id)
    requires Exclusive(s, chain) && Distinct(chain) && Enabled(s, Pop(t)) && chain != [] && s.head == Some(chain[0])
    ensures Exclusive(Apply(s, Pop(t)), chain[1..])
  {
    var s' := Apply(s, Pop(t));
    forall u, b | Holds(s', u, b) && u != t ensures Holds(s, u, b) && b != chain[0] {
      assert Holds(s, u, b);
    }
    assert forall b | b in s'.heap :: s'.heap[b].socket == s.heap[b].socket;
  }

  lemma ConnectStep(s: State, chain: seq<Id>, step: Step, clean: bool)
    requires Inv(s, chain, clean) && step.Connect? && Enabled(s, step)
    ensures Inv(Apply(s, step), chain, clean)
  {
    var s' := Apply(s, step);
    Connected(s, chain, step, clean);
    hide HeldOk, PooledOk, Distinct;
    LinkedFrame(s.heap, s'.heap, s.head, chain);
    ConnectExclusive(s, chain, step);
    hide Exclusive, Linked;
    forall b <- chain ensures PooledOk(s', b, clean) {
      Unnoticed(s, s', b, Looked, clean);
    }
    forall u, b | Holds(s', u, b) ensures HeldOk(s', b, s'.threads[u].phase, clean) {
      if u != step.t {
        assert Holds(s, u, b);
        Unnoticed(s, s', b, s.threads[u].phase, clean);
      }
    }
  }

  /** The new call state is ready, and its connection idle. */
  lemma Connected(s: State, chain: seq<Id>, step: Step, clean: bool)
    requires Inv(s, chain, clean) && step.Connect? && Enabled(s, step)
    ensures HeldOk(Apply(s, step), step.c, Looked, clean)
    ensures (forall b <- chain :: b in s.heap) && (forall u, b | Holds(s, u, b) :: b in s.heap)
  {
    hide Spoilt, TalkOk, Exclusive, Linked, Distinct;
    assert forall b <- chain :: PooledOk(s, b, clean);
  }

  lemma ConnectExclusive(s: State, chain: seq<Id>, step: Step)
    requires Exclusive(s, chain) && step.Connect? && Enabled(s, step)
    requires forall c <- chain :: c in s.heap
    requires forall t, c | Holds(s, t, c) :: c in s.heap
    ensures Exclusive(Apply(s, step), chain)
  {
    var s' := Apply(s, step);
    forall u, b | Holds(s', u, b) && u != step.t ensures Holds(s, u, b) && b != step.c {
      assert Holds(s, u, b);
    }
    forall b | b in s'.heap && b != step.c ensures b in s.heap && s'.heap[b] == s.heap[b] {
      assert s.heap[b].socket.Some? ==> Owns(s, b);
    }
  }

  lemma DoneStep(s: State, chain: seq<Id>, t: Id, clean: bool)
    requires Inv(s, chain, clean) && Enabled(s, Done(t)) && (clean ==> !Repools(s, Done(t)))
    ensures AssertsHold(s, Done(t))
    ensures Inv(Apply(s, Done(t)), chain, clean) || Inv(Apply(s, Done(t)), [s.threads[t].cs] + chain, clean)
  {
    assert Ends(s, t) && Apply(s, Done(t)) == Release(s, t);
    ReleasedOk(s, chain, t, clean);
    hide Enabled, Apply, Inv, Release;
    DoneKeeps(s, chain, t, clean);
  }

  predicate Ends(s: State, t: Id) {
    At(s, t) && s.threads[t].phase.Finishing?
  }

  lemma DoneKeeps(s: State, chain: seq<Id>, t: Id, clean: bool)
    requires Inv(s, chain, clean) && Ends(s, t) && forall b <- chain :: b in s.heap
    requires
      var s' := Release(s, t);
      s'.head != s.head || s'.n != s.n ==> PooledOk(s', s.threads[t].cs, clean) && s'.n <= MAX_CALL_STATE_POOL
    ensures Inv(Release(s, t), chain, clean) || Inv(Release(s, t), [s.threads[t].cs] + chain, clean)
  {
    hide PooledOk, HeldOk;
    var c, s' := s.threads[t].cs, Release(s, t);
    NotPooled(s, chain, t);
    DoneExclusive(s, chain, t);
    DoneOthers(s, chain, t, clean);
    hide Exclusive;
    LinkedFrame(s.heap, s'.heap, s.head, chain);
    assert ([c] + chain)[1..] == chain;
  }

  /** The call state meets the asserts of call_done, and if it is pooled it is ready and its connection at rest. */
  lemma ReleasedOk(s: State, chain: seq<Id>, t: Id, clean: bool)
    requires Inv(s, chain, clean) && Enabled(s, Done(t)) && (clean ==> !Repools(s, Done(t)))
    ensures AssertsHold(s, Done(t)) && s.threads[t].cs in s.heap && forall b <- chain :: b in s.heap
    ensures
      var c, s' := s.threads[t].cs, Release(s, t);
      s'.head != s.head || s'.n != s.n ==> PooledOk(s', c, clean) && s'.n <= MAX_CALL_STATE_POOL
  {
    hide Idle, Spoilt, TalkOk, Exclusive, Linked, Distinct;
    assert Holds(s, t, s.threads[t].cs) && HeldOk(s, s.threads[t].cs, s.threads[t].phase, clean);
    assert forall b <- chain :: PooledOk(s, b, clean);
  }

  lemma DoneOthers(s: State, chain: seq<Id>, t: Id, clean: bool)
    requires Inv(s, chain, clean) && Ends(s, t)
    ensures forall b <- chain :: PooledOk(Release(s, t), b, clean)
    ensures
      var s' := Release(s, t);
      forall u, b | Holds(s', u, b) :: HeldOk(s', b, s'.threads[u].phase, clean)
  {
    hide HeldOk, PooledOk, Exclusive, Linked, Distinct;
    var s' := Release(s, t);
    NotPooled(s, chain, t);
    forall b <- chain ensures PooledOk(s', b, clean) {
      Unnoticed(s, s', b, Looked, clean);
    }
    forall u, b | Holds(s', u, b) ensures HeldOk(s', b, s'.threads[u].phase, clean) {
      HeldOnce(s, chain, t, u);
      assert Holds(s, u, b);
      Unnoticed(s, s', b, s.threads[u].phase, clean);
    }
  }

  lemma DoneExclusive(s: State, chain: seq<Id>, t: Id)
    requires Exclusive(s, chain) && Ends(s, t)
    ensures Exclusive(Release(s, t), chain)
    ensures Exclusive(Release(s, t), [s.threads[t].cs] + chain)
  {
    var c, s' := s.threads[t].cs, Release(s, t);
    forall u, b | Holds(s', u, b) ensures Holds(s, u, b) && b != c {
      HeldOnce(s, chain, t, u);
    }
    assert forall b | b in s'.heap :: b in s.heap && s'.heap[b].socket == s.heap[b].socket;
  }

  /** The client steps inside a call that leave the connection alone. */
  lemma LocalStep(s: State, chain: seq<Id>, step: Step, clean: bool)
    requires Inv(s, chain, clean) && Enabled(s, step)
    requires step.Prepare? || step.Abandon? || step.Break?
    ensures Inv(Apply(s, step), chain, clean) && AssertsHold(s, step)
  {
    hide Linked, Distinct, Exclusive, AtRest, Spoilt, TalkOk, Ruling, HasReply, Accepts, DaemonAnswers, Replying, ReplyText, DaemonReads, DaemonWrites;
    var t, s' := step.t, Apply(s, step);
    var c, p := s.threads[t].cs, s.threads[t].phase;
    assert Holds(s, t, c) && HeldOk(s, c, p, clean);
    ThreadStep(s, s', chain, t, clean);
  }

  lemma RunStep(s: State, chain: seq<Id>, step: Step, clean: bool)
    requires Inv(s, chain, clean) && Enabled(s, step) && step.Run?
    ensures Inv(Apply(s, step), chain, clean) && AssertsHold(s, step)
  {
    hide Linked, Distinct, Exclusive, AtRest, Spoilt, TalkOk;
    var t := step.t;
    var c := s.threads[t].cs;
    assert Holds(s, t, c) && HeldOk(s, c, s.threads[t].phase, clean);
    ClientAsks(s.conns[s.heap[c].socket.value], step.id, EncodeMessage(step.id, true, step.parts), clean);
    ThreadStep(s, Apply(s, step), chain, t, clean);
  }

  lemma ReserveStep(s: State, chain: seq<Id>, step: Step, clean: bool)
    requires Inv(s, chain, clean) && Enabled(s, step) && (step.Reserve? || step.ReserveFail?)
    ensures Inv(Apply(s, step), chain, clean) && AssertsHold(s, step)
  {
    hide Linked, Distinct, Exclusive, AtRest, Spoilt, TalkOk;
    var t := step.t;
    assert Holds(s, t, s.threads[t].cs) && HeldOk(s, s.threads[t].cs, s.threads[t].phase, clean);
    if step.Reserve? {
      ClientReserves(s.conns[ConnId(s, t)], s.threads[t].phase, clean);
    } else {
      UnreadBody(s.conns[ConnId(s, t)], s.threads[t].phase, clean);
    }
    ThreadStep(s, Apply(s, step), chain, t, clean);
  }

  lemma SendStep(s: State, chain: seq<Id>, step: Step, clean: bool)
    requires Inv(s, chain, clean) && Enabled(s, step) && step.Send?
    ensures Inv(Apply(s, step), chain, clean)
  {
    hide Linked, Distinct, Exclusive, AtRest, Spoilt, TalkOk, Ruling, HasReply, Accepts, DaemonAnswers, Replying, ReplyText, DaemonReads, DaemonWrites;
    var t := step.t;
    assert Holds(s, t, s.threads[t].cs) && HeldOk(s, s.threads[t].cs, s.threads[t].phase, clean);
    ClientSends(s.conns[ConnId(s, t)], s.threads[t].phase, step.count, clean);
    ThreadStep(s, Apply(s, step), chain, t, clean);
  }

  lemma RecvStep(s: State, chain: seq<Id>, step: Step, clean: bool)
    requires Inv(s, chain, clean) && Enabled(s, step) && step.Recv?
    ensures Inv(Apply(s, step), chain, clean)
  {
    hide Linked, Distinct, Exclusive, AtRest, Spoilt, TalkOk, Ruling, HasReply, Accepts, DaemonAnswers, Replying, ReplyText, DaemonReads, DaemonWrites;
    var t := step.t;
    assert Holds(s, t, s.threads[t].cs) && HeldOk(s, s.threads[t].cs, s.threads[t].phase, clean);
    ClientReads(s.conns[ConnId(s, t)], s.threads[t].phase, step.count, clean);
    ThreadStep(s, Apply(s, step), chain, t, clean);
  }

  lemma CompleteStep(s: State, chain: seq<Id>, step: Step, clean: bool)
    requires Inv(s, chain, clean) && Enabled(s, step) && step.Complete?
    ensures Inv(Apply(s, step), chain, clean) && AssertsHold(s, step)
  {
    hide Linked, Distinct, Exclusive, AtRest, Spoilt, TalkOk, Accepts, Judge, Whole;
    var t := step.t;
    assert Holds(s, t, s.threads[t].cs) && HeldOk(s, s.threads[t].cs, s.threads[t].phase, clean);
    AcceptOk(s.conns[ConnId(s, t)], s.threads[t].phase, clean);
    ThreadStep(s, Apply(s, step), chain, t, clean);
  }

  /** The step puts a call state into the pool whose response could not be reserved. */
  predicate Repools(s: State, step: Step) {
    && step.Done? && Enabled(s, step)
    && var p := s.threads[step.t].phase;
    && p.unread && !Discards(p.rv) && s.heap[s.threads[step.t].cs].socket.Some? && s.n < MAX_CALL_STATE_POOL
  }

  lemma ReplyIs(request: seq<Byte>, reply: Reply)
    requires Replying(request, reply)
    ensures IsReply(ReplyText(request, reply)) && |ReplyText(request, reply)| < TWO_32
  {
    hide Sendable, ReplyBytes, CallId;
  }

  /** Every step keeps the invariant and meets the asserts of the code, unless it pools an unread response. */
  lemma StepKeeps(s: State, chain: seq<Id>, step: Step, clean: bool) returns (chain': seq<Id>)
    requires Inv(s, chain, clean) && Enabled(s, step) && (clean ==> !Repools(s, step))
    ensures Inv(Apply(s, step), chain', clean) && AssertsHold(s, step)
  {
    hide Linked, Distinct, Exclusive, HeldOk, PooledOk, Ruling, HasReply, Accepts, Requestable;
    chain' := chain;
    match step
    case Pop(t) =>
      PopStep(s, chain, t, clean);
      chain' := chain[1..];
    case Connect(_, _, _, _) => ConnectStep(s, chain, step, clean);
    case SawEmpty(t) => OutsideStep(s, Apply(s, step), chain, clean);
    case ConnectFail(t) => OutsideStep(s, Apply(s, step), chain, clean);
    case Done(t) =>
      DoneStep(s, chain, t, clean);
      if !Inv(Apply(s, step), chain, clean) { chain' := [s.threads[t].cs] + chain; }
    case DaemonRecv(k, count) =>
      DaemonRecvHarmless(s.conns[k], count);
      DaemonStep(s, chain, k, DaemonReads(s.conns[k], count), clean);
    case DaemonServe(k, reply) =>
      var b := ReplyText(s.conns[k].got[4..], reply);
      ReplyIs(s.conns[k].got[4..], reply);
      DaemonServeHarmless(s.conns[k], b);
      DaemonStep(s, chain, k, DaemonAnswers(s.conns[k], b), clean);
    case DaemonSend(k, count) =>
      DaemonSendHarmless(s.conns[k], count);
      DaemonStep(s, chain, k, DaemonWrites(s.conns[k], count), clean);
    case DaemonClose(k) => DaemonStep(s, chain, k, s.conns[k].(alive := false), clean);
    case Send(_, _) => SendStep(s, chain, step, clean);
    case Recv(_, _) => RecvStep(s, chain, step, clean);
    case Complete(_, _) => CompleteStep(s, chain, step, clean);
    case Run(_, _, _) => RunStep(s, chain, step, clean);
    case Reserve(_) => ReserveStep(s, chain, step, clean);
    case ReserveFail(_) => ReserveStep(s, chain, step, clean);
    case _ => LocalStep(s, chain, step, clean);
  }

  /** Threads that hold nothing come and go. */
  lemma OutsideStep(s: State, s': State, chain: seq<Id>, clean: bool)
    requires Inv(s, chain, clean) && s' == s.(threads := s'.threads)
    requires forall t, c :: Holds(s', t, c) <==> Holds(s, t, c)
    requires forall t, c | Holds(s, t, c) :: t in s'.threads && s'.threads[t] == s.threads[t]
    ensures Inv(s', chain, clean)
  {
    hide AtRest, Spoilt, TalkOk, Distinct;
    LinkedFrame(s.heap, s'.heap, s.head, chain);
    forall b <- chain ensures PooledOk(s', b, clean) {
      assert PooledOk(s, b, clean);
    }
    forall u, b | Holds(s', u, b) ensures HeldOk(s', b, s'.threads[u].phase, clean) {
      assert HeldOk(s, b, s.threads[u].phase, clean);
    }
  }

  /**
    What becomes of a call state when its call is done: with CKR_DEVICE_ERROR or CKR_DEVICE_REMOVED, without
    a socket or with 8 in the pool it is gone; otherwise it is the first of the pool, ready to be used again.
   */
  lemma DoneCases(s: State, t: Id)
    requires Enabled(s, Done(t))
    ensures
      var c, rv, s' := s.threads[t].cs, s.threads[t].phase.rv, Apply(s, Done(t));
      && (rv == 0x30 || rv == 0x32 || s.heap[c].socket.None? || s.n >= 8 ==> c !in s'.heap && s'.head == s.head && s'.n == s.n)
      && (rv != 0x30 && rv != 0x32 && s.heap[c].socket.Some? && s.n < 8 ==>
            && c in s'.heap && s'.heap[c] == CallState(READY, s.heap[c].socket, s.head)
            && s'.head == Some(c) && s'.n == s.n + 1)
      && s'.threads == s.threads - {t} && s'.conns == s.conns && s'.heap - {c} == s.heap - {c}
  {
  }

  // ----- Every run --------------------------------------------------------------------------

  ghost predicate Reaches(s: State, steps: seq<Step>, s': State)
    decreases |steps|
  {
    if steps == [] then s == s' else Enabled(s, steps[0]) && Reaches(Apply(s, steps[0]), steps[1..], s')
  }

  /** No step of the run pools a call state whose response could not be reserved. */
  ghost predicate Clean(s: State, steps: seq<Step>)
    decreases |steps|
  {
    steps != [] && Enabled(s, steps[0]) ==> !Repools(s, steps[0]) && Clean(Apply(s, steps[0]), steps[1..])
  }

  lemma {:induction false} RunKeeps(s: State, chain: seq<Id>, steps: seq<Step>, s': State, clean: bool) returns (chain': seq<Id>)
    requires Inv(s, chain, clean) && Reaches(s, steps, s') && (clean ==> Clean(s, steps))
    ensures Inv(s', chain', clean)
    decreases |steps|
  {
    hide Inv, Enabled, Apply, Repools;
    if steps == [] {
      chain' := chain;
    } else {
      var next := StepKeeps(s, chain, steps[0], clean);
      chain' := RunKeeps(Apply(s, steps[0]), next, steps[1..], s', clean);
    }
  }

  lemma Reached(steps: seq<Step>, s: State, clean: bool) returns (chain: seq<Id>)
    requires Reaches(INIT, steps, s) && (clean ==> Clean(INIT, steps))
    ensures Inv(s, chain, clean)
  {
    assert Inv(INIT, [], clean);
    hide Inv;
    chain := RunKeeps(INIT, [], steps, s, clean);
  }

  /**
    The pool is a duplicate-free list of n <= 8 ready call states with open connections, at a frame boundary
    unless the run is not clean and an unread response is in front.
   */
  ghost predicate PoolSound(s: State, clean: bool) {
    exists chain ::
      && Linked(s.heap, s.head, chain) && Distinct(chain) && s.n == |chain| <= 8
      && (forall c <- chain :: PooledOk(s, c, clean))
      && (forall t, c | Holds(s, t, c) :: c !in chain)
  }

  /** Ownership: in every run the pool is sound, nothing is held twice, and no assert on call states or pool fires. */
  lemma Ownership(steps: seq<Step>, s: State, step: Step)
    requires Reaches(INIT, steps, s)
    ensures PoolSound(s, false) && (Clean(INIT, steps) ==> PoolSound(s, true))
    ensures forall t, u, c | Holds(s, t, c) && Holds(s, u, c) :: t == u
    ensures Enabled(s, step) ==> AssertsHold(s, step)
  {
    var chain := Reached(steps, s, false);
    SoundPool(s, chain, false);
    if Clean(INIT, steps) {
      var chain' := Reached(steps, s, true);
      SoundPool(s, chain', true);
    }
    hide Linked, Distinct, PooledOk, HeldOk, AssertsHold, Apply, Enabled, Repools, PoolSound, Clean;
    if Enabled(s, step) {
      var _ := StepKeeps(s, chain, step, false);
    }
  }

  /** Pairing: on every connection of every run the client's exchanges are, in order, those the daemon served. */
  lemma Pairing(steps: seq<Step>, s: State, k: Id)
    requires Reaches(INIT, steps, s) && k in s.conns
    ensures s.conns[k].done <= s.conns[k].log
  {
    var chain := Reached(steps, s, false);
    hide Linked, Exclusive, Distinct;
  }

  /**
    Whatever reservations fail, a call that has read a whole frame holds the daemon's reply to its own
    request, or ends with CKR_DEVICE_ERROR, or aborts. In a clean run it is the first.
   */
  lemma OwnReply(steps: seq<Step>, s: State, t: Id)
    requires Reaches(INIT, steps, s) && HasReply(s, t)
    ensures
      var d, p := s.conns[ConnId(s, t)], s.threads[t].phase;
      || d.log == d.done + [Exchange(p.req, p.read[4..])]
      || (!Clean(INIT, steps) && (Ruling(s, t) == Returns(Ckr.DEVICE_ERROR) || Ruling(s, t) == Aborts))
    ensures Clean(INIT, steps) ==> !Ruling(s, t).Aborts?
  {
    var clean := Clean(INIT, steps);
    var chain := Reached(steps, s, clean);
    hide Linked, Exclusive, Distinct, Judge, Clean, IsReply, PooledOk;
    assert Holds(s, t, s.threads[t].cs);
    var d, p := s.conns[ConnId(s, t)], s.threads[t].phase;
    ReplyRead(d, p, clean);
    if IsReply(p.read[4..]) { ReplyNeverAborts(p.read[4..], p.id); }
  }

  /** So a call that completes with anything but CKR_DEVICE_ERROR has taken its own reply. */
  lemma Completed(steps: seq<Step>, s: State, t: Id, out: Ulong)
    requires Reaches(INIT, steps, s) && Enabled(s, Complete(t, out))
    ensures
      var s', k, p := Apply(s, Complete(t, out)), ConnId(s, t), s.threads[t].phase;
      || s'.threads[t].phase.rv == Ckr.DEVICE_ERROR
      || (s'.conns[k].done == s.conns[k].log == s.conns[k].done + [Exchange(p.req, p.read[4..])])
  {
    OwnReply(steps, s, t);
    hide Reaches, Clean, Judge;
  }

  /**
    The assert that the response is undamaged fires exactly if an unread response is in front, and the length
    of its signature, which the cut leaves as the call id, is the id of the call.
   */
  lemma AbortIff(steps: seq<Step>, s: State, t: Id)
    requires Reaches(INIT, steps, s) && HasReply(s, t)
    ensures
      var d, p := s.conns[ConnId(s, t)], s.threads[t].phase;
      Ruling(s, t) == Aborts <==>
      exists b, id :: Unread(b, id) && b <= p.read + d.down + d.out && id >= 4 && IsCall(id) && SignatureLength(id) == p.id
  {
    var chain := Reached(steps, s, false);
    hide Linked, Exclusive, Distinct, Judge, PooledOk, Unread, Reaches;
    assert Holds(s, t, s.threads[t].cs);
    AbortsHere(s.conns[ConnId(s, t)], s.threads[t].phase);
  }

  lemma AbortsHere(d: Conn, p: Phase)
    requires p.Talking? && TalkOk(d, p, false) && Whole(p.read)
    ensures Judge(p.id, p.read[4..]) == Aborts <==>
      exists b, id :: Unread(b, id) && b <= p.read + d.down + d.out && id >= 4 && IsCall(id) && SignatureLength(id) == p.id
  {
    var read, more, call := p.read, d.down + d.out, p.id;
    assert IsCall(call) && |read| >= 4 && p.read + d.down + d.out == read + more;
    if Judge(call, read[4..]) == Aborts {
      AbortMisled(d, p);
      hide Judge, Unread, Whole, TalkOk, SignatureLength, Fronted;
      var b, id :| Unread(b, id) && Fronted(b, id, p.read + d.down + d.out);
      MisledFrame(read, more, b, id, call);
    } else {
      hide Judge, Unread, Whole, TalkOk, SignatureLength;
      if b, id :| Unread(b, id) && b <= read + more && id >= 4 && IsCall(id) && SignatureLength(id) == call {
        MisledFrame(read, more, b, id, call);
      }
    }
  }

  /** Only a misled client aborts. */
  lemma AbortMisled(d: Conn, p: Phase)
    requires p.Talking? && TalkOk(d, p, false) && Whole(p.read) && Judge(p.id, p.read[4..]) == Aborts
    ensures Misled(d, p)
  {
    hide Judge, Misled, IsReply;
    if Answering(d, p) {
      ReplyRead(d, p, true);
      ReplyNeverAborts(p.read[4..], p.id);
    }
  }

  // ----- A failed reservation -----------------------------------------------------------------

  lemma SpoiltNotIdle(d: Conn)
    requires Spoilt(d)
    ensures !Idle(d)
  {
    hide Unread;
    var b, id :| Unread(b, id) && Fronted(b, id, d.down + d.out);
    FrontLength(b, id, d.down + d.out);
  }

  /** A pool with an unread response at its head is not at a boundary. */
  lemma RepoolsSpoils(s: State, chain: seq<Id>, step: Step)
    requires Inv(s, chain, true) && Repools(s, step)
    ensures !PoolSound(Apply(s, step), true)
  {
    hide Exclusive, Distinct, Spoilt;
    var c, s' := s.threads[step.t].cs, Apply(s, step);
    assert Holds(s, step.t, c) && HeldOk(s, c, s.threads[step.t].phase, true);
    SpoiltNotIdle(s.conns[s.heap[c].socket.value]);
    assert s'.head == Some(c) && !PooledOk(s', c, true);
    forall l | Linked(s'.heap, s'.head, l) ensures c in l {
      assert l[0] == c;
    }
  }

  /** Every state of the run has a sound pool. */
  ghost predicate AlwaysSound(s: State, steps: seq<Step>)
    decreases |steps|
  {
    PoolSound(s, true) && (steps != [] && Enabled(s, steps[0]) ==> AlwaysSound(Apply(s, steps[0]), steps[1..]))
  }

  lemma {:induction false} SoundFrom(s: State, chain: seq<Id>, steps: seq<Step>)
    requires Inv(s, chain, true)
    ensures AlwaysSound(s, steps) <==> Clean(s, steps)
    decreases |steps|
  {
    hide Inv, Enabled, Apply, Repools, PoolSound;
    SoundPool(s, chain, true);
    if steps == [] || !Enabled(s, steps[0]) {
    } else if Repools(s, steps[0]) {
      RepoolsSpoils(s, chain, steps[0]);
    } else {
      var next := StepKeeps(s, chain, steps[0], true);
      SoundFrom(Apply(s, steps[0]), next, steps[1..]);
    }
  }

  lemma SoundPool(s: State, chain: seq<Id>, clean: bool)
    requires Inv(s, chain, clean)
    ensures PoolSound(s, clean)
  {
    hide Linked, Distinct, PooledOk, HeldOk;
  }

  /** All pooled connections stay at a boundary exactly in the runs that never pool an unread response. */
  lemma SoundIff(steps: seq<Step>)
    ensures AlwaysSound(INIT, steps) <==> Clean(INIT, steps)
  {
    assert Inv(INIT, [], true);
    SoundFrom(INIT, [], steps);
  }

  /**
    When a response cannot be reserved the whole reply stays unread, and when the call is done the pool is
    spoilt exactly if it has room for the call state.
   */
  lemma ReserveFailDirties(steps: seq<Step>, s: State, t: Id)
    requires Reaches(INIT, steps, s) && Clean(INIT, steps) && Enabled(s, ReserveFail(t))
    ensures
      var d := s.conns[ConnId(s, t)];
      |d.done| < |d.log| && d.down + d.out == d.log[|d.done|].reply && Spoilt(d)
    ensures
      var s1 := Apply(s, ReserveFail(t));
      Enabled(s1, Done(t)) && (PoolSound(Apply(s1, Done(t)), true) <==> s.n == 8)
  {
    var chain := Reached(steps, s, true);
    UnreadReply(s, chain, t);
    FailedDone(s, t);
    var s1 := Apply(s, ReserveFail(t));
    hide Inv, Enabled, Apply, Repools, PoolSound, Spoilt;
    var chain1 := StepKeeps(s, chain, ReserveFail(t), true);
    if Repools(s1, Done(t)) {
      RepoolsSpoils(s1, chain1, Done(t));
    } else {
      var chain2 := StepKeeps(s1, chain1, Done(t), true);
      SoundPool(Apply(s1, Done(t)), chain2, true);
    }
    assert s.n <= MAX_CALL_STATE_POOL by { PoolBound(s, chain); }
  }

  lemma PoolBound(s: State, chain: seq<Id>)
    requires Inv(s, chain, true)
    ensures s.n <= MAX_CALL_STATE_POOL
  {
    hide Linked, Exclusive, Distinct, PooledOk, HeldOk;
  }

  /** The call that could not reserve its response is about to be done, and will be pooled if there is room. */
  lemma FailedDone(s: State, t: Id)
    requires Enabled(s, ReserveFail(t))
    ensures !Repools(s, ReserveFail(t))
    ensures
      var s1 := Apply(s, ReserveFail(t));
      Enabled(s1, Done(t)) && (Repools(s1, Done(t)) <==> s.n < MAX_CALL_STATE_POOL)
  {
  }

  lemma UnreadReply(s: State, chain: seq<Id>, t: Id)
    requires Inv(s, chain, true) && Enabled(s, ReserveFail(t))
    ensures
      var d := s.conns[ConnId(s, t)];
      |d.done| < |d.log| && d.down + d.out == d.log[|d.done|].reply && Spoilt(d)
  {
    hide Linked, Exclusive, Distinct, PooledOk, TalkOk, Spoilt;
    assert Holds(s, t, s.threads[t].cs);
    UnreadBody(s.conns[ConnId(s, t)], s.threads[t].phase, true);
  }
}
