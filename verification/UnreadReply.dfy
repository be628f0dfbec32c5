/**
  Runs in which a response cannot be reserved, and the next call reads the frame cut from it: the call fails,
  or makes the client abort.
 */
module UnreadReply {
  import opened Bytes
  import opened Signature
  import opened Wire
  import opened Proxy
  import opened Verdicts
  import opened Replies
  import opened Framing
  import opened CallPool
  import Ckr

  const APP_ID: seq<Byte> := [0, 0, 0, 0, 0, 0, 0, 0]

  /** One thread with the only call state and the only connection. */
  function Alone(t: Id, status: Status, p: Phase, d: Conn): State {
    State(map[0 := CallState(status, Some(0), None)], None, 0, map[t := Holding(0, p)], map[0 := d])
  }

  function Link(up: seq<Byte>, down: seq<Byte>, got: seq<Byte>, log: seq<Exchange>): Conn {
    Conn(up, down, true, 0, got, [], log, [])
  }

  const NEW: Conn := Conn(APP_ID, [], true, APP_ID_SIZE, [], [], [], [])

  /** Steps one after the other. */
  lemma {:induction false} Onwards(s: State, a: seq<Step>, m: State, b: seq<Step>, e: State)
    requires Reaches(s, a, m) && Reaches(m, b, e)
    ensures Reaches(s, a + b, e)
    decreases |a|
  {
    hide Enabled, Apply;
    if a == [] {
      assert a + b == b;
    } else {
      assert (a + b)[1..] == a[1..] + b;
      Onwards(Apply(s, a[0]), a[1..], m, b, e);
    }
  }

  lemma One(s: State, step: Step, e: State)
    requires Enabled(s, step) && Apply(s, step) == e
    ensures Reaches(s, [step], e)
  {
    hide Enabled, Apply;
    assert [step][1..] == [];
  }

  // ----- Steps of a thread alone --------------------------------------------------------------

  /** A step of the daemon on the connection. */
  lemma Daemon(t: Id, p: Phase, d: Conn, step: Step, e: Conn)
    requires d.alive
    requires match step
             case DaemonRecv(0, count) => d.out == [] && 0 < count <= |d.up| && e == DaemonReads(d, count)
                && (if d.appId > 0 then count <= d.appId
                    else count <= Need(d.got) && (|d.got| >= 4 ==> DecodeUint32(d.got[..4]) < MAX_REQUEST))
             case DaemonServe(0, reply) => d.out == [] && Whole(d.got) && Replying(d.got[4..], reply)
                && e == DaemonAnswers(d, ReplyText(d.got[4..], reply))
             case DaemonSend(0, count) => 0 < count <= |d.out| && e == DaemonWrites(d, count)
             case _ => false
    ensures Reaches(Alone(t, TRANSIT, p, d), [step], Alone(t, TRANSIT, p, e))
  {
    hide Frame, Need, Whole, DaemonReads, DaemonWrites, DaemonAnswers, DecodeUint32, Replying, ReplyText;
    var s := Alone(t, TRANSIT, p, d);
    assert Apply(s, step).conns == map[0 := e];
    One(s, step, Alone(t, TRANSIT, p, e));
  }

  /** The whole request goes on the wire. */
  lemma Sends(t: Id, id: int, req: seq<Byte>, rest: seq<Byte>, d: Conn)
    requires rest != []
    ensures Reaches(Alone(t, TRANSIT, Talking(id, req, rest, [], false), d), [Send(t, |rest|)],
                    Alone(t, TRANSIT, Talking(id, req, [], [], false), d.(up := d.up + rest)))
  {
    var s, e := Alone(t, TRANSIT, Talking(id, req, rest, [], false), d), d.(up := d.up + rest);
    assert rest[..|rest|] == rest && rest[|rest|..] == [];
    assert Apply(s, Send(t, |rest|)).conns == map[0 := e];
    assert Apply(s, Send(t, |rest|)).threads == map[t := Holding(0, Talking(id, req, [], [], false))];
    One(s, Send(t, |rest|), Alone(t, TRANSIT, Talking(id, req, [], [], false), e));
  }

  /** The client reads. */
  lemma Recvs(t: Id, p: Phase, d: Conn, count: nat)
    requires p.Talking? && p.rest == [] && (|p.read| < 4 || p.reserved) && 0 < count <= |d.down| && count <= Need(p.read)
    ensures Reaches(Alone(t, TRANSIT, p, d), [Recv(t, count)],
                    Alone(t, TRANSIT, p.(read := p.read + d.down[..count]), d.(down := d.down[count..])))
  {
    hide Need;
    var s, e := Alone(t, TRANSIT, p, d), d.(down := d.down[count..]);
    assert Apply(s, Recv(t, count)).conns == map[0 := e];
    assert Apply(s, Recv(t, count)).threads == map[t := Holding(0, p.(read := p.read + d.down[..count]))];
    One(s, Recv(t, count), Alone(t, TRANSIT, p.(read := p.read + d.down[..count]), e));
  }

  lemma Reserves(t: Id, p: Phase, d: Conn)
    requires p.Talking? && |p.read| == 4 && !p.reserved
    ensures Reaches(Alone(t, TRANSIT, p, d), [Reserve(t)], Alone(t, TRANSIT, p.(reserved := true), d))
  {
    var s := Alone(t, TRANSIT, p, d);
    assert Apply(s, Reserve(t)).threads == map[t := Holding(0, p.(reserved := true))];
    One(s, Reserve(t), Alone(t, TRANSIT, p.(reserved := true), d));
  }

  /** A thread that holds the call state builds a request. */
  lemma Runs(t: Id, id: int, ps: seq<Part>, d: Conn)
    requires Requestable(id, ps)
    ensures
      var q := EncodeMessage(id, true, ps);
      Reaches(Alone(t, READY, Looked, d), [Prepare(t)] + [CallPool.Run(t, id, ps)],
              Alone(t, TRANSIT, Talking(id, q, Frame(q), [], false), d))
  {
    assert IsCall(id);
    hide Requestable, EncodeMessage, Frame;
    var q := EncodeMessage(id, true, ps);
    var s1, s2, s3 := Alone(t, READY, Looked, d), Alone(t, PREP, Building, d), Alone(t, TRANSIT, Talking(id, q, Frame(q), [], false), d);
    assert Apply(s1, Prepare(t)) == s2 && Apply(s2, CallPool.Run(t, id, ps)) == s3;
    One(s1, Prepare(t), s2);
    One(s2, CallPool.Run(t, id, ps), s3);
    Onwards(s1, [Prepare(t)], s2, [CallPool.Run(t, id, ps)], s3);
  }

  // ----- The first call -----------------------------------------------------------------------

  /** A thread connects and starts a call. */
  lemma Asks(id: int, ps: seq<Part>) returns (steps: seq<Step>)
    requires Requestable(id, ps)
    ensures
      var q := EncodeMessage(id, true, ps);
      Reaches(INIT, steps, Alone(0, TRANSIT, Talking(id, q, Frame(q), [], false), NEW))
  {
    var s1, s2 := INIT.(threads := map[0 := Connecting]), Alone(0, READY, Looked, NEW);
    One(INIT, SawEmpty(0), s1);
    assert Apply(s1, Connect(0, 0, 0, APP_ID)) == s2;
    One(s1, Connect(0, 0, 0, APP_ID), s2);
    Onwards(INIT, [SawEmpty(0)], s1, [Connect(0, 0, 0, APP_ID)], s2);
    hide Reaches, Requestable, EncodeMessage, Alone;
    var q := EncodeMessage(id, true, ps);
    Runs(0, id, ps, NEW);
    steps := [SawEmpty(0)] + [Connect(0, 0, 0, APP_ID)] + ([Prepare(0)] + [CallPool.Run(0, id, ps)]);
    Onwards(INIT, [SawEmpty(0)] + [Connect(0, 0, 0, APP_ID)], s2, [Prepare(0)] + [CallPool.Run(0, id, ps)],
            Alone(0, TRANSIT, Talking(id, q, Frame(q), [], false), NEW));
  }

  /** What is known of a frame in two pieces. */
  lemma Pieces(q: seq<Byte>)
    requires 0 < |q| < MAX_REQUEST
    ensures Frame(q) == Frame(q)[..4] + q && |Frame(q)[..4]| == 4 && DecodeUint32(Frame(q)[..4]) == |q|
    ensures Need([]) == 4 && Need(Frame(q)[..4]) == |q| && Whole(Frame(q)) && Frame(q)[4..] == q
  {
    FrameLengthIff(q);
    assert Frame(q)[..4][..4] == Frame(q)[..4];
  }

  /** The request goes over, and the daemon reads the application id and the frame. */
  lemma Hears(id: int, q: seq<Byte>) returns (steps: seq<Step>)
    requires 0 < |q| < MAX_REQUEST
    ensures Reaches(Alone(0, TRANSIT, Talking(id, q, Frame(q), [], false), NEW), steps,
                    Alone(0, TRANSIT, Talking(id, q, [], [], false), Link([], [], Frame(q), [])))
  {
    hide Frame, Reaches, Alone;
    var f, p := Frame(q), Talking(id, q, [], [], false);
    var s0, s2, s4 := Alone(0, TRANSIT, Talking(id, q, f, [], false), NEW), Alone(0, TRANSIT, p, Link(f, [], [], [])),
                      Alone(0, TRANSIT, p, Link([], [], f, []));
    HearsId(id, q, f);
    HearsFrame(p, q);
    steps := [Send(0, |f|)] + [DaemonRecv(0, 8)] + ([DaemonRecv(0, 4)] + [DaemonRecv(0, |q|)]);
    Onwards(s0, [Send(0, |f|)] + [DaemonRecv(0, 8)], s2, [DaemonRecv(0, 4)] + [DaemonRecv(0, |q|)], s4);
  }

  lemma HearsId(id: int, q: seq<Byte>, f: seq<Byte>)
    requires f != []
    ensures Reaches(Alone(0, TRANSIT, Talking(id, q, f, [], false), NEW), [Send(0, |f|)] + [DaemonRecv(0, 8)],
                    Alone(0, TRANSIT, Talking(id, q, [], [], false), Link(f, [], [], [])))
  {
    hide Reaches, Alone;
    var p, d1, d2 := Talking(id, q, [], [], false), NEW.(up := APP_ID + f), Link(f, [], [], []);
    Sends(0, id, q, f, NEW);
    assert d1.up[8..] == f;
    Daemon(0, p, d1, DaemonRecv(0, 8), d2);
    Onwards(Alone(0, TRANSIT, Talking(id, q, f, [], false), NEW), [Send(0, |f|)], Alone(0, TRANSIT, p, d1), [DaemonRecv(0, 8)],
            Alone(0, TRANSIT, p, d2));
  }

  lemma HearsFrame(p: Phase, q: seq<Byte>)
    requires 0 < |q| < MAX_REQUEST
    ensures Reaches(Alone(0, TRANSIT, p, Link(Frame(q), [], [], [])), [DaemonRecv(0, 4)] + [DaemonRecv(0, |q|)],
                    Alone(0, TRANSIT, p, Link([], [], Frame(q), [])))
  {
    Pieces(q);
    hide Frame, DecodeUint32, Reaches, Need, Alone, Whole;
    var f := Frame(q);
    var x := f[..4];
    var d2, d3, d4 := Link(f, [], [], []), Link(q, [], x, []), Link([], [], f, []);
    assert f[4..] == q && [] + x == x && x[..4] == x;
    Daemon(0, p, d2, DaemonRecv(0, 4), d3);
    assert q[..|q|] == q && q[|q|..] == [];
    Daemon(0, p, d3, DaemonRecv(0, |q|), d4);
    Onwards(Alone(0, TRANSIT, p, d2), [DaemonRecv(0, 4)], Alone(0, TRANSIT, p, d3), [DaemonRecv(0, |q|)], Alone(0, TRANSIT, p, d4));
  }

  /** The daemon answers with the response `b`, and the client reads the length word. */
  lemma Answers(id: int, q: seq<Byte>, r: Reply) returns (steps: seq<Step>)
    requires 0 < |q| < MAX_REQUEST && Replying(q, r) && 0 < |ReplyText(q, r)| < MAX_REQUEST
    ensures
      var b := ReplyText(q, r);
      Reaches(Alone(0, TRANSIT, Talking(id, q, [], [], false), Link([], [], Frame(q), [])), steps,
              Alone(0, TRANSIT, Talking(id, q, [], Frame(b)[..4], false), Link([], b, [], [Exchange(q, b)])))
  {
    var b := ReplyText(q, r);
    Pieces(b);
    hide Frame, DecodeUint32, Reaches, Need, Alone, Whole, Replying, ReplyText;
    var g, p, log := Frame(b), Talking(id, q, [], [], false), [Exchange(q, b)];
    var s0, s2, s3 := Alone(0, TRANSIT, p, Link([], [], Frame(q), [])), Alone(0, TRANSIT, p, Link([], g, [], log)),
                      Alone(0, TRANSIT, p.(read := g[..4]), Link([], b, [], log));
    Serves(p, q, r);
    assert [] + g[..4] == g[..4] && g[4..] == b;
    Recvs(0, p, Link([], g, [], log), 4);
    steps := [DaemonServe(0, r)] + [DaemonSend(0, |g|)] + [Recv(0, 4)];
    Onwards(s0, [DaemonServe(0, r)] + [DaemonSend(0, |g|)], s2, [Recv(0, 4)], s3);
  }

  lemma Serves(p: Phase, q: seq<Byte>, r: Reply)
    requires 0 < |q| < MAX_REQUEST && Replying(q, r)
    ensures
      var b := ReplyText(q, r);
      Reaches(Alone(0, TRANSIT, p, Link([], [], Frame(q), [])), [DaemonServe(0, r)] + [DaemonSend(0, |Frame(b)|)],
              Alone(0, TRANSIT, p, Link([], Frame(b), [], [Exchange(q, b)])))
  {
    var b := ReplyText(q, r);
    Pieces(q);
    hide Frame, DecodeUint32, Reaches, Need, Alone, Whole, Replying, ReplyText;
    var f, g, log := Frame(q), Frame(b), [Exchange(q, b)];
    var d0, d1, d2 := Link([], [], f, []), Link([], [], f, log).(out := g), Link([], g, [], log);
    assert f[4..] == q && [] + [Exchange(q, b)] == log;
    Daemon(0, p, d0, DaemonServe(0, r), d1);
    assert g[..|g|] == g && g[|g|..] == [] && [] + g == g;
    Daemon(0, p, d1, DaemonSend(0, |g|), d2);
    Onwards(Alone(0, TRANSIT, p, d0), [DaemonServe(0, r)], Alone(0, TRANSIT, p, d1), [DaemonSend(0, |g|)], Alone(0, TRANSIT, p, d2));
  }

  /** A pool with the one call state, on whose connection `b` is unread. */
  function Pooled(b: seq<Byte>, log: seq<Exchange>): State {
    State(map[0 := CallState(READY, Some(0), None)], Some(0), 1, map[], map[0 := Link([], b, [], log)])
  }

  /** The response cannot be reserved, and the connection is pooled with the reply unread. */
  lemma Gives(id: int, q: seq<Byte>, read: seq<Byte>, b: seq<Byte>, log: seq<Exchange>)
    requires |read| == 4 && DecodeUint32(read) >= FIRST_CAPACITY
    ensures Reaches(Alone(0, TRANSIT, Talking(id, q, [], read, false), Link([], b, [], log)), [ReserveFail(0)] + [Done(0)], Pooled(b, log))
  {
    var s0, s1 := Alone(0, TRANSIT, Talking(id, q, [], read, false), Link([], b, [], log)),
                  Alone(0, PARSE, Finishing(Ckr.HOST_MEMORY, true), Link([], b, [], log));
    assert Enabled(s0, ReserveFail(0)) && Apply(s0, ReserveFail(0)) == s1 && Apply(s1, Done(0)) == Pooled(b, log);
    One(s0, ReserveFail(0), s1);
    One(s1, Done(0), Pooled(b, log));
    Onwards(s0, [ReserveFail(0)], s1, [Done(0)], Pooled(b, log));
  }

  // ----- The second call ----------------------------------------------------------------------

  /** Another thread takes the connection out of the pool. */
  lemma Takes(b: seq<Byte>, log: seq<Exchange>)
    ensures Reaches(Pooled(b, log), [Pop(1)], Alone(1, READY, Looked, Link([], b, [], log)))
  {
    var e := Alone(1, READY, Looked, Link([], b, [], log));
    assert Apply(Pooled(b, log), Pop(1)) == e;
    One(Pooled(b, log), Pop(1), e);
  }

  /** The state in which the second call has read a whole frame, its front `read` of `b`. */
  function Misled(id: int, q: seq<Byte>, read: seq<Byte>, b: seq<Byte>, log: seq<Exchange>): State
    requires |read| <= |b|
  {
    Alone(1, TRANSIT, Talking(id, q, [], read, true), Link(Frame(q), b[|read|..], [], log))
  }

  /** It sends its request and reads the old response, whose first word passes for a length. */
  lemma ReadsOld(id: int, q: seq<Byte>, b: seq<Byte>, log: seq<Exchange>, n: nat) returns (steps: seq<Step>)
    requires 0 < n && 4 + n <= |b| && DecodeUint32(b[..4]) == n
    ensures Reaches(Alone(1, TRANSIT, Talking(id, q, Frame(q), [], false), Link([], b, [], log)), steps, Misled(id, q, b[..4 + n], b, log))
  {
    hide Reaches, Alone, DecodeUint32;
    var f := Frame(q);
    var s0, s2 := Alone(1, TRANSIT, Talking(id, q, f, [], false), Link([], b, [], log)),
                  Alone(1, TRANSIT, Talking(id, q, [], b[..4], false), Link(f, b[4..], [], log));
    ReadsWord(id, q, f, b, log);
    ReadsBody(id, q, f, b, log, n);
    steps := [Send(1, |f|)] + [Recv(1, 4)] + ([Reserve(1)] + [Recv(1, n)]);
    Onwards(s0, [Send(1, |f|)] + [Recv(1, 4)], s2, [Reserve(1)] + [Recv(1, n)], Misled(id, q, b[..4 + n], b, log));
  }

  lemma ReadsWord(id: int, q: seq<Byte>, f: seq<Byte>, b: seq<Byte>, log: seq<Exchange>)
    requires f != [] && |b| >= 4
    ensures Reaches(Alone(1, TRANSIT, Talking(id, q, f, [], false), Link([], b, [], log)), [Send(1, |f|)] + [Recv(1, 4)],
                    Alone(1, TRANSIT, Talking(id, q, [], b[..4], false), Link(f, b[4..], [], log)))
  {
    assert Need([]) == 4 && [] + b[..4] == b[..4] && [] + f == f;
    hide DecodeUint32, Reaches, Need, Alone;
    Sends(1, id, q, f, Link([], b, [], log));
    Recvs(1, Talking(id, q, [], [], false), Link(f, b, [], log), 4);
    Onwards(Alone(1, TRANSIT, Talking(id, q, f, [], false), Link([], b, [], log)), [Send(1, |f|)],
            Alone(1, TRANSIT, Talking(id, q, [], [], false), Link(f, b, [], log)), [Recv(1, 4)],
            Alone(1, TRANSIT, Talking(id, q, [], b[..4], false), Link(f, b[4..], [], log)));
  }

  lemma ReadsBody(id: int, q: seq<Byte>, f: seq<Byte>, b: seq<Byte>, log: seq<Exchange>, n: nat)
    requires 0 < n && 4 + n <= |b| && DecodeUint32(b[..4]) == n
    ensures Reaches(Alone(1, TRANSIT, Talking(id, q, [], b[..4], false), Link(f, b[4..], [], log)), [Reserve(1)] + [Recv(1, n)],
                    Alone(1, TRANSIT, Talking(id, q, [], b[..4 + n], true), Link(f, b[4 + n..], [], log)))
  {
    var x := b[..4];
    assert x[..4] == x && Need(x) == n;
    assert x + b[4..][..n] == b[..4 + n] && b[4..][n..] == b[4 + n..];
    hide DecodeUint32, Reaches, Need, Alone;
    var r, d := Talking(id, q, [], x, false), Link(f, b[4..], [], log);
    Reserves(1, r, d);
    Recvs(1, r.(reserved := true), d, n);
    Onwards(Alone(1, TRANSIT, r, d), [Reserve(1)], Alone(1, TRANSIT, r.(reserved := true), d), [Recv(1, n)],
            Alone(1, TRANSIT, Talking(id, q, [], b[..4 + n], true), Link(f, b[4 + n..], [], log)));
  }

  // ----- The runs -----------------------------------------------------------------------------

  /** The call `id` up to its response of at least 64 bytes, whose reservation fails. */
  lemma FirstCall(id: int, ps: seq<Part>, answer: seq<Part>) returns (steps: seq<Step>, log: seq<Exchange>)
    requires Requestable(id, ps) && |EncodeMessage(id, true, ps)| < MAX_REQUEST && Sendable(id, Success(answer))
    requires FIRST_CAPACITY <= |EncodeMessage(id, false, answer)| < MAX_REQUEST
    ensures Reaches(INIT, steps, Pooled(EncodeMessage(id, false, answer), log))
  {
    var q, b, r := EncodeMessage(id, true, ps), EncodeMessage(id, false, answer), Success(answer);
    RequestId(id, ps);
    assert Replying(q, r) && ReplyText(q, r) == b && |q| > 0;
    Pieces(b);
    hide Reaches, EncodeMessage, Replying, ReplyText, Requestable, Sendable, Frame, Alone, Pooled;
    log := [Exchange(q, b)];
    var a := Asks(id, ps);
    var h := Hears(id, q);
    var w := Answers(id, q, r);
    Gives(id, q, Frame(b)[..4], b, log);
    var s1, s2, s3 := Alone(0, TRANSIT, Talking(id, q, Frame(q), [], false), NEW),
                      Alone(0, TRANSIT, Talking(id, q, [], [], false), Link([], [], Frame(q), [])),
                      Alone(0, TRANSIT, Talking(id, q, [], Frame(b)[..4], false), Link([], b, [], log));
    steps := a + h + w + ([ReserveFail(0)] + [Done(0)]);
    Onwards(INIT, a, s1, h, s2);
    Onwards(INIT, a + h, s2, w, s3);
    Onwards(INIT, a + h + w, s3, [ReserveFail(0)] + [Done(0)], Pooled(b, log));
  }

  lemma RequestId(id: int, ps: seq<Part>)
    requires IsCall(id)
    ensures CallId(EncodeMessage(id, true, ps)) == id && |EncodeMessage(id, true, ps)| > 0
  {
    hide ParseHeader, EncodeAll, PartsOf;
    HeaderRoundTrip(id, true, EncodeAll(ps));
  }

  /**
    Any second call on the connection reads the frame cut from the response. It ends with CKR_DEVICE_ERROR,
    or makes the client abort, and which of the two depends only on the two call ids.
   */
  lemma SecondCall(id: int, ps: seq<Part>, answer: seq<Part>, id2: int, ps2: seq<Part>) returns (steps: seq<Step>, s: State)
    requires Requestable(id, ps) && |EncodeMessage(id, true, ps)| < MAX_REQUEST && Sendable(id, Success(answer))
    requires FIRST_CAPACITY + 8 <= |EncodeMessage(id, false, answer)| < MAX_REQUEST
    requires Requestable(id2, ps2)
    ensures Reaches(INIT, steps, s) && HasReply(s, 1) && s.threads[1].phase.req == EncodeMessage(id2, true, ps2)
    ensures Ruling(s, 1) == if id >= 4 && SignatureLength(id) == id2 then Aborts else Returns(Ckr.DEVICE_ERROR)
  {
    var b, q := EncodeMessage(id, false, answer), EncodeMessage(id2, true, ps2);
    assert Unread(b, id) by { assert b == ReplyBytes(id, Success(answer)); }
    UnreadFront(b, id);
    assert IsCall(id2);
    var first, log := FirstCall(id, ps, answer);
    hide EncodeMessage, Requestable, Sendable, EncodeUint32, SignatureLength, Unread, Judge;
    Uint32RoundTrip(id);
    s := Misled(id2, q, b[..4 + id], b, log);
    SecondRuling(b, id, id2, q, log);
    hide Reaches, Alone, Pooled, Frame, Misled, HasReply;
    Takes(b, log);
    Runs(1, id2, ps2, Link([], b, [], log));
    var reading := ReadsOld(id2, q, b, log, id);
    var s2, s3 := Alone(1, READY, Looked, Link([], b, [], log)), Alone(1, TRANSIT, Talking(id2, q, Frame(q), [], false), Link([], b, [], log));
    var asking := [Prepare(1)] + [CallPool.Run(1, id2, ps2)];
    steps := first + [Pop(1)] + asking + reading;
    Onwards(INIT, first, Pooled(b, log), [Pop(1)], s2);
    Onwards(INIT, first + [Pop(1)], s2, asking, s3);
    Onwards(INIT, first + [Pop(1)] + asking, s3, reading, s);
  }

  lemma SecondRuling(b: seq<Byte>, id: int, id2: int, q: seq<Byte>, log: seq<Exchange>)
    requires Unread(b, id) && 4 + id <= |b| && IsCall(id) && IsCall(id2) && DecodeUint32(b[..4]) == id
    ensures
      var s := Misled(id2, q, b[..4 + id], b, log);
      && HasReply(s, 1) && s.threads[1].phase.req == q
      && Ruling(s, 1) == if id >= 4 && SignatureLength(id) == id2 then Aborts else Returns(Ckr.DEVICE_ERROR)
  {
    var read := b[..4 + id];
    assert read[4..] == b[4..4 + id];
    CutWhole(b, id);
    hide DecodeUint32, Whole, HasReply, Misled, Judge, Unread, SignatureLength;
    SecondReads(id2, q, read, b, log);
    SecondJudged(b, id, id2);
  }

  lemma SecondJudged(b: seq<Byte>, id: int, id2: int)
    requires Unread(b, id) && 4 + id <= |b| && IsCall(id) && IsCall(id2) && Whole(b[..4 + id])
    ensures Judge(id2, b[4..4 + id]) == if id >= 4 && SignatureLength(id) == id2 then Aborts else Returns(Ckr.DEVICE_ERROR)
  {
    hide DecodeUint32, Whole, Judge, Unread, SignatureLength;
    var read := b[..4 + id];
    assert read[4..] == b[4..4 + id] && read + b[4 + id..] == b;
    MisledFrame(read, b[4 + id..], b, id, id2);
  }

  lemma CutWhole(b: seq<Byte>, id: nat)
    requires 4 + id <= |b| && DecodeUint32(b[..4]) == id
    ensures Whole(b[..4 + id])
  {
    assert b[..4 + id][..4] == b[..4];
  }

  lemma SecondReads(id: int, q: seq<Byte>, read: seq<Byte>, b: seq<Byte>, log: seq<Exchange>)
    requires |read| <= |b| && Whole(read)
    ensures
      var s := Misled(id, q, read, b, log);
      HasReply(s, 1) && s.threads[1].phase.req == q && Ruling(s, 1) == Judge(id, read[4..])
  {
    hide Judge, Frame;
  }

  // ----- An input -----------------------------------------------------------------------------

  const SLOT_INFO := 5

  /** A slot's description and manufacturer, flags and versions. */
  function SlotInfo(): seq<Part> {
    [PString(seq(64, _ => 0x20)), PString(seq(32, _ => 0x20)), PUlong(0), PVersion(0, 0), PVersion(0, 0)]
  }

  lemma SlotInfoParts()
    ensures Sendable(SLOT_INFO, Success(SlotInfo())) && |EncodeMessage(SLOT_INFO, false, SlotInfo())| == 129
    ensures SignatureLength(SLOT_INFO) == 5
  {
    assert PartsOf(SLOT_INFO, false) == [S, S, U, V, V];
    hide PartsOf;
    SlotInfoSizes();
    SlotInfoSignature();
    hide EncodeAll, Codes, SlotInfo, Kinds, AllFit;
  }

  lemma SlotInfoSignature()
    ensures |Codes([S, S, U, V, V])| == 5
  {
    var ks := [S, S, U, V, V];
    assert ks[1..] == [S, U, V, V] && [S, U, V, V][1..] == [U, V, V] && [U, V, V][1..] == [V, V] && [V, V][1..] == [V] && [V][1..] == [];
    assert Codes([V]) == "v" + Codes([]) && Codes([V, V]) == "v" + Codes([V]) && Codes([U, V, V]) == "u" + Codes([V, V]);
    assert Codes([S, U, V, V]) == "s" + Codes([U, V, V]) && Codes(ks) == "s" + Codes([S, U, V, V]);
  }

  lemma SlotInfoSizes()
    ensures Kinds(SlotInfo()) == [S, S, U, V, V] && |EncodeAll(SlotInfo())| == 116 && AllFit(SlotInfo())
  {
    hide EncodeUint32, EncodeUint64;
    var ps := SlotInfo();
    var p4, p3, p2, p1 := [ps[4]], [ps[3], ps[4]], [ps[2], ps[3], ps[4]], [ps[1], ps[2], ps[3], ps[4]];
    assert p4[1..] == [] && p3[1..] == p4 && p2[1..] == p3 && p1[1..] == p2 && ps[1..] == p1;
    assert Kinds(p4) == [V] && |EncodeAll(p4)| == 2;
    assert Kinds(p3) == [V] + Kinds(p4) && |EncodeAll(p3)| == 4;
    assert Kinds(p2) == [U] + Kinds(p3) && |EncodeAll(p2)| == 12;
    assert Kinds(p1) == [S] + Kinds(p2) && |EncodeAll(p1)| == 48;
    assert Kinds(ps) == [S] + Kinds(p1) && |EncodeAll(ps)| == 116;
  }

  lemma SlotInfoAsked()
    ensures Requestable(SLOT_INFO, [PUlong(0)]) && |EncodeMessage(SLOT_INFO, true, [PUlong(0)])| < MAX_REQUEST
  {
    var ps := [PUlong(0)];
    assert PartsOf(SLOT_INFO, true) == [U];
    hide PartsOf;
    assert Kinds(ps) == [U] + Kinds([]);
    SmallCarried(SLOT_INFO, ps);
  }

  /** C_GetSlotInfo after a C_GetSlotInfo whose response could not be reserved makes the client abort. */
  lemma SlotInfoAborts() returns (steps: seq<Step>, s: State)
    ensures Reaches(INIT, steps, s) && HasReply(s, 1) && Ruling(s, 1) == Aborts
  {
    SlotInfoParts();
    SlotInfoAsked();
    hide Requestable, Sendable, EncodeMessage, SlotInfo, SignatureLength;
    steps, s := SecondCall(SLOT_INFO, [PUlong(0)], SlotInfo(), SLOT_INFO, [PUlong(0)]);
  }
}
