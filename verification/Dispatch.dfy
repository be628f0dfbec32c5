/**
  Whole messages through the buffers: building a request or a response part by part, taking one apart,
  and the daemon's dispatch_call between them. Every step may run out of memory.
 */
module Dispatch {
  import opened Bytes
  import opened EggBuffers
  import opened Signature
  import opened Wire
  import opened Arguments
  import opened Proxy
  import opened ProxyAttributes
  import opened Messages
  import opened Verdicts
  import opened Truncation
  import Ckr
  import Framing
  import Mechanisms

  /** What C can hold: counts fit the wire, and blocks are objects, which may still be too long for it. */
  predicate Bounded(p: Part) {
    match p
    case PBytes(data) => |data| <= MAX_OBJECT
    case PUlongs(vs) => |vs| < TWO_32
    case PAttributes(attrs) => |attrs| < TWO_32 && forall a <- attrs :: a.Value? ==> |a.value| <= MAX_OBJECT
    case PAttributeBuffer(wants) => |wants| < TWO_32
    case PByteBuffer(_, nullCount, room) => nullCount ==> room == 0
    case _ => true
  }

  /** A part the writers put into the buffer as it is, if it fits the wire. */
  predicate Writable(p: Part) {
    && Bounded(p)
    && (p.PMechanism? ==> Mechanisms.IsSupported(p.mech) && (Mechanisms.HasNoParameters(p.mech) ==> p.param.None?))
  }

  function FromWire(a: Attribute): (c: CkAttribute)
    requires a.Value? ==> |a.value| <= MAX_OBJECT
    ensures ToWire(c) == a && Readable(c)
  {
    match a
    case Invalid(t) => CkAttribute(t, None, UNAVAILABLE)
    case Null(t, n) => CkAttribute(t, None, n)
    case Value(t, v) => assert v[..|v|] == v; CkAttribute(t, Some(v), |v|)
  }

  function FromWireAll(l: seq<Attribute>): (cs: seq<CkAttribute>)
    requires forall a <- l :: a.Value? ==> |a.value| <= MAX_OBJECT
    ensures ToWireAll(cs) == l
    ensures forall i | 0 <= i < |cs| :: Readable(cs[i])
  {
    seq(|l|, i requires 0 <= i < |l| => FromWire(l[i]))
  }

  function FromWant(w: Want): (c: CkAttribute)
    ensures WantOf(c) == w
  {
    CkAttribute(w.typ, if w.len == 0 then None else Some([]), w.len)
  }

  function FromWants(ws: seq<Want>): (cs: seq<CkAttribute>)
    ensures WantsOf(cs) == ws
  {
    seq(|ws|, i requires 0 <= i < |ws| => FromWant(ws[i]))
  }

  /** The writer of each part. */
  method WritePart(msg: Message, p: Part)
    requires msg.Valid() && msg.Expects(KindOf(p)) && Writable(p)
    modifies msg`sigverify, msg.buffer, msg.buffer.buf
    ensures msg.Gained(Encode(p), Fits(p)) && msg.Advanced(KindOf(p))
    ensures !Fits(p) ==> msg.buffer.failures > old(msg.buffer.failures)
  {
    hide Encode, VerifyPart, Mechanisms.HasNoParameters, Mechanisms.HasSaneParameters;
    match p
    case PByte(b) => var _ := msg.WriteByte(b);
    case PUlong(v) => var _ := msg.WriteUlong(v);
    case PString(s) => var _ := msg.WriteSpaceString(s);
    case PVersion(major, minor) => var _ := msg.WriteVersion(major, minor);
    case PMechanism(mech, param) => var _ := msg.WriteMechanism(mech, param);
    case PBytes(data) => var _ := msg.WriteByteArray(Some(data), |data|);
    case PNoBytes(n) => var _ := msg.WriteByteArray(None, n);
    case PUlongs(vs) => var _ := msg.WriteUlongArray(Some(vs), |vs|);
    case PNoUlongs(n) => var _ := msg.WriteUlongArray(None, n);
    case PAttributes(attrs) => var _ := msg.WriteAttributeArray(FromWireAll(attrs));
    case PByteBuffer(nullData, nullCount, room) =>
      var _ := msg.WriteByteBuffer(nullData, if nullCount then None else Some(room));
    case PUlongBuffer(room) => var _ := msg.WriteUlongBuffer(room);
    case PAttributeBuffer(wants) => var _ := msg.WriteAttributeBuffer(FromWants(wants));
  }

  lemma {:induction false} PartsAppend(ps: seq<Part>, p: Part)
    ensures EncodeAll(ps + [p]) == EncodeAll(ps) + Encode(p)
  {
    hide Encode;
    if ps == [] {
      assert ps + [p] == [p] && EncodeAll([p]) == Encode(p) + EncodeAll([]);
    } else {
      assert (ps + [p])[1..] == ps[1..] + [p];
      PartsAppend(ps[1..], p);
    }
  }

  lemma NoParts()
    ensures EncodeAll([]) == [] && Codes([]) == ""
  {
  }

  /** What is left of a signature once its first part has passed. */
  lemma SignatureStep(ks: seq<Kind>)
    requires ks != []
    ensures VerifyPart(Codes(ks), Code(ks[0])) == Some(Codes(ks[1..]))
  {
    assert Codes(ks) == Code(ks[0]) + Codes(ks[1..]);
  }

  /** The signature cursor stands before the parts `ks`, or there is no signature. */
  predicate Before(msg: Message, ks: seq<Kind>)
    reads msg
  {
    msg.sigverify.None? || msg.sigverify == Some(Codes(ks))
  }

  /** One more part, after those whose encoding is `e`. */
  method WriteNextPart(msg: Message, p: Part, ghost before: seq<Byte>, ghost e: seq<Byte>, ghost failed: nat, ghost ks: seq<Kind>)
    requires msg.Valid() && Writable(p) && failed <= msg.buffer.failures
    requires ks != [] && ks[0] == KindOf(p) && Before(msg, ks)
    requires msg.buffer.failures == failed ==> msg.Contents() == before + e
    modifies msg`sigverify, msg.buffer, msg.buffer.buf
    ensures msg.Valid() && (msg.buffer.buf == old(msg.buffer.buf) || fresh(msg.buffer.buf))
    ensures old(msg.buffer.failures) <= msg.buffer.failures && msg.callId == old(msg.callId)
    ensures msg.buffer.failures == failed ==> msg.Contents() == before + (e + Encode(p))
    ensures !Fits(p) ==> failed < msg.buffer.failures
    ensures
      && msg.buffer.Ample() && Fits(p) && old(msg.buffer.failures) == failed && |before| + |e| + |Encode(p)| <= ROOM
      ==> msg.buffer.failures == failed
    ensures Before(msg, ks[1..]) && (msg.sigverify.None? <==> old(msg.sigverify.None?))
  {
    SignatureStep(ks);
    hide Encode, Fits, Writable, VerifyPart, Codes, Code;
    Assoc(before, e, Encode(p));
    WritePart(msg, p);
  }

  /** A call's arguments or results, written one after the other; any part `k` too long for the wire is a failure. */
  method WriteParts(msg: Message, ps: seq<Part>, ghost k: nat)
    requires msg.Valid() && Before(msg, Kinds(ps)) && forall i | 0 <= i < |ps| :: Writable(ps[i])
    modifies msg`sigverify, msg.buffer, msg.buffer.buf
    ensures msg.Gained(EncodeAll(ps), AllFit(ps)) && msg.IsVerified() && msg.callId == old(msg.callId)
    ensures k < |ps| && !Fits(ps[k]) ==> msg.buffer.failures > old(msg.buffer.failures)
  {
    ghost var before, failed, ks, fits := msg.Contents(), msg.buffer.failures, Kinds(ps), true;
    var i := 0;
    NoParts();
    hide Encode, EncodeAll, Fits, Writable, Kinds, KindOf, Codes, Code, VerifyPart;
    assert ps[..0] == [] && ks[0..] == ks && before + [] == before;
    while i < |ps|
      invariant 0 <= i <= |ps| && msg.Valid() && (msg.buffer.buf == old(msg.buffer.buf) || fresh(msg.buffer.buf))
      invariant failed <= msg.buffer.failures && msg.callId == old(msg.callId) && Before(msg, ks[i..])
      invariant msg.buffer.failures == failed ==> msg.Contents() == before + EncodeAll(ps[..i])
      invariant k < i && !Fits(ps[k]) ==> failed < msg.buffer.failures
      invariant AllFit(ps) ==> fits
      invariant msg.buffer.Ample() && fits && |before| + |EncodeAll(ps[..i])| <= ROOM ==> msg.buffer.failures == failed
    {
      fits := fits && Fits(ps[i]);
      KindsAt(ps, i);
      assert ps[..i + 1] == ps[..i] + [ps[i]] && ks[i..][0] == ks[i] && ks[i..][1..] == ks[i + 1..];
      PartsAppend(ps[..i], ps[i]);
      WriteNextPart(msg, ps[i], before, EncodeAll(ps[..i]), failed, ks[i..]);
      assert k < i && !Fits(ps[k]) ==> failed < msg.buffer.failures;
      assert k == i && !Fits(ps[k]) ==> failed < msg.buffer.failures;
      i := i + 1;
    }
    assert ps[..i] == ps && ks[i..] == [];
  }

  lemma {:induction false} KindsAt(ps: seq<Part>, i: nat)
    requires i < |ps|
    ensures Kinds(ps)[i] == KindOf(ps[i])
  {
    if i == 0 {
    } else {
      KindsAt(ps[1..], i - 1);
    }
  }

  /** A message either holds exactly its encoding, whose every part fits the wire, or is marked as damaged. */
  method Build(msg: Message, id: int, request: bool, ps: seq<Part>) returns (ok: bool)
    requires msg.Valid() && CALL_ERROR <= id < CALL_MAX && forall i | 0 <= i < |ps| :: Writable(ps[i])
    requires id != CALL_ERROR ==> Kinds(ps) == PartsOf(id, request)
    modifies msg, msg.buffer, msg.buffer.buf
    ensures msg.Valid() && (msg.buffer.buf == old(msg.buffer.buf) || fresh(msg.buffer.buf))
    ensures ok <==> msg.buffer.failures == 0
    ensures ok ==> msg.Contents() == EncodeMessage(id, request, ps) && AllFit(ps)
    ensures msg.buffer.Ample() && AllFit(ps) && |EncodeMessage(id, request, ps)| <= ROOM ==> ok
    ensures msg.callId == id
  {
    hide Header, Writable;
    ok := msg.Prep(id, request);
    if ok {
      ok := Finish(msg, id, request, ps);
    }
  }

  /** The parts of a message that has just been prepared. */
  method Finish(msg: Message, id: int, request: bool, ps: seq<Part>) returns (ok: bool)
    requires msg.Valid() && CALL_ERROR <= id < CALL_MAX && forall i | 0 <= i < |ps| :: Writable(ps[i])
    requires msg.Contents() == Header(id, request) && msg.buffer.failures == 0 && Before(msg, Kinds(ps))
    modifies msg`sigverify, msg.buffer, msg.buffer.buf
    ensures msg.Valid() && (msg.buffer.buf == old(msg.buffer.buf) || fresh(msg.buffer.buf))
    ensures ok <==> msg.buffer.failures == 0
    ensures ok ==> msg.Contents() == EncodeMessage(id, request, ps) && AllFit(ps)
    ensures msg.buffer.Ample() && AllFit(ps) && |EncodeMessage(id, request, ps)| <= ROOM ==> ok
    ensures msg.IsVerified() && msg.callId == old(msg.callId)
  {
    hide EncodeAll, Header, Fits, Writable;
    ghost var k := 0;
    if j :| 0 <= j < |ps| && !Fits(ps[j]) { k := j; }
    WriteParts(msg, ps, k);
    ok := !msg.buffer.HasError();
  }

  /** The reader of each part. */
  method ReadPart(msg: Message, k: Kind) returns (r: Result<Part>)
    requires msg.Valid() && msg.Expects(k)
    modifies msg, msg.buffer`failures
    ensures msg.Took(k, r) && msg.Advanced(k)
  {
    hide Decode, VerifyPart, Granted, Allocates;
    match k
    case Y => r := msg.ReadByte();
    case U => r := msg.ReadUlong();
    case S => r := msg.ReadSpaceString();
    case V => r := msg.ReadVersion();
    case M => r := msg.ReadMechanism();
    case AY => r := msg.ReadByteArray();
    case AU => r := msg.ReadUlongArray();
    case AA => r := msg.ReadAttributeArray();
    case FY => r := msg.ReadByteBuffer();
    case FU => r := msg.ReadUlongBuffer();
    case FA => r := msg.ReadAttributeBuffer();
  }

  method ReadNextPart(msg: Message, ks: seq<Kind>) returns (r: Result<Part>)
    requires msg.Valid() && ks != [] && Before(msg, ks)
    modifies msg, msg.buffer`failures
    ensures msg.Took(ks[0], r) && Before(msg, ks[1..]) && msg.callId == old(msg.callId)
  {
    SignatureStep(ks);
    hide Decode, VerifyPart, Codes, Code, Granted, Allocates;
    r := ReadPart(msg, ks[0]);
  }

  /** A call's arguments, read one after the other up to the first that is missing or too large. */
  method ReadParts(msg: Message, ks: seq<Kind>) returns (r: Result<seq<Part>>)
    requires msg.Valid() && Before(msg, ks)
    modifies msg, msg.buffer`failures
    ensures msg.Valid() && msg.Contents() == old(msg.Contents()) && msg.buffer.failures >= old(msg.buffer.failures)
    ensures msg.callId == old(msg.callId)
    ensures
      match DecodeAll(ks, msg.Contents(), old(msg.parsed))
      case Short => r == Err(Ckr.PARSE_ERROR) || r == Err(Ckr.DEVICE_MEMORY)
      case Got(ps, next) =>
        || (r == Err(Ckr.DEVICE_MEMORY) && !(msg.buffer.reliable && forall p <- ps :: Granted(p)))
        || (r == Ok(ps) && (forall p <- ps :: Granted(p)) && msg.parsed == next && msg.IsVerified()
            && msg.buffer.failures == old(msg.buffer.failures))
  {
    hide Decode, Granted, Allocates;
    var ps: seq<Part> := [];
    var i := 0;
    assert ks[0..] == ks;
    PrefixedNone(DecodeAll(ks, msg.Contents(), msg.parsed));
    while i < |ks|
      invariant 0 <= i <= |ks| && msg.Valid() && msg.Contents() == old(msg.Contents())
      invariant msg.buffer.failures == old(msg.buffer.failures) && msg.callId == old(msg.callId) && Before(msg, ks[i..])
      invariant forall p <- ps :: Granted(p)
      invariant DecodeAll(ks, msg.Contents(), old(msg.parsed)) == Prefixed(ps, DecodeAll(ks[i..], msg.Contents(), msg.parsed))
    {
      ghost var more := DecodeAll(ks[i..], msg.Contents(), msg.parsed);
      assert ks[i..][1..] == ks[i + 1..];
      var p := ReadNextPart(msg, ks[i..]);
      if p.Err? { return Err(p.rv); }
      ghost var rest := DecodeAll(ks[i + 1..], msg.Contents(), msg.parsed);
      assert more == Prefixed([p.value], rest);
      PrefixedTwice(ps, [p.value], rest);
      ps := ps + [p.value];
      i := i + 1;
    }
    assert ks[i..] == [] && ps + [] == ps;
    return Ok(ps);
  }

  // ----- The client's request -----------------------------------------------------------------

  /** More than any part but a template of values can take, and far less than memory can hold. */
  const PART_ROOM := 0x4_0000_0000_0000

  /** If the argument is sent it takes no more than that. */
  predicate Light(p: Part) {
    Admit(p).Ok? ==> |Encode(Admit(p).value)| <= PART_ROOM
  }

  lemma {:induction false} ListSizes(vs: seq<Ulong>, ws: seq<Want>)
    ensures |EncodeUlongs(vs)| == 8 * |vs| && |EncodeWants(ws)| == 8 * |ws|
    decreases |vs| + |ws|
  {
    hide EncodeUint32, EncodeUint64;
    if vs == [] && ws == [] {
    } else if vs != [] {
      ListSizes(vs[1..], ws);
    } else {
      ListSizes(vs, ws[1..]);
    }
  }

  /** Only a template of values can be heavier. */
  lemma LightPart(p: Part)
    requires Bounded(p) && !p.PAttributes?
    ensures Light(p)
  {
    hide EncodeUint32, EncodeUint64, EncodeUlongs, EncodeWants, Mechanisms.HasNoParameters, Mechanisms.HasSaneParameters;
    if Admit(p).Ok? {
      match Admit(p).value
      case PUlongs(vs) => ListSizes(vs, []);
      case PAttributeBuffer(ws) => ListSizes([], ws);
      case _ =>
    }
  }

  /** The IN_* macros on one argument of a request that is undamaged so far. */
  method PutArgument(req: Message, p: Part) returns (rv: Ulong)
    requires req.Valid() && req.Expects(KindOf(p)) && Bounded(p) && req.buffer.failures == 0
    modifies req`sigverify, req.buffer, req.buffer.buf
    ensures req.Valid() && (req.buffer.buf == old(req.buffer.buf) || fresh(req.buffer.buf))
    ensures rv == Ckr.OK ==>
      && Admit(p).Ok? && req.buffer.failures == 0 && req.Contents() == old(req.Contents()) + Encode(Admit(p).value)
      && req.Advanced(KindOf(p))
    ensures rv != Ckr.OK ==> rv == Ckr.HOST_MEMORY || Admit(p) == Err(rv)
    ensures Admit(p).Err? ==> rv == Admit(p).rv
    ensures req.buffer.Ample() && Admit(p).Ok? && |old(req.Contents())| + |Encode(Admit(p).value)| <= ROOM ==> rv == Ckr.OK
  {
    hide Encode, VerifyPart, Mechanisms.HasNoParameters, Mechanisms.HasSaneParameters, Bounded;
    if p.PNoBytes? && p.len != 0 { return Ckr.ARGUMENTS_BAD; }
    if p.PNoUlongs? && p.n != 0 { return Ckr.ARGUMENTS_BAD; }
    if p.PMechanism? {
      rv := req.WriteMechanism(p.mech, p.param);
    } else {
      WritePart(req, p);
      rv := if req.buffer.HasError() then Ckr.HOST_MEMORY else Ckr.OK;
    }
  }

  /** One more argument, after those sent as `sent`. */
  method PutNext(req: Message, p: Part, ghost before: seq<Byte>, ghost sent: seq<Part>, ghost ks: seq<Kind>, ghost light: bool)
    returns (rv: Ulong)
    requires req.Valid() && Bounded(p) && req.buffer.failures == 0 && req.Contents() == before + EncodeAll(sent)
    requires ks != [] && ks[0] == KindOf(p) && Before(req, ks)
    requires light ==> req.buffer.Ample() && Light(p) && |req.Contents()| <= ROOM - PART_ROOM
    modifies req`sigverify, req.buffer, req.buffer.buf
    ensures req.Valid() && (req.buffer.buf == old(req.buffer.buf) || fresh(req.buffer.buf))
    ensures rv == Ckr.OK ==>
      && Admit(p).Ok? && req.buffer.failures == 0 && Before(req, ks[1..])
      && req.Contents() == before + EncodeAll(sent + [Admit(p).value])
      && (light ==> |req.Contents()| <= |old(req.Contents())| + PART_ROOM)
    ensures rv != Ckr.OK ==> (!light && rv == Ckr.HOST_MEMORY) || Admit(p) == Err(rv)
  {
    SignatureStep(ks);
    hide Encode, EncodeAll, Admit, Bounded, VerifyPart, Codes, Code;
    rv := PutArgument(req, p);
    if rv == Ckr.OK {
      PartsAppend(sent, Admit(p).value);
      Assoc(before, EncodeAll(sent), Encode(Admit(p).value));
    }
  }

  /**
    A call's arguments, up to the first that is refused or cannot be written. If they are light, as the
    caller says, and memory does not run out, only a refusal stops it.
   */
  method PutArguments(req: Message, ps: seq<Part>, ghost light: bool) returns (rv: Ulong)
    requires req.Valid() && req.buffer.failures == 0 && Before(req, Kinds(ps)) && forall i | 0 <= i < |ps| :: Bounded(ps[i])
    requires |req.Contents()| <= 64 && |ps| <= 18 && (light ==> req.buffer.Ample() && forall i | 0 <= i < |ps| :: Light(ps[i]))
    modifies req`sigverify, req.buffer, req.buffer.buf
    ensures req.Valid() && (req.buffer.buf == old(req.buffer.buf) || fresh(req.buffer.buf))
    ensures rv == Ckr.OK ==>
      && AdmitAll(ps).Ok? && req.buffer.failures == 0 && req.IsVerified()
      && req.Contents() == old(req.Contents()) + EncodeAll(AdmitAll(ps).value)
    ensures rv != Ckr.OK ==> (!light && rv == Ckr.HOST_MEMORY) || AdmitAll(ps) == Err(rv)
  {
    hide Admit, AdmitAll, Encode, EncodeAll, Bounded, Kinds, KindOf, Codes;
    ghost var before, ks, sent := req.Contents(), Kinds(ps), [];
    var i := 0;
    NoParts();
    assert ks[0..] == ks && before + [] == before;
    while i < |ps|
      invariant 0 <= i <= |ps| && req.Valid() && (req.buffer.buf == old(req.buffer.buf) || fresh(req.buffer.buf))
      invariant req.buffer.failures == 0 && req.Contents() == before + EncodeAll(sent) && Before(req, ks[i..])
      invariant |sent| == i && forall j | 0 <= j < i :: Admit(ps[j]) == Ok(sent[j])
      invariant light ==> |req.Contents()| <= 64 + PART_ROOM * i
    {
      KindsAt(ps, i);
      assert ks[i..][0] == ks[i] && ks[i..][1..] == ks[i + 1..];
      rv := PutNext(req, ps[i], before, sent, ks[i..], light);
      if rv != Ckr.OK {
        if Admit(ps[i]).Err? { FirstRefused(ps, i); }
        return;
      }
      sent := sent + [Admit(ps[i]).value];
      i := i + 1;
    }
    NoneRefused(ps, sent);
    assert ks[i..] == [];
    rv := Ckr.OK;
  }

  lemma Refused(id: int, ps: seq<Part>)
    requires forall i | 0 <= i < |ps| :: Bounded(ps[i])
    ensures Admitted(id, ps) == if Refusal(id, ps) != 0 then Err(Refusal(id, ps)) else Ok(AllSentAs(ps))
  {
    forall p <- ps ensures Countable(p) {
      var i :| 0 <= i < |ps| && ps[i] == p;
      assert Bounded(ps[i]);
    }
    RefusedIff(id, ps);
  }

  /**
    The client's half of a call before anything is sent. A damaged request never leaves, and one with an
    argument that is refused does not either.
   */
  method Request(req: Message, id: int, ps: seq<Part>) returns (rv: Ulong, wire: seq<Byte>)
    requires req.Valid() && IsCall(id) && Kinds(ps) == PartsOf(id, true) && forall i | 0 <= i < |ps| :: Bounded(ps[i])
    modifies req, req.buffer, req.buffer.buf
    ensures req.Valid()
    ensures rv == Ckr.OK ==> Admitted(id, ps).Ok? && wire == EncodeMessage(id, true, Admitted(id, ps).value) && req.buffer.failures == 0
    ensures rv != Ckr.OK ==> rv == Ckr.HOST_MEMORY || Admitted(id, ps) == Err(rv)
    ensures req.buffer.Ample() && (forall i | 0 <= i < |ps| :: Light(ps[i])) ==>
      rv == if Admitted(id, ps).Ok? then Ckr.OK else Admitted(id, ps).rv
    ensures rv == 0 ==> Refusal(id, ps) == 0 && wire == EncodeMessage(id, true, AllSentAs(ps))
    ensures rv != 0 ==> rv == 2 || rv == Refusal(id, ps)
    ensures req.buffer.Ample() && (forall i | 0 <= i < |ps| :: Light(ps[i])) ==> rv == Refusal(id, ps)
  {
    HeaderShort(id, true);
    Refused(id, ps);
    hide Header, Bounded, AdmitAll, EncodeAll, EntryCheck, Light, Refusal, AllSentAs;
    wire := [];
    rv := EntryCheck(id, ps);
    if rv != Ckr.OK { return; }
    var ok := req.Prep(id, true);
    if !ok { return Ckr.HOST_MEMORY, wire; }
    rv := PutArguments(req, ps, req.buffer.Ample() && forall i | 0 <= i < |ps| :: Light(ps[i]));
    if rv != Ckr.OK { return; }
    assert !req.buffer.HasError();  // what call_run checks once more
    wire := req.buffer.buf[..req.buffer.len];
  }

  /** Two messages that share nothing. */
  predicate Apart(a: Message, b: Message)
    reads a, b, a.buffer, b.buffer
  {
    a != b && a.buffer != b.buffer && a.buffer.buf != b.buffer.buf
  }

  // ----- The daemon ---------------------------------------------------------------------------

  /** The calls of the real module: what to answer to a request. */
  type Service = (int, seq<Part>) -> Reply

  predicate ServiceOk(serve: Service, id: int, ps: seq<Part>) {
    var r := serve(id, ps);
    r.Success? ==>
      && IsCall(id) && Kinds(r.parts) == PartsOf(id, false) && (forall i | 0 <= i < |r.parts| :: Writable(r.parts[i]))
      && (AllFit(r.parts) ==> |EncodeMessage(id, false, r.parts)| <= ROOM)
  }

  /**
    The daemon's answer to a call if memory does not run out: blocks that call_alloc refuses and results that
    are too long for the wire are a lack of memory all the same.
   */
  function Turned(serve: Service, id: int, ps: seq<Part>): Reply {
    if exists p <- ps :: !Granted(p) then Error(Ckr.DEVICE_MEMORY)
    else if serve(id, ps).Success? && !AllFit(serve(id, ps).parts) then Error(Ckr.PREP_ERROR)
    else serve(id, ps)
  }

  /**
    dispatch_call with the rpc function of the call: false if nothing can be sent. Otherwise the response
    is undamaged, and it is a success only if the request was read without fault and the call succeeded.
   */
  method DispatchCall(req: Message, resp: Message, serve: Service) returns (ok: bool, answer: Reply)
    requires req.Valid() && resp.Valid() && Apart(req, resp)
    requires IsCall(req.callId) && req.sigverify == Some(Codes(PartsOf(req.callId, true))) && req.buffer.failures == 0
    requires forall ps :: ServiceOk(serve, req.callId, ps)
    modifies req, req.buffer`failures, resp, resp.buffer, resp.buffer.buf
    ensures req.Valid() && resp.Valid()
    ensures ok ==> resp.buffer.failures == 0 && Sendable(old(req.callId), answer)
    ensures ok ==> resp.Contents() == ReplyBytes(old(req.callId), answer)
    ensures
      match DecodeAll(PartsOf(old(req.callId), true), old(req.Contents()), old(req.parsed))
      case Short => ok ==> answer == Error(Ckr.PARSE_ERROR) || answer == Error(Ckr.DEVICE_MEMORY)
      case Got(ps, _) =>
        && (ok ==> answer == Turned(serve, old(req.callId), ps) || answer == Error(Ckr.DEVICE_MEMORY))
        && (req.buffer.reliable && resp.buffer.Ample() ==> answer == Turned(serve, old(req.callId), ps))
    ensures resp.buffer.Ample() ==> ok
  {
    ErrorRoom();
    hide EncodeMessage, DecodeAll, PartsOf, AllFit, Header, Codes, Granted, Writable;
    var id := req.callId;
    answer := Error(Ckr.PREP_ERROR);
    ok := resp.Prep(id, false);
    if !ok { return; }
    var ps := ReadParts(req, PartsOf(id, true));
    answer := if ps.Err? then Error(ps.rv) else serve(id, ps.value);
    if answer.Success? {
      assert ServiceOk(serve, id, ps.value);
      ok := Finish(resp, id, false, answer.parts);
      if ok { return; }
      answer := Error(Ckr.PREP_ERROR);
    }
    ok := Build(resp, CALL_ERROR, false, [PUlong(Truncate32(answer.rv))]);
  }

  lemma ErrorRoom()
    ensures forall v :: |EncodeMessage(CALL_ERROR, false, [PUlong(v)])| == 12 && AllFit([PUlong(v)]) && Writable(PUlong(v))
  {
    forall v ensures |EncodeMessage(CALL_ERROR, false, [PUlong(v)])| == 12 {
      assert EncodeAll([PUlong(v)]) == Encode(PUlong(v)) + EncodeAll([]);
    }
  }

  /** One turn of the daemon's main loop on a frame it has been sent; None where the loop ends. */
  method ServeFrame(req: Message, resp: Message, frame: seq<Byte>, serve: Service)
    returns (reply: Option<seq<Byte>>, answer: Reply)
    requires req.Valid() && resp.Valid() && Apart(req, resp)
    requires |frame| < TWO_32 && forall id, ps :: ServiceOk(serve, id, ps)
    modifies req, req.buffer, req.buffer.buf, resp, resp.buffer, resp.buffer.buf
    ensures reply.Some? ==>
      match ParseHeader(frame, true)
      case Short => false
      case Got(id, at) =>
        && IsCall(id) && Sendable(id, answer) && reply.value == ReplyBytes(id, answer)
        && match DecodeAll(PartsOf(id, true), frame, at)
           case Short => answer == Error(Ckr.PARSE_ERROR) || answer == Error(Ckr.DEVICE_MEMORY)
           case Got(ps, _) =>
             && (answer == Turned(serve, id, ps) || answer == Error(Ckr.DEVICE_MEMORY))
             && (req.buffer.Ample() && resp.buffer.Ample() ==> answer == Turned(serve, id, ps))
    ensures req.buffer.Ample() && resp.buffer.Ample() ==> (reply.Some? <==> ParseHeader(frame, true).Got?)
  {
    hide ReplyBytes, DecodeAll, PartsOf, Sendable, Codes, Granted, Turned, SignatureBytes;
    reply, answer := None, Error(Ckr.PARSE_ERROR);
    req.Reset();
    resp.Reset();
    var ok := req.buffer.Receive(frame);
    if !ok { return; }
    ok := req.Parse(true);
    if !ok { return; }
    ok, answer := DispatchCall(req, resp, serve);
    if ok { reply := Some(resp.buffer.buf[..resp.buffer.len]); }
  }

  // ----- The client's response ----------------------------------------------------------------

  /** The response stands ready for the OUT_* macros: undamaged, and holding exactly the parts `ps`. */
  ghost predicate Ready(resp: Message, id: int, ps: seq<Part>)
    requires IsCall(id)
    reads resp, resp.buffer, resp.buffer.buf
  {
    && resp.Valid() && resp.buffer.failures == 0 && resp.sigverify == Some(Codes(PartsOf(id, false)))
    && DecodeAll(PartsOf(id, false), resp.Contents(), resp.parsed) == Got(ps, |resp.Contents()|)
  }

  /**
    The receiving half of call_send_recv. If add_empty fails the message is empty and its parse fails, which
    leaves the call id at 0, as the reset set it, and the code at CKR_OK.
   */
  method TakeIn(resp: Message, wire: seq<Byte>) returns (reserved: bool)
    requires resp.Valid() && |wire| < TWO_32
    modifies resp, resp.buffer, resp.buffer.buf
    ensures resp.Valid() && (resp.buffer.buf == old(resp.buffer.buf) || fresh(resp.buffer.buf))
    ensures resp.buffer.Ample() ==> reserved && resp.Contents() == wire
    ensures reserved ==>
      || (resp.Contents() == [] && resp.callId == CALL_ERROR && resp.sigverify.None?)
      || (resp.Contents() == wire
          && match Uint32At(wire, 0)
             case Short => resp.parsed == 0 && resp.callId == CALL_ERROR && resp.sigverify.None?
             case Got(id, at) =>
               if id == CALL_ERROR || id >= CALL_MAX then
                 resp.parsed == at && resp.callId == CALL_ERROR && resp.sigverify.None?
               else
                 && resp.callId == id && resp.sigverify == Some(Codes(PartsOf(id, false)))
                 && match ByteArrayAt(wire, at)
                    case Short => true
                    case Got(_, next) => resp.parsed == next && resp.buffer.failures == 0)
  {
    hide PartsOf, Codes, ParseHeader, ByteArrayAt;
    resp.Reset();
    reserved := resp.buffer.Reserve(|wire|);
    if !reserved { return; }
    resp.buffer.ReadInto(wire);
    assert resp.buffer.buf[..|wire|] == wire;
    var _ := resp.buffer.AddEmpty(|wire|);
    var _ := resp.Parse(false);
  }

  /**
    call_run from the arrival of the length word on, for any reply that does not make it abort. An empty
    message is told from a good one only by the call id 0 and the ulong that cannot be read.
   */
  method TakeReply(resp: Message, id: int, wire: seq<Byte>) returns (rv: Ulong)
    requires resp.Valid() && IsCall(id) && |wire| < TWO_32 && !Judge(id, wire).Aborts?
    modifies resp, resp.buffer, resp.buffer.buf
    ensures resp.Valid() && (resp.buffer.buf == old(resp.buffer.buf) || fresh(resp.buffer.buf))
    ensures
      || (!resp.buffer.Ample() && (rv == Ckr.HOST_MEMORY || rv == Ckr.DEVICE_ERROR))
      || match Judge(id, wire)
         case Returns(e) => rv == e
         case Proceeds(at) =>
           && rv == Ckr.OK && resp.Contents() == wire && resp.parsed == at && resp.buffer.failures == 0
           && resp.callId == id && resp.sigverify == Some(Codes(PartsOf(id, false)))
  {
    hide PartsOf, Codes, ByteArrayAt;
    ghost var empty := Uint64At([], 0);
    var reserved := TakeIn(resp, wire);
    if !reserved { return Ckr.HOST_MEMORY; }
    if resp.callId == CALL_ERROR {
      var v := resp.ReadUlong();
      if v.Err? || v.value.v <= Ckr.OK { return Ckr.DEVICE_ERROR; }
      return v.value.v;
    }
    if resp.callId != id { return Ckr.DEVICE_ERROR; }
    assert !resp.buffer.HasError();
    rv := Ckr.OK;
  }

  // ----- A whole call -------------------------------------------------------------------------

  /** The codes a call may return because some buffer could not be had. */
  predicate Exhausted(rv: Ulong) {
    rv == Ckr.HOST_MEMORY || rv == Ckr.DEVICE_MEMORY || rv == Ckr.DEVICE_ERROR
  }

  /** The caller's code, and the response for the OUT_* macros if it is CKR_OK, are as `r` says. */
  ghost predicate Delivers(resp: Message, id: int, r: Reply, rv: Ulong)
    requires IsCall(id)
    reads resp, resp.buffer, resp.buffer.buf
  {
    match r
    case Error(e) => rv == e
    case Success(ps) => rv == Ckr.OK && Ready(resp, id, ps)
  }

  /** The client's end of a reply, as ReplyArrives describes it, unless the client has no memory for it. */
  method Collect(cresp: Message, id: int, reply: seq<Byte>, ghost answer: Reply) returns (rv: Ulong)
    requires cresp.Valid() && IsCall(id) && Sendable(id, answer) && reply == ReplyBytes(id, answer) && |reply| < TWO_32
    modifies cresp, cresp.buffer, cresp.buffer.buf
    ensures cresp.Valid() && (cresp.buffer.buf == old(cresp.buffer.buf) || fresh(cresp.buffer.buf))
    ensures
      || (!cresp.buffer.Ample() && (rv == Ckr.HOST_MEMORY || rv == Ckr.DEVICE_ERROR))
      || Delivers(cresp, id, CallRun(id, reply), rv)
    ensures answer == Error(Ckr.DEVICE_MEMORY) ==> Exhausted(rv)
  {
    JudgeReply(id, answer);
    ReplyArrives(id, answer);
    hide CallRun, ReplyBytes, Judge, PartsOf, Codes, DecodeAll;
    rv := TakeReply(cresp, id, reply);
  }

  /** A request holds its call's parts. */
  lemma RequestParses(id: int, ps: seq<Part>)
    requires IsCall(id) && Kinds(ps) == PartsOf(id, true) && AllFit(ps)
    ensures
      var wire := EncodeMessage(id, true, ps);
      match ParseHeader(wire, true)
      case Short => false
      case Got(i, at) => i == id && DecodeAll(PartsOf(id, true), wire, at) == Got(ps, |wire|)
  {
    hide ParseHeader, Header, EncodeAll, PartsOf, Kinds, DecodeAll;
    HeaderRoundTrip(id, true, EncodeAll(ps));
    PartsHeld(EncodeMessage(id, true, ps), |Header(id, true)|, ps);
  }

  /** The daemon's turn on a request of the client. */
  method Turn(req: Message, resp: Message, id: int, wire: seq<Byte>, ghost ps: seq<Part>, serve: Service)
    returns (reply: Option<seq<Byte>>, answer: Reply)
    requires req.Valid() && resp.Valid() && Apart(req, resp) && |wire| < TWO_32
    requires IsCall(id) && Kinds(ps) == PartsOf(id, true) && AllFit(ps) && wire == EncodeMessage(id, true, ps)
    requires forall id, ps :: ServiceOk(serve, id, ps)
    modifies req, req.buffer, req.buffer.buf, resp, resp.buffer, resp.buffer.buf
    ensures reply.Some? ==>
      && Sendable(id, answer) && reply.value == ReplyBytes(id, answer)
      && (answer == Turned(serve, id, ps) || answer == Error(Ckr.DEVICE_MEMORY))
    ensures req.buffer.Ample() && resp.buffer.Ample() ==> reply.Some? && answer == Turned(serve, id, ps)
  {
    hide EncodeMessage, DecodeAll, PartsOf, ReplyBytes, Sendable, ParseHeader, Kinds, AllFit, Turned, ServiceOk;
    RequestParses(id, ps);
    reply, answer := ServeFrame(req, resp, wire, serve);
  }

  lemma TurnedSendable(serve: Service, id: int, ps: seq<Part>)
    requires IsCall(id) && ServiceOk(serve, id, ps)
    ensures Sendable(id, Turned(serve, id, ps))
  {
    hide PartsOf, Granted, AllFit, Kinds;
  }

  /**
    What a call that asks `ps` comes to if memory does not run out. A request of 2^32 bytes and more, whose
    length word is wrong, fails one way or another; nothing is said of such replies.
   */
  ghost predicate Outcome(cresp: Message, id: int, ps: seq<Part>, serve: Service, rv: Ulong)
    requires IsCall(id)
    reads cresp, cresp.buffer, cresp.buffer.buf
  {
    var answer := Turned(serve, id, ps);
    if |EncodeMessage(id, true, ps)| >= TWO_32 then Exhausted(rv)
    else if !Carried(id, ps) then rv == Ckr.DEVICE_ERROR
    else Sendable(id, answer) && (|ReplyBytes(id, answer)| < TWO_32 ==> Delivers(cresp, id, CallRun(id, ReplyBytes(id, answer)), rv))
  }

  /** A request whose length word is wrong: the daemon reads less than there is, and cannot take it for the call. */
  method TurnCut(req: Message, resp: Message, id: int, wire: seq<Byte>, ghost ps: seq<Part>, serve: Service)
    returns (reply: Option<seq<Byte>>, answer: Reply)
    requires req.Valid() && resp.Valid() && Apart(req, resp) && |wire| >= TWO_32
    requires IsCall(id) && Kinds(ps) == PartsOf(id, true) && AllFit(ps) && wire == EncodeMessage(id, true, ps)
    requires forall id, ps :: ServiceOk(serve, id, ps)
    modifies req, req.buffer, req.buffer.buf, resp, resp.buffer, resp.buffer.buf
    ensures reply.Some? ==>
      && Sendable(id, answer) && reply.value == ReplyBytes(id, answer)
      && (answer == Error(Ckr.PARSE_ERROR) || answer == Error(Ckr.DEVICE_MEMORY))
  {
    hide EncodeMessage, DecodeAll, PartsOf, ReplyBytes, Sendable, ParseHeader, Kinds, AllFit, Turned, ServiceOk;
    var n := |wire| % TWO_32;
    CutRequest(id, ps, n);
    reply, answer := ServeFrame(req, resp, wire[..n], serve);
  }

  lemma CutRequest(id: int, ps: seq<Part>, n: nat)
    requires IsCall(id) && Kinds(ps) == PartsOf(id, true) && AllFit(ps) && n < |EncodeMessage(id, true, ps)|
    ensures
      match ParseHeader(EncodeMessage(id, true, ps)[..n], true)
      case Short => true
      case Got(i, at) => i == id && DecodeAll(PartsOf(id, true), EncodeMessage(id, true, ps)[..n], at).Short?
  {
    hide ParseHeader, EncodeMessage, PartsOf, Kinds, DecodeAll, AllFit;
    CutShort(id, true, ps, n);
    RequestParses(id, ps);
    HeaderStable(EncodeMessage(id, true, ps)[..n], EncodeMessage(id, true, ps), true);
  }

  method ConverseCut(cresp: Message, req: Message, resp: Message, id: int, wire: seq<Byte>, ghost ps: seq<Part>, serve: Service)
    returns (rv: Ulong)
    requires cresp.Valid() && req.Valid() && resp.Valid()
    requires Apart(cresp, req) && Apart(cresp, resp) && Apart(req, resp) && |wire| >= TWO_32
    requires IsCall(id) && Kinds(ps) == PartsOf(id, true) && AllFit(ps) && wire == EncodeMessage(id, true, ps)
    requires forall id, ps :: ServiceOk(serve, id, ps)
    modifies cresp, cresp.buffer, cresp.buffer.buf, req, req.buffer, req.buffer.buf, resp, resp.buffer, resp.buffer.buf
    ensures cresp.Valid() && (cresp.buffer.buf == old(cresp.buffer.buf) || fresh(cresp.buffer.buf))
    ensures Exhausted(rv)
  {
    hide EncodeMessage, PartsOf, ReplyBytes, Sendable, Kinds, AllFit, ServiceOk, CallRun;
    var reply, answer := TurnCut(req, resp, id, wire, ps, serve);
    if reply.None? { return Ckr.DEVICE_ERROR; }
    ErrorReplyShort(id, answer);
    ReplyArrives(id, answer);
    rv := Collect(cresp, id, reply.value, answer);
  }

  /** The end of a call whose request was carried; `ample` if memory did not run out before and will not. */
  method Conclude(cresp: Message, id: int, reply: seq<Byte>, ghost answer: Reply, ghost ps: seq<Part>, ghost serve: Service,
                  ghost ample: bool)
    returns (rv: Ulong)
    requires cresp.Valid() && IsCall(id) && Sendable(id, answer) && reply == ReplyBytes(id, answer) && Carried(id, ps)
    requires Sendable(id, Turned(serve, id, ps)) && (ample ==> cresp.buffer.Ample())
    requires answer == Turned(serve, id, ps) || (!ample && answer == Error(Ckr.DEVICE_MEMORY))
    modifies cresp, cresp.buffer, cresp.buffer.buf
    ensures cresp.Valid() && (cresp.buffer.buf == old(cresp.buffer.buf) || fresh(cresp.buffer.buf))
    ensures (!ample && Exhausted(rv)) || Outcome(cresp, id, ps, serve, rv)
  {
    hide EncodeMessage, ReplyBytes, Sendable, Delivers, Turned, CallRun;
    if |reply| >= TWO_32 {
      if answer.Error? { ErrorReplyShort(id, answer); }
      return *;
    }
    rv := Collect(cresp, id, reply, answer);
  }

  lemma NotCarried(cresp: Message, id: int, ps: seq<Part>, serve: Service)
    requires IsCall(id) && |EncodeMessage(id, true, ps)| >= Framing.MAX_REQUEST
    ensures Outcome(cresp, id, ps, serve, Ckr.DEVICE_ERROR)
    ensures |EncodeMessage(id, true, ps)| >= TWO_32 ==> forall rv | Exhausted(rv) :: Outcome(cresp, id, ps, serve, rv)
  {
  }

  /** A call whose request has been built; `ample` if memory will not run out. */
  method Converse(cresp: Message, req: Message, resp: Message, id: int, wire: seq<Byte>, ghost ps: seq<Part>, serve: Service,
                  ghost ample: bool)
    returns (rv: Ulong)
    requires cresp.Valid() && req.Valid() && resp.Valid()
    requires Apart(cresp, req) && Apart(cresp, resp) && Apart(req, resp)
    requires IsCall(id) && Kinds(ps) == PartsOf(id, true) && AllFit(ps) && wire == EncodeMessage(id, true, ps)
    requires forall id, ps :: ServiceOk(serve, id, ps)
    requires ample ==> cresp.buffer.Ample() && req.buffer.Ample() && resp.buffer.Ample()
    modifies cresp, cresp.buffer, cresp.buffer.buf, req, req.buffer, req.buffer.buf, resp, resp.buffer, resp.buffer.buf
    ensures cresp.Valid() && (cresp.buffer.buf == old(cresp.buffer.buf) || fresh(cresp.buffer.buf))
    ensures (!ample && Exhausted(rv)) || Outcome(cresp, id, ps, serve, rv)
  {
    hide EncodeMessage, PartsOf, Kinds, AllFit, ServiceOk, Outcome;
    if |wire| >= Framing.MAX_REQUEST {
      rv := ConverseLong(cresp, req, resp, id, wire, ps, serve);
    } else {
      rv := ConverseShort(cresp, req, resp, id, wire, ps, serve, ample);
    }
  }

  /** A request that the daemon refuses for its length, or whose length word is wrong. */
  method ConverseLong(cresp: Message, req: Message, resp: Message, id: int, wire: seq<Byte>, ghost ps: seq<Part>, serve: Service)
    returns (rv: Ulong)
    requires cresp.Valid() && req.Valid() && resp.Valid()
    requires Apart(cresp, req) && Apart(cresp, resp) && Apart(req, resp) && |wire| >= Framing.MAX_REQUEST
    requires IsCall(id) && Kinds(ps) == PartsOf(id, true) && AllFit(ps) && wire == EncodeMessage(id, true, ps)
    requires forall id, ps :: ServiceOk(serve, id, ps)
    modifies cresp, cresp.buffer, cresp.buffer.buf, req, req.buffer, req.buffer.buf, resp, resp.buffer, resp.buffer.buf
    ensures cresp.Valid() && (cresp.buffer.buf == old(cresp.buffer.buf) || fresh(cresp.buffer.buf))
    ensures Exhausted(rv) && Outcome(cresp, id, ps, serve, rv)
  {
    hide EncodeMessage, PartsOf, Kinds, AllFit, ServiceOk, Outcome;
    if |wire| % TWO_32 >= Framing.MAX_REQUEST {
      rv := Ckr.DEVICE_ERROR;
    } else {
      rv := ConverseCut(cresp, req, resp, id, wire, ps, serve);
    }
    NotCarried(cresp, id, ps, serve);
  }

  method ConverseShort(cresp: Message, req: Message, resp: Message, id: int, wire: seq<Byte>, ghost ps: seq<Part>, serve: Service,
                       ghost ample: bool)
    returns (rv: Ulong)
    requires cresp.Valid() && req.Valid() && resp.Valid()
    requires Apart(cresp, req) && Apart(cresp, resp) && Apart(req, resp) && |wire| < Framing.MAX_REQUEST
    requires IsCall(id) && Kinds(ps) == PartsOf(id, true) && AllFit(ps) && wire == EncodeMessage(id, true, ps)
    requires forall id, ps :: ServiceOk(serve, id, ps)
    requires ample ==> cresp.buffer.Ample() && req.buffer.Ample() && resp.buffer.Ample()
    modifies cresp, cresp.buffer, cresp.buffer.buf, req, req.buffer, req.buffer.buf, resp, resp.buffer, resp.buffer.buf
    ensures cresp.Valid() && (cresp.buffer.buf == old(cresp.buffer.buf) || fresh(cresp.buffer.buf))
    ensures (!ample && Exhausted(rv)) || Outcome(cresp, id, ps, serve, rv)
  {
    TurnedSendable(serve, id, ps);
    assert Carried(id, ps);
    hide EncodeMessage, PartsOf, ReplyBytes, Sendable, Kinds, AllFit, ServiceOk, Turned, Outcome, Carried;
    var reply, answer := Turn(req, resp, id, wire, ps, serve);
    if reply.None? { return Ckr.DEVICE_ERROR; }
    rv := Conclude(cresp, id, reply.value, answer, ps, serve, ample);
  }

  /**
    A whole call: the client's request, the daemon's turn and the client's response, with any allocation of
    either end failing anywhere. An argument the client refuses is refused; otherwise the caller gets the
    module's answer, or a memory or device error if some allocation fails.
   */
  method Call(creq: Message, cresp: Message, req: Message, resp: Message, id: int, args: seq<Part>, serve: Service)
    returns (rv: Ulong)
    requires creq.Valid() && cresp.Valid() && req.Valid() && resp.Valid()
    requires Apart(creq, cresp) && Apart(creq, req) && Apart(creq, resp) && Apart(cresp, req) && Apart(cresp, resp) && Apart(req, resp)
    requires IsCall(id) && Kinds(args) == PartsOf(id, true) && forall i | 0 <= i < |args| :: Bounded(args[i])
    requires forall id, ps :: ServiceOk(serve, id, ps)
    modifies creq, creq.buffer, creq.buffer.buf, cresp, cresp.buffer, cresp.buffer.buf
    modifies req, req.buffer, req.buffer.buf, resp, resp.buffer, resp.buffer.buf
    ensures cresp.Valid() && (cresp.buffer.buf == old(cresp.buffer.buf) || fresh(cresp.buffer.buf))
    ensures
      match Admitted(id, args)
      case Err(e) => rv == Ckr.HOST_MEMORY || rv == e
      case Ok(ps) => Exhausted(rv) || Outcome(cresp, id, ps, serve, rv)
    ensures
      if Refusal(id, args) != 0 then rv == 2 || rv == Refusal(id, args)
      else rv in {0x2, 0x30, 0x31} || Outcome(cresp, id, AllSentAs(args), serve, rv)
    ensures
      && creq.buffer.Ample() && cresp.buffer.Ample() && req.buffer.Ample() && resp.buffer.Ample()
      && (forall i | 0 <= i < |args| :: Light(args[i]))
      ==> match Admitted(id, args)
          case Err(e) => rv == e
          case Ok(ps) => Outcome(cresp, id, ps, serve, rv)
    ensures
      && creq.buffer.Ample() && cresp.buffer.Ample() && req.buffer.Ample() && resp.buffer.Ample()
      && (forall i | 0 <= i < |args| :: Light(args[i]))
      ==> if Refusal(id, args) != 0 then rv == Refusal(id, args) else Outcome(cresp, id, AllSentAs(args), serve, rv)
  {
    Refused(id, args);
    hide Bounded, Refusal, AllSentAs, ServiceOk, Admitted, EncodeMessage, PartsOf, Kinds, Outcome, Light;
    var wire;
    rv, wire := Request(creq, id, args);
    if rv != Ckr.OK { return; }
    rv := Converse(cresp, req, resp, id, wire, Admitted(id, args).value, serve,
                   cresp.buffer.Ample() && req.buffer.Ample() && resp.buffer.Ample());
  }

  /** The reply a call is left with if memory does not run out: a refusal, or what arrives of the daemon's answer. */
  function Conversed(serve: Service, id: int, args: seq<Part>): Reply
    requires IsCall(id)
  {
    match Admitted(id, args)
    case Err(e) => Error(e)
    case Ok(ps) =>
      match Received(id, ps)
      case Short => Error(Ckr.DEVICE_ERROR)
      case Got((_, qs), _) => Answered(id, Turned(serve, id, qs))
  }

  /** An error that is reported is not CKR_OK. */
  lemma NeverOk(serve: Service, id: int, args: seq<Part>)
    requires IsCall(id)
    ensures Conversed(serve, id, args).Error? ==> Conversed(serve, id, args).rv != Ckr.OK
  {
    hide DecodeMessage, Admitted, Received, Turned, Sendable, ReplyBytes;
  }

  /** The daemon's answer to the call is short enough for its length word. */
  predicate ReplyInFrame(serve: Service, id: int, args: seq<Part>)
    requires IsCall(id)
  {
    Admitted(id, args).Ok? ==>
      var r := Turned(serve, id, Admitted(id, args).value);
      Sendable(id, r) ==> |ReplyBytes(id, r)| < TWO_32
  }

  /** The request of the call is short enough for its length word. */
  predicate RequestInFrame(id: int, args: seq<Part>)
    requires IsCall(id)
  {
    Admitted(id, args).Ok? ==> |EncodeMessage(id, true, Admitted(id, args).value)| < TWO_32
  }

  lemma OutcomeDelivers(cresp: Message, id: int, args: seq<Part>, serve: Service, rv: Ulong)
    requires IsCall(id) && Kinds(args) == PartsOf(id, true) && ReplyInFrame(serve, id, args) && Admitted(id, args).Ok?
    requires Outcome(cresp, id, Admitted(id, args).value, serve, rv)
    ensures (!RequestInFrame(id, args) && Exhausted(rv)) || Delivers(cresp, id, Conversed(serve, id, args), rv)
  {
    hide EncodeMessage, PartsOf, Kinds, AllFit, Sendable, ReplyBytes, CallRun, Turned, Admitted, Received, Answered, Delivers;
    var ps := Admitted(id, args).value;
    ReceivedIff(id, ps);
    if Carried(id, ps) {
      AnsweredShort(id, Turned(serve, id, ps));
    } else {
      RefusedDelivers(cresp, id);
    }
  }

  lemma RefusedDelivers(cresp: Message, id: int)
    requires IsCall(id)
    ensures forall e :: Delivers(cresp, id, Error(e), e)
  {
  }

  /**
    A call whose reply is within its length word. With `ample`, that is if the request is, too, and memory
    does not run out, it delivers exactly what it should; without, it may also end with a memory or device
    error.
   */
  method Ask(creq: Message, cresp: Message, req: Message, resp: Message, id: int, args: seq<Part>, serve: Service, ghost ample: bool)
    returns (rv: Ulong)
    requires creq.Valid() && cresp.Valid() && req.Valid() && resp.Valid()
    requires Apart(creq, cresp) && Apart(creq, req) && Apart(creq, resp) && Apart(cresp, req) && Apart(cresp, resp) && Apart(req, resp)
    requires IsCall(id) && Kinds(args) == PartsOf(id, true) && ReplyInFrame(serve, id, args)
    requires forall i | 0 <= i < |args| :: Bounded(args[i]) && Light(args[i])
    requires forall id, ps :: ServiceOk(serve, id, ps)
    requires ample ==> creq.buffer.Ample() && cresp.buffer.Ample() && req.buffer.Ample() && resp.buffer.Ample()
    requires ample ==> RequestInFrame(id, args)
    modifies creq, creq.buffer, creq.buffer.buf, cresp, cresp.buffer, cresp.buffer.buf
    modifies req, req.buffer, req.buffer.buf, resp, resp.buffer, resp.buffer.buf
    ensures cresp.Valid() && (cresp.buffer.buf == old(cresp.buffer.buf) || fresh(cresp.buffer.buf))
    ensures
      || (!ample && Exhausted(rv))
      || (Delivers(cresp, id, Conversed(serve, id, args), rv) && (rv == Ckr.OK <==> Conversed(serve, id, args).Success?))
  {
    NeverOk(serve, id, args);
    hide Conversed, Bounded, ServiceOk, Admitted, PartsOf, Kinds, Outcome, Light, Delivers, ReplyInFrame, RequestInFrame, Received, Answered;
    rv := Call(creq, cresp, req, resp, id, args, serve);
    if Admitted(id, args).Err? {
      RefusedDelivers(cresp, id);
      RefusedConversed(serve, id, args);
    } else if Outcome(cresp, id, Admitted(id, args).value, serve, rv) {
      OutcomeDelivers(cresp, id, args, serve, rv);
    }
    DeliversOk(cresp, id, Conversed(serve, id, args));
  }

  lemma RefusedConversed(serve: Service, id: int, args: seq<Part>)
    requires IsCall(id) && Admitted(id, args).Err?
    ensures Conversed(serve, id, args) == Error(Admitted(id, args).rv)
  {
  }

  lemma DeliversOk(cresp: Message, id: int, r: Reply)
    requires IsCall(id) && (r.Error? ==> r.rv != Ckr.OK)
    ensures forall rv :: Delivers(cresp, id, r, rv) ==> (rv == Ckr.OK <==> r.Success?)
  {
  }
}
