/** C_GetAttributeValue from end to end, as code: the four messages, the caller's template and the module. */
module AttributeCalls {
  import opened Bytes
  import opened EggBuffers
  import opened Signature
  import opened Wire
  import opened Arguments
  import opened Proxy
  import opened ProxyAttributes
  import opened Messages
  import opened Dispatch
  import opened ClientReads
  import opened ByteCalls
  import Ckr

  /** The reply of the rpc function. */
  function AttributeAnswered(id: int, ps: seq<Part>, oracle: AttributeFunction): Reply {
    if id != GET_ATTRIBUTE_VALUE || |ps| != 3 || !ps[0].PUlong? || !ps[1].PUlong? || !ps[2].PAttributeBuffer? then
      Error(Ckr.GENERAL_ERROR)
    else if !Granted(ps[2]) then Error(Ckr.DEVICE_MEMORY)
    else ReplyTo(ps[2].wants, oracle(ps[0].v, ps[1].v, Asks(FreshAll(ps[2].wants))))
  }

  /** The rpc function around a module. */
  function AttributeService(oracle: AttributeFunction): Service {
    (id, ps) => AttributeAnswered(id, ps, oracle)
  }

  /** What it sends, if it sends a template: as many entries as were asked for, each within the wire limits. */
  lemma AnsweredTemplate(id: int, ps: seq<Part>, oracle: AttributeFunction)
    ensures
      var r := AttributeAnswered(id, ps, oracle);
      r.Success? ==>
        && id == GET_ATTRIBUTE_VALUE && |r.parts| == 2 && r.parts[0].PAttributes? && r.parts[1].PUlong?
        && r == TemplateReply(r.parts[0].attrs, r.parts[1].v)
        && Allocatable(|r.parts[0].attrs| * 24) && AttributesFit(r.parts[0].attrs)
  {
    hide ToWireAll, AttributesFit;
  }

  lemma {:induction false} AttributesSizeBound(ws: seq<Attribute>)
    requires AttributesFit(ws)
    ensures AttributesSize(ws) <= 0x8000_0010 * |ws|
  {
    if ws == [] {
    } else {
      AttributesSizeBound(ws[1..]);
      assert FitsAttribute(ws[0]);
    }
  }

  lemma AttributeServiceOk(oracle: AttributeFunction)
    ensures forall id, ps :: ServiceOk(AttributeService(oracle), id, ps)
  {
    hide PartsOf, AttributeAnswered, EncodeMessage, AttributesFit, AttributesSize, Kinds;
    forall id, ps ensures ServiceOk(AttributeService(oracle), id, ps) {
      var r := AttributeAnswered(id, ps, oracle);
      AnsweredTemplate(id, ps, oracle);
      if r.Success? { TemplateOk(r.parts[0].attrs, r.parts[1].v); }
    }
  }

  lemma TemplateOk(ws: seq<Attribute>, rv: Ulong)
    requires Allocatable(|ws| * 24) && AttributesFit(ws)
    ensures
      var ps := TemplateReply(ws, rv).parts;
      && Kinds(ps) == PartsOf(GET_ATTRIBUTE_VALUE, false) && AllFit(ps)
      && (forall i | 0 <= i < |ps| :: Writable(ps[i])) && |EncodeMessage(GET_ATTRIBUTE_VALUE, false, ps)| <= ROOM
  {
    TemplateSendable(ws, rv);
    TemplateSize(ws, rv);
    AttributesSizeBound(ws);
    hide PartsOf, Kinds, AttributesSize;
  }

  lemma RequestAdmitted(session: Ulong, object_: Ulong, template: seq<CkAttribute>)
    requires |template| < TWO_32
    ensures Admitted(GET_ATTRIBUTE_VALUE, TemplateRequest(session, object_, template)) == Ok(TemplateRequest(session, object_, template))
  {
    hide AdmitAll;
    var ps := TemplateRequest(session, object_, template);
    assert forall p <- ps :: Passes(p);
    AdmitAllIff(ps);
  }

  /** What the daemon answers is what the proxy function says of it. */
  lemma AttributeTurned(session: Ulong, object_: Ulong, template: seq<CkAttribute>, oracle: AttributeFunction)
    requires |template| <= MAX_TEMPLATE
    ensures AllFit(TemplateRequest(session, object_, template))
    ensures ServeAttributes(TemplateRequest(session, object_, template), oracle)
         == Turned(AttributeService(oracle), GET_ATTRIBUTE_VALUE, TemplateRequest(session, object_, template))
  {
    hide AttributesQuestion, ReplyTo, FreshAll, Asks, Granted, AttributesFit, WantsOf;
    var ps := TemplateRequest(session, object_, template);
    TemplateReach(session, object_, template);
    UlongsGranted(session, object_);
    assert (exists p <- ps :: !Granted(p)) <==> !Granted(ps[2]);
    AnsweredFits(GET_ATTRIBUTE_VALUE, ps, oracle);
  }

  lemma UlongsGranted(a: Ulong, b: Ulong)
    ensures Granted(PUlong(a)) && Granted(PUlong(b))
  {
  }

  lemma AnsweredFits(id: int, ps: seq<Part>, oracle: AttributeFunction)
    ensures AttributeAnswered(id, ps, oracle).Success? ==> AllFit(AttributeAnswered(id, ps, oracle).parts)
  {
    hide AttributeAnswered, AttributesFit;
    AnsweredTemplate(id, ps, oracle);
  }

  /** The client reads what the proxy function says. */
  lemma AttributeConversed(session: Ulong, object_: Ulong, template: seq<CkAttribute>, oracle: AttributeFunction)
    requires |template| < TWO_32
    ensures ProxiedAttributes(session, object_, template, oracle)
         == ReadAttributes(template, Conversed(AttributeService(oracle), GET_ATTRIBUTE_VALUE, TemplateRequest(session, object_, template)))
  {
    var ps := TemplateRequest(session, object_, template);
    RequestAdmitted(session, object_, template);
    RequestKinds(session, object_, template);
    RequestSize(session, object_, template);
    ReceivedIff(GET_ATTRIBUTE_VALUE, ps);
    TemplateReach(session, object_, template);
    hide PartsOf, Admitted, ReadAttributes, Kinds, Turned, Received, Answered, Carried, TemplateRequest, AttributesQuestion, ReplyTo, Granted;
    if |template| <= MAX_TEMPLATE {
      AttributeTurned(session, object_, template, oracle);
      hide ServeAttributes;
    } else {
      ErrorArrives(Ckr.DEVICE_ERROR);
    }
  }

  /** A template that comes back has the types that were asked for. */
  lemma AnsweredTypes(session: Ulong, object_: Ulong, template: seq<CkAttribute>, oracle: AttributeFunction)
    requires |template| < TWO_32 && forall a <- template :: a.typ < TWO_32
    requires ReplyInFrame(AttributeService(oracle), GET_ATTRIBUTE_VALUE, TemplateRequest(session, object_, template))
    ensures
      var r := Conversed(AttributeService(oracle), GET_ATTRIBUTE_VALUE, TemplateRequest(session, object_, template));
      r.Success? ==> |r.parts| == 2 && r.parts[0].PAttributes? && SameTypes(template, r.parts[0].attrs)
  {
    var ps := TemplateRequest(session, object_, template);
    var serve := AttributeService(oracle);
    RequestAdmitted(session, object_, template);
    RequestKinds(session, object_, template);
    ReceivedIff(GET_ATTRIBUTE_VALUE, ps);
    TurnedTypes(session, object_, template, oracle);
    hide PartsOf, Admitted, Kinds, Turned, Received, Carried, TemplateRequest, Sendable, ReplyBytes, CallRun, SameTypes;
    var r := Turned(serve, GET_ATTRIBUTE_VALUE, ps);
    if Sendable(GET_ATTRIBUTE_VALUE, r) {
      AnsweredShort(GET_ATTRIBUTE_VALUE, r);
      ReplyArrives(GET_ATTRIBUTE_VALUE, r);
    }
  }

  lemma TurnedTypes(session: Ulong, object_: Ulong, template: seq<CkAttribute>, oracle: AttributeFunction)
    requires forall a <- template :: a.typ < TWO_32
    ensures
      var r := Turned(AttributeService(oracle), GET_ATTRIBUTE_VALUE, TemplateRequest(session, object_, template));
      r.Success? ==> |r.parts| == 2 && r.parts[0].PAttributes? && SameTypes(template, r.parts[0].attrs)
  {
    hide Granted, AllFit, Asks, AttributesFit;
    assert forall i | 0 <= i < |template| :: template[i] in template;
  }

  /**
    C_GetAttributeValue, for attribute types of 32 bits. If memory does not run out, and request and reply
    are short enough for their length words, the caller's code and template are those of
    ProxiedAttributes, which TransparentAttributes compares with a direct call; in any case they are that, or a
    memory or device error with nothing changed.
   */
  method AttributeCall(creq: Message, cresp: Message, req: Message, resp: Message, session: Ulong, object_: Ulong,
                       template: array<CkAttribute>, oracle: AttributeFunction)
    returns (rv: Ulong)
    requires creq.Valid() && cresp.Valid() && req.Valid() && resp.Valid()
    requires Apart(creq, cresp) && Apart(creq, req) && Apart(creq, resp) && Apart(cresp, req) && Apart(cresp, resp) && Apart(req, resp)
    requires template.Length < TWO_32 && forall a <- template[..] :: a.typ < TWO_32
    requires ReplyInFrame(AttributeService(oracle), GET_ATTRIBUTE_VALUE, TemplateRequest(session, object_, template[..]))
    modifies creq, creq.buffer, creq.buffer.buf, cresp, cresp.buffer, cresp.buffer.buf
    modifies req, req.buffer, req.buffer.buf, resp, resp.buffer, resp.buffer.buf, template
    ensures
      || (Exhausted(rv) && template[..] == old(template[..]))
      || (rv, template[..]) == ProxiedAttributes(session, object_, old(template[..]), oracle)
    ensures AllAmple(creq, cresp, req, resp) && RequestInFrame(GET_ATTRIBUTE_VALUE, TemplateRequest(session, object_, old(template[..]))) ==>
      (rv, template[..]) == ProxiedAttributes(session, object_, old(template[..]), oracle)
  {
    var was := template[..];
    var ps := TemplateRequest(session, object_, was);
    AnsweredTypes(session, object_, was, oracle);
    AttributeConversed(session, object_, was, oracle);
    ghost var ample := AllAmple(creq, cresp, req, resp) && RequestInFrame(GET_ATTRIBUTE_VALUE, ps);
    ghost var r := Conversed(AttributeService(oracle), GET_ATTRIBUTE_VALUE, ps);
    RefusedTemplate(was);
    hide TemplateRequest, PartsOf, Kinds, Ready, ReadAttributes, ProxiedAttributes, RequestInFrame, ReplyInFrame, Apart, SameTypes, Conversed;
    rv := AskTemplate(creq, cresp, req, resp, session, object_, was, oracle, ample);
    if rv == Ckr.OK {
      rv := OutTemplate(cresp, template, r.parts);
    }
  }

  lemma RefusedTemplate(template: seq<CkAttribute>)
    ensures forall e: Ulong :: ReadAttributes(template, Error(e)) == (e, template)
  {
  }

  lemma OutParts()
    ensures PartsOf(GET_ATTRIBUTE_VALUE, false) == [AA, U]
  {
  }

  /** OUT_ATTRIBUTE_ARRAY on a response that stands ready. */
  method OutTemplate(cresp: Message, template: array<CkAttribute>, ghost ps: seq<Part>) returns (rv: Ulong)
    requires Ready(cresp, GET_ATTRIBUTE_VALUE, ps)
    requires |ps| == 2 && ps[0].PAttributes? && SameTypes(template[..], ps[0].attrs)
    modifies cresp, cresp.buffer`failures, template
    ensures (rv, template[..]) == ReadAttributes(old(template[..]), Success(ps))
  {
    hide PartsOf, CallOf, Codes, DecodeAll, ReadAttributes, FilledTo, SameTypes;
    OutParts();
    ghost var l;
    rv, l := ReadAttributeArrayInto(cresp, template);
  }

  /** The call up to the response. */
  method AskTemplate(creq: Message, cresp: Message, req: Message, resp: Message, session: Ulong, object_: Ulong,
                     template: seq<CkAttribute>, oracle: AttributeFunction, ghost ample: bool)
    returns (rv: Ulong)
    requires creq.Valid() && cresp.Valid() && req.Valid() && resp.Valid()
    requires Apart(creq, cresp) && Apart(creq, req) && Apart(creq, resp) && Apart(cresp, req) && Apart(cresp, resp) && Apart(req, resp)
    requires |template| < TWO_32
    requires ReplyInFrame(AttributeService(oracle), GET_ATTRIBUTE_VALUE, TemplateRequest(session, object_, template))
    requires ample ==> AllAmple(creq, cresp, req, resp) && RequestInFrame(GET_ATTRIBUTE_VALUE, TemplateRequest(session, object_, template))
    modifies creq, creq.buffer, creq.buffer.buf, cresp, cresp.buffer, cresp.buffer.buf
    modifies req, req.buffer, req.buffer.buf, resp, resp.buffer, resp.buffer.buf
    ensures cresp.Valid() && (cresp.buffer.buf == old(cresp.buffer.buf) || fresh(cresp.buffer.buf))
    ensures
      var r := Conversed(AttributeService(oracle), GET_ATTRIBUTE_VALUE, TemplateRequest(session, object_, template));
      || (!ample && Exhausted(rv))
      || if r.Error? then rv == r.rv != Ckr.OK else rv == Ckr.OK && Ready(cresp, GET_ATTRIBUTE_VALUE, r.parts)
  {
    var ps := TemplateRequest(session, object_, template);
    RequestKinds(session, object_, template);
    RequestLight(session, object_, template);
    AttributeServiceOk(oracle);
    hide TemplateRequest, PartsOf, Kinds, Bounded, Light, ServiceOk, Ready, Conversed, ReplyInFrame, RequestInFrame, Apart;
    rv := Dispatch.Ask(creq, cresp, req, resp, GET_ATTRIBUTE_VALUE, ps, AttributeService(oracle), ample);
  }

  lemma RequestLight(session: Ulong, object_: Ulong, template: seq<CkAttribute>)
    requires |template| < TWO_32
    ensures
      var ps := TemplateRequest(session, object_, template);
      forall i | 0 <= i < |ps| :: Bounded(ps[i]) && Light(ps[i])
  {
    hide Light;
    var ps := TemplateRequest(session, object_, template);
    LightPart(ps[0]);
    LightPart(ps[1]);
    LightPart(ps[2]);
  }
}
