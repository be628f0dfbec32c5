/** C_GetAttributeValue through the proxy against a direct call (section 11.7 of PKCS#11 v2.20). */
module ProxyAttributes {
  import opened Bytes
  import opened EggBuffers
  import opened Signature
  import opened Wire
  import opened Arguments
  import opened Truncation
  import opened Proxy
  import Ckr

  /** A caller's CK_ATTRIBUTE: NULL or the memory block at pValue, and ulValueLen. */
  datatype CkAttribute = CkAttribute(typ: Ulong, block: Option<seq<Byte>>, len: Ulong)

  /** ulValueLen of an attribute that could not be returned: (CK_ULONG)-1. */
  const UNAVAILABLE: Ulong := 0xffff_ffff_ffff_ffff

  const GET_ATTRIBUTE_VALUE := 27

  /** What a template entry asks the module: the type, and NULL or the room at pValue. */
  datatype Query = Query(typ: Ulong, room: Option<Ulong>)

  /** The module's treatment of one entry: length set to -1, length only, or value and length. */
  datatype Outcome = Refused | Size(len: Ulong) | Data(value: seq<Byte>)

  datatype AttributeAnswer = AttributeAnswer(rv: Ulong, outcomes: seq<Outcome>)

  type AttributeFunction = (Ulong, Ulong, seq<Query>) -> AttributeAnswer

  function Ask(a: CkAttribute): Query {
    Query(a.typ, if a.block.None? then None else Some(a.len))
  }

  function Asks(template: seq<CkAttribute>): (qs: seq<Query>)
    ensures |qs| == |template|
    ensures forall i | 0 <= i < |template| :: qs[i] == Ask(template[i])
  {
    seq(|template|, i requires 0 <= i < |template| => Ask(template[i]))
  }

  /** The codes that come with a filled-in template. */
  predicate WithTemplate(rv: Ulong) {
    rv == Ckr.OK || rv == Ckr.ATTRIBUTE_SENSITIVE || rv == Ckr.ATTRIBUTE_TYPE_INVALID || rv == Ckr.BUFFER_TOO_SMALL
  }

  predicate ConformingOutcome(q: Query, o: Outcome) {
    match o
    case Refused => true
    case Size(n) => q.room.None? && n < TWO_32
    case Data(v) => q.room.Some? && |v| <= q.room.value
  }

  predicate ConformingAttributes(qs: seq<Query>, a: AttributeAnswer) {
    && a.rv < TWO_32
    && (WithTemplate(a.rv) ==> |a.outcomes| == |qs| && forall i | 0 <= i < |qs| :: ConformingOutcome(qs[i], a.outcomes[i]))
  }

  /** The module's effect on one template entry. */
  function Settle(a: CkAttribute, o: Outcome): CkAttribute {
    match o
    case Refused => a.(len := UNAVAILABLE)
    case Size(n) => a.(len := n)
    case Data(v) => a.(len := |v| % TWO_64, block := if a.block.None? then None else Some(Overlay(v, a.block.value)))
  }

  function SettleAll(template: seq<CkAttribute>, os: seq<Outcome>): (r: seq<CkAttribute>)
    requires |template| == |os|
    ensures |r| == |template|
    ensures forall i | 0 <= i < |template| :: r[i] == Settle(template[i], os[i])
  {
    seq(|template|, i requires 0 <= i < |template| => Settle(template[i], os[i]))
  }

  /** What the caller holds after a direct call. */
  function DirectAttributes(template: seq<CkAttribute>, a: AttributeAnswer): (Ulong, seq<CkAttribute>) {
    (a.rv, if WithTemplate(a.rv) && |template| == |a.outcomes| then SettleAll(template, a.outcomes) else template)
  }

  // ----- Client and daemon --------------------------------------------------------------------

  /** gck_rpc_message_write_attribute_buffer: types and lengths narrowed, length 0 for a NULL value. */
  function WantOf(a: CkAttribute): Want {
    Want(Truncate32(a.typ), if a.block.None? then 0 else Truncate32(a.len))
  }

  function WantsOf(template: seq<CkAttribute>): (ws: seq<Want>)
    ensures |ws| == |template|
    ensures forall i | 0 <= i < |template| :: ws[i] == WantOf(template[i])
  {
    seq(|template|, i requires 0 <= i < |template| => WantOf(template[i]))
  }

  /** proto_read_attribute_buffer: a fresh block of the wanted size, or NULL for length 0. */
  function Fresh(w: Want): CkAttribute {
    CkAttribute(w.typ, if w.len == 0 then None else Some(seq(w.len, _ => 0xff)), w.len)
  }

  function FreshAll(ws: seq<Want>): (t: seq<CkAttribute>)
    ensures |t| == |ws|
    ensures forall i | 0 <= i < |ws| :: t[i] == Fresh(ws[i])
  {
    seq(|ws|, i requires 0 <= i < |ws| => Fresh(ws[i]))
  }

  /** gck_rpc_message_write_attribute_array on one entry. */
  function ToWire(a: CkAttribute): Attribute {
    if a.len == UNAVAILABLE then Invalid(Truncate32(a.typ))
    else match a.block
         case None => Null(Truncate32(a.typ), Truncate32(a.len))
         case Some(block) => Value(Truncate32(a.typ), if a.len <= |block| then block[..a.len] else block)
  }

  function ToWireAll(t: seq<CkAttribute>): (r: seq<Attribute>)
    ensures |r| == |t|
    ensures forall i | 0 <= i < |t| :: r[i] == ToWire(t[i])
  {
    seq(|t|, i requires 0 <= i < |t| => ToWire(t[i]))
  }

  /** proto_write_attribute_array with its filter on the return code. */
  function FilterAttributes(t: seq<CkAttribute>, rv: Ulong): Reply {
    if !WithTemplate(rv) then Error(rv)
    else if !AttributesFit(ToWireAll(t)) then Error(Ckr.PREP_ERROR)
    else Success([PAttributes(ToWireAll(t)), PUlong(rv)])
  }

  /** The reply once the module has settled the daemon's copy of the template. */
  function ReplyTo(ws: seq<Want>, a: AttributeAnswer): Reply {
    FilterAttributes(if |a.outcomes| == |ws| then SettleAll(FreshAll(ws), a.outcomes) else FreshAll(ws), a.rv)
  }

  /** The question in a C_GetAttributeValue request. */
  datatype AttributeQuestion = AttributeQuestion(session: Ulong, object_: Ulong, wants: seq<Want>)

  /** The question the daemon decodes, or its refusal to ask it. */
  function AttributesQuestion(ps: seq<Part>): Result<AttributeQuestion>
    requires AllFit(ps)
  {
    match Received(GET_ATTRIBUTE_VALUE, ps)
    case Short => Err(Ckr.DEVICE_ERROR)
    case Got((_, qs), _) =>
      if |qs| != 3 || !qs[0].PUlong? || !qs[1].PUlong? || !qs[2].PAttributeBuffer? then Err(Ckr.PARSE_ERROR)
      else if !Granted(qs[2]) then Err(Ckr.DEVICE_MEMORY)
      else Ok(AttributeQuestion(qs[0].v, qs[1].v, qs[2].wants))
  }

  /** The daemon's handling of such a request; sizeof(CK_ATTRIBUTE) is 24. */
  function ServeAttributes(ps: seq<Part>, oracle: AttributeFunction): Reply
    requires AllFit(ps)
  {
    match AttributesQuestion(ps)
    case Err(rv) => Error(rv)
    case Ok(q) => ReplyTo(q.wants, oracle(q.session, q.object_, Asks(FreshAll(q.wants))))
  }

  /** proto_read_attribute_array on one entry, for an attribute of the right type. */
  function Fill(a: CkAttribute, w: Attribute): CkAttribute {
    match w
    case Invalid(_) => a.(len := UNAVAILABLE)
    case Null(_, n) => a.(len := if a.block.None? || a.len < n then n else 0)
    case Value(_, v) =>
      a.(len := |v| % TWO_64, block := if a.block.None? || a.len < |v| then a.block else Some(Overlay(v, a.block.value)))
  }

  function FillAll(template: seq<CkAttribute>, ws: seq<Attribute>): (r: seq<CkAttribute>)
    requires |template| == |ws|
    ensures |r| == |template|
    ensures forall i | 0 <= i < |template| :: r[i] == Fill(template[i], ws[i])
  {
    seq(|template|, i requires 0 <= i < |template| => Fill(template[i], ws[i]))
  }

  predicate SameTypes(template: seq<CkAttribute>, ws: seq<Attribute>) {
    |template| == |ws| && forall i | 0 <= i < |ws| :: template[i].typ == ws[i].typ
  }

  /** OUT_ATTRIBUTE_ARRAY: the template is filled in and the code sent along with it is returned. */
  function ReadAttributes(template: seq<CkAttribute>, r: Reply): (Ulong, seq<CkAttribute>) {
    if r.Error? then (r.rv, template)
    else if |r.parts| != 2 || !r.parts[0].PAttributes? || !r.parts[1].PUlong? then (Ckr.PARSE_ERROR, template)
    else if !SameTypes(template, r.parts[0].attrs) then (Ckr.PARSE_ERROR, template)
    else (r.parts[1].v, FillAll(template, r.parts[0].attrs))
  }

  function TemplateRequest(session: Ulong, object_: Ulong, template: seq<CkAttribute>): seq<Part> {
    [PUlong(session), PUlong(object_), PAttributeBuffer(WantsOf(template))]
  }

  function ProxiedAttributes(session: Ulong, object_: Ulong, template: seq<CkAttribute>, oracle: AttributeFunction)
      : (Ulong, seq<CkAttribute>)
    requires |template| < TWO_32
  {
    ReadAttributes(template, Answered(GET_ATTRIBUTE_VALUE, ServeAttributes(TemplateRequest(session, object_, template), oracle)))
  }

  // ----- The questions agree --------------------------------------------------------------------

  /** An entry the wire can carry: narrow type, and a buffer that is neither empty nor over 32 bits. */
  predicate Expressible(a: CkAttribute) {
    a.typ < TWO_32 && (a.block.Some? ==> 0 < a.len < TWO_32)
  }

  /** The module is asked the caller's question exactly for expressible templates. */
  lemma QuestionsAgreeIff(template: seq<CkAttribute>)
    ensures Asks(FreshAll(WantsOf(template))) == Asks(template) <==> forall a <- template :: Expressible(a)
  {
    var served, asked := Asks(FreshAll(WantsOf(template))), Asks(template);
    forall i | 0 <= i < |template|
      ensures served[i] == asked[i] <==> Expressible(template[i])
    {
    }
    if served == asked {
      forall a <- template ensures Expressible(a) {
        var i :| 0 <= i < |template| && template[i] == a;
        assert served[i] == asked[i];
      }
    }
  }

  // ----- Transparency ---------------------------------------------------------------------------

  /** Longer templates make a request of 0x0FFFFFFF bytes or more, which the daemon refuses. */
  const MAX_TEMPLATE := 0x1ff_fffb

  /** The caller's side: expressible entries, few enough, whose blocks have the announced room. */
  predicate SoundTemplate(template: seq<CkAttribute>) {
    && |template| <= MAX_TEMPLATE
    && forall a <- template :: Expressible(a) && (a.block.Some? ==> a.len < ARRAY_LIMIT && a.len <= |a.block.value|)
  }

  lemma RequestKinds(session: Ulong, object_: Ulong, template: seq<CkAttribute>)
    ensures Kinds(TemplateRequest(session, object_, template)) == [U, U, FA] == PartsOf(GET_ATTRIBUTE_VALUE, true)
  {
    var ps := TemplateRequest(session, object_, template);
    assert ps[1..] == [ps[1], ps[2]] && [ps[1], ps[2]][1..] == [ps[2]] && [ps[2]][1..] == [];
    assert PartsOf(GET_ATTRIBUTE_VALUE, true) == [U, U, FA];
    hide PartsOf;
    assert Kinds([ps[2]]) == [FA] && Kinds([ps[1], ps[2]]) == [U, FA];
  }

  lemma {:induction false} WantsSize(ws: seq<Want>)
    ensures |EncodeWants(ws)| == 8 * |ws|
  {
    if ws == [] {
    } else {
      WantsSize(ws[1..]);
    }
  }

  lemma Signatures()
    ensures |Codes(PartsOf(GET_ATTRIBUTE_VALUE, true))| == 4 && |Codes(PartsOf(GET_ATTRIBUTE_VALUE, false))| == 3
  {
    assert PartsOf(GET_ATTRIBUTE_VALUE, true) == [U, U, FA] && PartsOf(GET_ATTRIBUTE_VALUE, false) == [AA, U];
    hide PartsOf;
    assert [U, U, FA][1..] == [U, FA] && [U, FA][1..] == [FA] && [FA][1..] == [] && [AA, U][1..] == [U] && [U][1..] == [];
    assert Codes([FA]) == "fA" + Codes([]) && Codes([U]) == "u" + Codes([]);
    assert Codes([U, FA]) == "u" + Codes([FA]) && Codes([U, U, FA]) == "u" + Codes([U, FA]) && Codes([AA, U]) == "aA" + Codes([U]);
  }

  /** The length of a request is determined by the number of entries. */
  lemma RequestSize(session: Ulong, object_: Ulong, template: seq<CkAttribute>)
    ensures |EncodeMessage(GET_ATTRIBUTE_VALUE, true, TemplateRequest(session, object_, template))| == 32 + 8 * |template|
    ensures Carried(GET_ATTRIBUTE_VALUE, TemplateRequest(session, object_, template)) <==> |template| <= MAX_TEMPLATE
  {
    Signatures();
    WantsSize(WantsOf(template));
    hide PartsOf, Codes, EncodeUint32, EncodeUint64, SignatureBytes, EncodeWants, WantsOf;
    var ps := TemplateRequest(session, object_, template);
    assert ps[1..] == [ps[1], ps[2]] && [ps[1], ps[2]][1..] == [ps[2]] && [ps[2]][1..] == [];
    assert EncodeAll([ps[2]]) == Encode(ps[2]) + [] && EncodeAll([ps[1], ps[2]]) == Encode(ps[1]) + EncodeAll([ps[2]]);
    assert EncodeAll(ps) == Encode(ps[0]) + EncodeAll([ps[1], ps[2]]);
    assert |Encode(ps[0])| == 8 && |Encode(ps[1])| == 8 && |Encode(ps[2])| == 4 + 8 * |template|;
    assert |Header(GET_ATTRIBUTE_VALUE, true)| == 12;
  }

  /** What the daemon makes of a request. */
  lemma TemplateReach(session: Ulong, object_: Ulong, template: seq<CkAttribute>)
    requires |template| < TWO_32
    ensures AttributesQuestion(TemplateRequest(session, object_, template)) ==
            if |template| > MAX_TEMPLATE then Err(Ckr.DEVICE_ERROR)
            else if !Granted(PAttributeBuffer(WantsOf(template))) then Err(Ckr.DEVICE_MEMORY)
            else Ok(AttributeQuestion(session, object_, WantsOf(template)))
  {
    hide Received, PartsOf, Kinds, Granted, Carried;
    RequestKinds(session, object_, template);
    RequestSize(session, object_, template);
    ReceivedIff(GET_ATTRIBUTE_VALUE, TemplateRequest(session, object_, template));
  }

  /** What the module is asked, or the daemon's refusal. */
  function AttributesAsked(session: Ulong, object_: Ulong, template: seq<CkAttribute>): Result<(Ulong, Ulong, seq<Query>)>
    requires |template| < TWO_32
  {
    match AttributesQuestion(TemplateRequest(session, object_, template))
    case Err(rv) => Err(rv)
    case Ok(q) => Ok((q.session, q.object_, Asks(FreshAll(q.wants))))
  }

  /** call_alloc provides for the entries and their blocks. */
  lemma GrantedIff(template: seq<CkAttribute>)
    requires |template| <= MAX_TEMPLATE && forall a <- template :: Expressible(a)
    ensures Granted(PAttributeBuffer(WantsOf(template))) <==> forall a <- template :: a.block.Some? ==> Allocatable(a.len)
  {
    var ws := WantsOf(template);
    assert forall i | 0 <= i < |template| :: Expressible(template[i]) && ws[i] == WantOf(template[i]);
    if Granted(PAttributeBuffer(ws)) {
      forall a <- template | a.block.Some? ensures Allocatable(a.len) {
        var i :| 0 <= i < |template| && template[i] == a;
        assert ws[i] in ws;
      }
    } else {
      var w :| w in ws && !Allocatable(w.len);
      var i :| 0 <= i < |template| && ws[i] == w;
      assert template[i] in template;
    }
  }

  /**
    The module is asked the caller's question exactly for expressible templates that are short enough for
    the daemon and whose blocks call_alloc provides.
   */
  lemma AttributesAskedIff(session: Ulong, object_: Ulong, template: seq<CkAttribute>)
    requires |template| < TWO_32
    ensures AttributesAsked(session, object_, template) == Ok((session, object_, Asks(template)))
       <==> && |template| <= MAX_TEMPLATE
            && forall a <- template :: Expressible(a) && (a.block.Some? ==> Allocatable(a.len))
  {
    hide AttributesQuestion, Granted, Expressible, Asks, FreshAll, WantsOf;
    TemplateReach(session, object_, template);
    QuestionsAgreeIff(template);
    if |template| <= MAX_TEMPLATE && forall a <- template :: Expressible(a) { GrantedIff(template); }
  }

  /** Whatever the template, the module is asked what the wire made of it. */
  lemma ServedTemplate(session: Ulong, object_: Ulong, template: seq<CkAttribute>, oracle: AttributeFunction)
    requires |template| <= MAX_TEMPLATE && Granted(PAttributeBuffer(WantsOf(template)))
    ensures ServeAttributes(TemplateRequest(session, object_, template), oracle)
         == ReplyTo(WantsOf(template), oracle(session, object_, Asks(FreshAll(WantsOf(template)))))
  {
    hide AttributesQuestion, ReplyTo, FreshAll, Granted;
    TemplateReach(session, object_, template);
  }

  /** The daemon puts to the module exactly the caller's question. */
  lemma ServedAttributes(session: Ulong, object_: Ulong, template: seq<CkAttribute>, oracle: AttributeFunction)
    requires SoundTemplate(template)
    ensures ServeAttributes(TemplateRequest(session, object_, template), oracle)
         == ReplyTo(WantsOf(template), oracle(session, object_, Asks(template)))
  {
    hide ServeAttributes, TemplateRequest, ReplyTo, Granted;
    QuestionsAgreeIff(template);
    GrantedIff(template);
    ServedTemplate(session, object_, template, oracle);
  }

  /** One entry: settled by the daemon's module, sent and filled in, it equals the direct effect. */
  lemma EntryRoundTrip(a: CkAttribute, o: Outcome)
    requires Expressible(a) && (a.block.Some? ==> a.len < ARRAY_LIMIT && a.len <= |a.block.value|)
    requires ConformingOutcome(Ask(a), o)
    ensures
      var w := ToWire(Settle(Fresh(WantOf(a)), o));
      FitsAttribute(w) && w.typ == a.typ && Fill(a, w) == Settle(a, o)
  {
    if o.Data? {
      var d := Settle(Fresh(WantOf(a)), o);
      assert d.block.value[..d.len] == o.value;
    }
  }

  /** The whole template: what the daemon sends fits the wire and fills in the direct effect. */
  lemma TemplateRoundTrip(template: seq<CkAttribute>, os: seq<Outcome>)
    requires SoundTemplate(template) && |os| == |template|
    requires forall i | 0 <= i < |template| :: ConformingOutcome(Asks(template)[i], os[i])
    ensures
      var ws := ToWireAll(SettleAll(FreshAll(WantsOf(template)), os));
      && AttributesFit(ws)
      && SameTypes(template, ws)
      && FillAll(template, ws) == SettleAll(template, os)
  {
    var ws := ToWireAll(SettleAll(FreshAll(WantsOf(template)), os));
    forall i | 0 <= i < |template|
      ensures FitsAttribute(ws[i]) && ws[i].typ == template[i].typ
      ensures Fill(template[i], ws[i]) == Settle(template[i], os[i])
    {
      EntryRoundTrip(template[i], os[i]);
    }
  }

  function AttributesSize(ws: seq<Attribute>): nat {
    if ws == [] then 0
    else (if ws[0].Invalid? then 5 else if ws[0].Null? then 13 else 13 + |ws[0].value|) + AttributesSize(ws[1..])
  }

  lemma {:induction false} AttributesSizeIs(ws: seq<Attribute>)
    ensures |EncodeAttributes(ws)| == AttributesSize(ws)
  {
    hide EncodeUint32;
    if ws == [] {
    } else {
      AttributesSizeIs(ws[1..]);
      assert |EncodeAttributes(ws)| == |EncodeAttribute(ws[0])| + |EncodeAttributes(ws[1..])|;
    }
  }

  function TemplateReply(ws: seq<Attribute>, rv: Ulong): Reply {
    Success([PAttributes(ws), PUlong(rv)])
  }

  lemma TemplateSendable(ws: seq<Attribute>, rv: Ulong)
    requires |ws| < TWO_32 && AttributesFit(ws)
    ensures Sendable(GET_ATTRIBUTE_VALUE, TemplateReply(ws, rv))
  {
    var ps := TemplateReply(ws, rv).parts;
    assert PartsOf(GET_ATTRIBUTE_VALUE, false) == [AA, U];
    hide PartsOf;
    assert ps[1..] == [ps[1]] && Kinds([ps[1]]) == [U] + Kinds([]);
    assert Kinds(ps) == [AA, U];
  }

  /** The length of a reply that carries a template. */
  lemma TemplateSize(ws: seq<Attribute>, rv: Ulong)
    requires Sendable(GET_ATTRIBUTE_VALUE, TemplateReply(ws, rv))
    ensures |ReplyBytes(GET_ATTRIBUTE_VALUE, TemplateReply(ws, rv))| == 23 + AttributesSize(ws)
  {
    Signatures();
    AttributesSizeIs(ws);
    hide PartsOf, Codes, EncodeUint32, EncodeUint64, SignatureBytes, EncodeAttributes, AttributesSize, Kinds, AttributesFit;
    var ps := TemplateReply(ws, rv).parts;
    assert ps[1..] == [ps[1]] && [ps[1]][1..] == [];
    assert EncodeAll([ps[1]]) == Encode(ps[1]) + [] && EncodeAll(ps) == Encode(ps[0]) + EncodeAll([ps[1]]);
    assert |Header(GET_ATTRIBUTE_VALUE, false)| == 11;
  }

  /** A reply that carries a template arrives as sent exactly if its length fits the length word. */
  lemma TemplateArrives(ws: seq<Attribute>, rv: Ulong)
    requires |ws| < TWO_32 && AttributesFit(ws)
    ensures Answered(GET_ATTRIBUTE_VALUE, TemplateReply(ws, rv)) ==
            if 23 + AttributesSize(ws) < TWO_32 then TemplateReply(ws, rv) else Error(Ckr.DEVICE_ERROR)
  {
    var r := TemplateReply(ws, rv);
    TemplateSendable(ws, rv);
    TemplateSize(ws, rv);
    hide PartsOf, AttributesFit, Kinds, DecodeMessage, EncodeMessage, AttributesSize;
    var wire := ReplyBytes(GET_ATTRIBUTE_VALUE, r);
    if |wire| < TWO_32 {
      AnsweredShort(GET_ATTRIBUTE_VALUE, r);
      ReplyArrives(GET_ATTRIBUTE_VALUE, r);
    } else {
      CutShort(GET_ATTRIBUTE_VALUE, false, r.parts, |wire| % TWO_32);
    }
  }

  /** The bytes in which a template settled by the module goes back. */
  function Settled(template: seq<CkAttribute>, os: seq<Outcome>): seq<Attribute>
    requires |os| == |template|
  {
    ToWireAll(SettleAll(FreshAll(WantsOf(template)), os))
  }

  /** The length of the reply fits its length word. */
  predicate ReplyFits(template: seq<CkAttribute>, a: AttributeAnswer) {
    WithTemplate(a.rv) && |a.outcomes| == |template| ==> 23 + AttributesSize(Settled(template, a.outcomes)) < TWO_32
  }

  /** The most the reply to a template can take. */
  function ReplyRoom(template: seq<CkAttribute>): nat {
    if template == [] then 23 else 13 + (if template[0].block.Some? then template[0].len else 0) + ReplyRoom(template[1..])
  }

  lemma {:induction false} RoomSuffices(template: seq<CkAttribute>, os: seq<Outcome>)
    requires (forall a <- template :: Expressible(a)) && |os| == |template|
    requires forall i | 0 <= i < |template| :: ConformingOutcome(Ask(template[i]), os[i])
    ensures 23 + AttributesSize(Settled(template, os)) <= ReplyRoom(template)
  {
    if template == [] {
    } else {
      assert forall i | 0 <= i < |template| - 1 :: template[1..][i] == template[i + 1] && os[1..][i] == os[i + 1];
      RoomSuffices(template[1..], os[1..]);
      assert Settled(template, os)[1..] == Settled(template[1..], os[1..]);
      assert Expressible(template[0]) && ConformingOutcome(Ask(template[0]), os[0]);
      assert Settled(template, os)[0] == ToWire(Settle(Fresh(WantOf(template[0])), os[0]));
    }
  }

  /** A caller who wants less than 2^32 bytes, 13 more for each entry and 23 altogether, always has a reply that fits. */
  lemma ReplyRoomSuffices(template: seq<CkAttribute>, a: AttributeAnswer)
    requires SoundTemplate(template) && ConformingAttributes(Asks(template), a) && ReplyRoom(template) < TWO_32
    ensures ReplyFits(template, a)
  {
    hide ReplyRoom, AttributesSize, Settled;
    if WithTemplate(a.rv) { RoomSuffices(template, a.outcomes); }
  }

  lemma FilteredAttributes(template: seq<CkAttribute>, a: AttributeAnswer)
    requires SoundTemplate(template) && ConformingAttributes(Asks(template), a)
    ensures ReadAttributes(template, Answered(GET_ATTRIBUTE_VALUE, ReplyTo(WantsOf(template), a)))
         == if ReplyFits(template, a) then DirectAttributes(template, a) else (Ckr.DEVICE_ERROR, template)
  {
    hide Answered, ToWireAll, SettleAll, FillAll, SameTypes, PartsOf, FreshAll, WantsOf, AttributesFit, AttributesSize;
    if !WithTemplate(a.rv) {
      ErrorArrives(a.rv);
    } else {
      TemplateRoundTrip(template, a.outcomes);
      TemplateArrives(Settled(template, a.outcomes), a.rv);
    }
  }

  lemma ErrorArrives(rv: Ulong)
    ensures Answered(GET_ATTRIBUTE_VALUE, Error(rv)) == Error(if Truncate32(rv) == Ckr.OK then Ckr.DEVICE_ERROR else Truncate32(rv))
  {
    hide CallRun, ReplyBytes;
    ErrorReplyShort(GET_ATTRIBUTE_VALUE, Error(rv));
    AnsweredShort(GET_ATTRIBUTE_VALUE, Error(rv));
    ReplyArrives(GET_ATTRIBUTE_VALUE, Error(rv));
  }

  /**
    Transparency for C_GetAttributeValue: lengths, -1 marks, bytes, untouched rests and the code. It holds
    exactly if the reply fits its length word; if not, the caller gets CKR_DEVICE_ERROR.
   */
  lemma TransparentAttributes(session: Ulong, object_: Ulong, template: seq<CkAttribute>, oracle: AttributeFunction)
    requires SoundTemplate(template)
    requires ConformingAttributes(Asks(template), oracle(session, object_, Asks(template)))
    ensures ProxiedAttributes(session, object_, template, oracle)
         == DirectAttributes(template, oracle(session, object_, Asks(template)))
       <==> ReplyFits(template, oracle(session, object_, Asks(template)))
  {
    hide ServeAttributes, ReplyTo, ReadAttributes, Answered, TemplateRequest, Asks, AttributesSize, Settled, SettleAll;
    ServedAttributes(session, object_, template, oracle);
    FilteredAttributes(template, oracle(session, object_, Asks(template)));
  }

  // ----- The caller's template afterwards -----------------------------------------------------

  /** What section 11.7 lets the module do with an entry: refuse it, tell its size if pValue is NULL, or fill it. */
  predicate Sensible(a: CkAttribute, o: Outcome) {
    match o
    case Refused => true
    case Size(n) => a.block.None? && n < 0x1_0000_0000
    case Data(v) => a.block.Some? && |v| <= a.len
  }

  /** What the caller finds in the entry: -1, the size, or the value with the bytes behind it as they were. */
  predicate Leaves(was: CkAttribute, o: Outcome, now: CkAttribute) {
    && now.typ == was.typ
    && match o
       case Refused => now.len == 0xffff_ffff_ffff_ffff && now.block == was.block
       case Size(n) => now.len == n && now.block == was.block
       case Data(v) =>
         && now.len == |v| && now.block.Some? && was.block.Some? && |now.block.value| == |was.block.value|
         && |v| <= |was.block.value| && now.block.value[..|v|] == v && now.block.value[|v|..] == was.block.value[|v|..]
  }

  /**
    C_GetAttributeValue with the codes spelled out. With CKR_OK, CKR_ATTRIBUTE_SENSITIVE,
    CKR_ATTRIBUTE_TYPE_INVALID and CKR_BUFFER_TOO_SMALL the caller's template is as the module left its own; with
    any other code it is untouched.
   */
  lemma TemplateAfter(session: Ulong, object_: Ulong, template: seq<CkAttribute>, oracle: AttributeFunction)
    requires SoundTemplate(template) && ReplyRoom(template) < TWO_32
    requires
      var a := oracle(session, object_, Asks(template));
      && 0 <= a.rv < 0x1_0000_0000 && |a.outcomes| == |template|
      && forall i | 0 <= i < |template| :: Sensible(template[i], a.outcomes[i])
    ensures
      var a := oracle(session, object_, Asks(template));
      var (rv, now) := ProxiedAttributes(session, object_, template, oracle);
      && rv == a.rv && |now| == |template|
      && if rv == 0 || rv == 0x11 || rv == 0x12 || rv == 0x150 then
           forall i | 0 <= i < |template| :: Leaves(template[i], a.outcomes[i], now[i])
         else now == template
  {
    var a := oracle(session, object_, Asks(template));
    SensibleConforms(template, a);
    ReplyRoomSuffices(template, a);
    TransparentAttributes(session, object_, template, oracle);
    hide ProxiedAttributes, ReplyRoom, ReplyFits, Asks, Sensible, Leaves, Expressible;
    if WithTemplate(a.rv) {
      forall i | 0 <= i < |template| ensures Leaves(template[i], a.outcomes[i], SettleAll(template, a.outcomes)[i]) {
        assert template[i] in template;
        SettledLeaves(template[i], a.outcomes[i]);
      }
    }
  }

  lemma SettledLeaves(a: CkAttribute, o: Outcome)
    requires Sensible(a, o) && (a.block.Some? ==> a.len <= |a.block.value|)
    ensures Leaves(a, o, Settle(a, o))
  {
  }

  lemma SensibleConforms(template: seq<CkAttribute>, a: AttributeAnswer)
    requires a.rv < TWO_32 && |a.outcomes| == |template| && forall i | 0 <= i < |template| :: Sensible(template[i], a.outcomes[i])
    ensures ConformingAttributes(Asks(template), a)
  {
    forall i | 0 <= i < |template| ensures ConformingOutcome(Asks(template)[i], a.outcomes[i]) {
      assert Sensible(template[i], a.outcomes[i]);
    }
  }

  /** What proto_read_attribute_array makes of an entry, case by case, whoever sent it. */
  lemma FillCases(a: CkAttribute, w: Attribute)
    ensures
      var now := Fill(a, w);
      var n: int := match w case Invalid(_) => 0 case Null(_, n) => n case Value(_, v) => |v|;
      && now.typ == a.typ
      && (w.Invalid? ==> now.len == 0xffff_ffff_ffff_ffff && now.block == a.block)
      && (!w.Invalid? && n < TWO_64 && (a.block.None? || a.len < n) ==> now.len == n && now.block == a.block)
      && (w.Null? && a.block.Some? && n <= a.len ==> now.len == 0 && now.block == a.block)
      && (w.Value? && a.block.Some? && n <= a.len <= |a.block.value| ==>
            && now.len == n && now.block.Some? && |now.block.value| == |a.block.value|
            && now.block.value[..n] == w.value && now.block.value[n..] == a.block.value[n..])
  {
  }

  // ----- An empty buffer --------------------------------------------------------------------

  /** A module holding one attribute of `len` bytes that is asked for it alone. */
  function OneValue(len: Uint32): AttributeFunction {
    (session, object_, qs: seq<Query>) =>
      if |qs| != 1 then AttributeAnswer(Ckr.GENERAL_ERROR, [])
      else if qs[0].room.None? then AttributeAnswer(Ckr.OK, [Size(len)])
      else if qs[0].room.value < len then AttributeAnswer(Ckr.BUFFER_TOO_SMALL, [Refused])
      else AttributeAnswer(Ckr.OK, [Data(seq(len, _ => 0))])
  }

  /** The daemon's reply to a size query: the length alone. */
  lemma SizeReplied(typ: Uint32, len: Uint32)
    ensures ReplyTo([Want(typ, 0)], AttributeAnswer(Ckr.OK, [Size(len)])) == Success([PAttributes([Null(typ, len)]), PUlong(Ckr.OK)])
  {
    var d := SettleAll(FreshAll([Want(typ, 0)]), [Size(len)]);
    assert ToWireAll(d) == [Null(typ, len)];
  }

  /**
    Transparency fails for a buffer of length 0: the module says "too small" to a direct caller, but the
    proxy asks it for the size only and reports success.
   */
  lemma EmptyBufferMisreported(session: Ulong, object_: Ulong, typ: Uint32, len: Uint32)
    requires len > 0
    ensures
      var template := [CkAttribute(typ, Some([]), 0)];
      && ConformingAttributes(Asks(template), OneValue(len)(session, object_, Asks(template)))
      && DirectAttributes(template, OneValue(len)(session, object_, Asks(template)))
         == (Ckr.BUFFER_TOO_SMALL, [CkAttribute(typ, Some([]), UNAVAILABLE)])
      && ProxiedAttributes(session, object_, template, OneValue(len)) == (Ckr.OK, [CkAttribute(typ, Some([]), len)])
  {
    hide Answered, ServeAttributes, ReplyTo;
    var template := [CkAttribute(typ, Some([]), 0)];
    assert WantsOf(template) == [Want(typ, 0)];
    ServedTemplate(session, object_, template, OneValue(len));
    SizeReplied(typ, len);
    TemplateArrives([Null(typ, len)], Ckr.OK);
    assert AttributesSize([Null(typ, len)]) == 13 + AttributesSize([]);
    assert FillAll(template, [Null(typ, len)]) == [CkAttribute(typ, Some([]), len)];
    assert SettleAll(template, [Refused]) == [CkAttribute(typ, Some([]), UNAVAILABLE)];
  }
}
