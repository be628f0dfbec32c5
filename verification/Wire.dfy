/** The typed, self-delimiting wire format of gck-rpc-message.c, as functions on byte sequences. */
module Wire {
  import opened Bytes
  import opened EggBuffers
  import opened Signature

  /** CK_ATTRIBUTE on the wire: marked invalid (length -1), NULL value with a length, or a value. */
  datatype Attribute =
    | Invalid(typ: Uint32)
    | Null(typ: Uint32, len: Uint32)
    | Value(typ: Uint32, value: seq<Byte>)

  /** An entry of an attribute buffer: the type wanted and the room for it, 0 for a size query. */
  datatype Want = Want(typ: Uint32, len: Uint32)

  datatype Part =
    | PByte(b: Byte)
    | PUlong(v: Ulong)
    | PString(s: seq<Byte>)
    | PVersion(major: Byte, minor: Byte)
    | PMechanism(mech: Uint32, param: Option<seq<Byte>>)
    | PBytes(data: seq<Byte>)
    | PNoBytes(len: Uint32)
    | PUlongs(vs: seq<Ulong>)
    | PNoUlongs(n: Uint32)
    | PAttributes(attrs: seq<Attribute>)
    | PByteBuffer(nullData: bool, nullCount: bool, room: Uint32)
    | PUlongBuffer(room: Uint32)
    | PAttributeBuffer(wants: seq<Want>)

  function KindOf(p: Part): Kind {
    match p
    case PByte(_) => Y
    case PUlong(_) => U
    case PString(_) => S
    case PVersion(_, _) => V
    case PMechanism(_, _) => M
    case PBytes(_) => AY
    case PNoBytes(_) => AY
    case PUlongs(_) => AU
    case PNoUlongs(_) => AU
    case PAttributes(_) => AA
    case PByteBuffer(_, _, _) => FY
    case PUlongBuffer(_) => FU
    case PAttributeBuffer(_) => FA
  }

  predicate FitsAttribute(a: Attribute) {
    a.Value? ==> |a.value| < ARRAY_LIMIT
  }

  predicate AttributesFit(attrs: seq<Attribute>) {
    forall a <- attrs :: FitsAttribute(a)
  }

  /** The wire limits: byte arrays below 2^31 - 1 bytes, counts below 2^32. */
  predicate Fits(p: Part) {
    match p
    case PString(s) => |s| < ARRAY_LIMIT
    case PMechanism(_, param) => param.Some? ==> |param.value| < ARRAY_LIMIT
    case PBytes(data) => |data| < ARRAY_LIMIT
    case PUlongs(vs) => |vs| < TWO_32
    case PAttributes(attrs) => |attrs| < TWO_32 && AttributesFit(attrs)
    case PAttributeBuffer(wants) => |wants| < TWO_32
    case _ => true
  }

  predicate AllFit(ps: seq<Part>) {
    forall p <- ps :: Fits(p)
  }

  function Kinds(ps: seq<Part>): (ks: seq<Kind>)
    ensures |ks| == |ps|
  {
    if ps == [] then [] else [KindOf(ps[0])] + Kinds(ps[1..])
  }

  // ----- Encoding ---------------------------------------------------------------------------

  function EncodeUlongs(vs: seq<Ulong>): seq<Byte> {
    if vs == [] then [] else EncodeUint64(vs[0]) + EncodeUlongs(vs[1..])
  }

  function EncodeAttribute(a: Attribute): seq<Byte> {
    match a
    case Invalid(t) => EncodeUint32(t) + [0]
    case Null(t, n) => EncodeUint32(t) + [1] + EncodeUint32(n) + EncodeByteArray(None)
    case Value(t, v) => EncodeUint32(t) + [1] + EncodeUint32(Truncate32(|v|)) + EncodeByteArray(Some(v))
  }

  function EncodeAttributes(attrs: seq<Attribute>): seq<Byte> {
    if attrs == [] then [] else EncodeAttribute(attrs[0]) + EncodeAttributes(attrs[1..])
  }

  function EncodeWants(wants: seq<Want>): seq<Byte> {
    if wants == [] then []
    else EncodeUint32(wants[0].typ) + EncodeUint32(wants[0].len) + EncodeWants(wants[1..])
  }

  function Flags(nullData: bool, nullCount: bool): Byte {
    (if nullData then 1 else 0) + if nullCount then 2 else 0
  }

  /** What the writers put into the buffer for a part; counts are narrowed to 32 bits. */
  function Encode(p: Part): seq<Byte> {
    match p
    case PByte(b) => [b]
    case PUlong(v) => EncodeUint64(v)
    case PString(s) => EncodeByteArray(Some(s))
    case PVersion(major, minor) => [major, minor]
    case PMechanism(mech, param) => EncodeUint32(mech) + EncodeByteArray(param)
    case PBytes(data) => [1] + EncodeByteArray(Some(data))
    case PNoBytes(n) => [0] + EncodeUint32(n)
    case PUlongs(vs) => [1] + EncodeUint32(Truncate32(|vs|)) + EncodeUlongs(vs)
    case PNoUlongs(n) => [0] + EncodeUint32(n)
    case PAttributes(attrs) => EncodeUint32(Truncate32(|attrs|)) + EncodeAttributes(attrs)
    case PByteBuffer(nullData, nullCount, room) => [Flags(nullData, nullCount)] + EncodeUint32(room)
    case PUlongBuffer(room) => EncodeUint32(room)
    case PAttributeBuffer(wants) => EncodeUint32(Truncate32(|wants|)) + EncodeWants(wants)
  }

  function EncodeAll(ps: seq<Part>): seq<Byte> {
    if ps == [] then [] else Encode(ps[0]) + EncodeAll(ps[1..])
  }

  // ----- Decoding ---------------------------------------------------------------------------

  function DecodeUlongs(s: seq<Byte>, off: nat, n: nat): Read<seq<Ulong>>
    decreases n
  {
    if n == 0 then Got([], off)
    else match Uint64At(s, off)
         case Short => Short
         case Got(v, next) =>
           match DecodeUlongs(s, next, n - 1)
           case Short => Short
           case Got(vs, end) => Got([v] + vs, end)
  }

  function DecodeAttribute(s: seq<Byte>, off: nat): Read<Attribute> {
    match Uint32At(s, off)
    case Short => Short
    case Got(t, off1) =>
      match ByteAt(s, off1)
      case Short => Short
      case Got(valid, off2) =>
        if valid == 0 then Got(Invalid(t), off2)
        else match Uint32At(s, off2)
             case Short => Short
             case Got(n, off3) =>
               match ByteArrayAt(s, off3)
               case Short => Short
               case Got(None, end) => Got(Null(t, n), end)
               case Got(Some(v), end) => if |v| != n then Short else Got(Value(t, v), end)
  }

  function DecodeAttributes(s: seq<Byte>, off: nat, n: nat): Read<seq<Attribute>>
    decreases n
  {
    if n == 0 then Got([], off)
    else match DecodeAttribute(s, off)
         case Short => Short
         case Got(a, next) =>
           match DecodeAttributes(s, next, n - 1)
           case Short => Short
           case Got(more, end) => Got([a] + more, end)
  }

  function DecodeWant(s: seq<Byte>, off: nat): Read<Want> {
    match Uint32At(s, off)
    case Short => Short
    case Got(t, mid) => match Uint32At(s, mid) case Short => Short case Got(len, next) => Got(Want(t, len), next)
  }

  function DecodeWants(s: seq<Byte>, off: nat, n: nat): Read<seq<Want>>
    decreases n
  {
    if n == 0 then Got([], off)
    else match DecodeWant(s, off)
         case Short => Short
         case Got(w, next) =>
           match DecodeWants(s, next, n - 1)
           case Short => Short
           case Got(more, end) => Got([w] + more, end)
  }

  function DecodeByteArrayPart(s: seq<Byte>, off: nat): Read<Part> {
    match ByteAt(s, off)
    case Short => Short
    case Got(0, at) => (match Uint32At(s, at) case Short => Short case Got(n, end) => Got(PNoBytes(n), end))
    case Got(_, at) =>
      match ByteArrayAt(s, at)
      case Short => Short
      case Got(None, end) => Got(PNoBytes(0), end)
      case Got(Some(v), end) => Got(PBytes(v), end)
  }

  function DecodeUlongArrayPart(s: seq<Byte>, off: nat): Read<Part> {
    match ByteAt(s, off)
    case Short => Short
    case Got(valid, at) =>
      match Uint32At(s, at)
      case Short => Short
      case Got(n, next) =>
        if valid == 0 then Got(PNoUlongs(n), next)
        else match DecodeUlongs(s, next, n) case Short => Short case Got(vs, end) => Got(PUlongs(vs), end)
  }

  function DecodeByteBuffer(s: seq<Byte>, off: nat): Read<Part> {
    match ByteAt(s, off)
    case Short => Short
    case Got(flags, at) =>
      match Uint32At(s, at)
      case Short => Short
      case Got(room, end) => Got(PByteBuffer(flags % 2 == 1, flags / 2 % 2 == 1, room), end)
  }

  function DecodeMechanism(s: seq<Byte>, off: nat): Read<Part> {
    match Uint32At(s, off)
    case Short => Short
    case Got(mech, at) =>
      match ByteArrayAt(s, at) case Short => Short case Got(param, end) => Got(PMechanism(mech, param), end)
  }

  function DecodeVersion(s: seq<Byte>, off: nat): Read<Part> {
    match ByteAt(s, off)
    case Short => Short
    case Got(major, at) =>
      match ByteAt(s, at) case Short => Short case Got(minor, end) => Got(PVersion(major, minor), end)
  }

  function DecodeString(s: seq<Byte>, off: nat): Read<Part> {
    match ByteArrayAt(s, off)
    case Short => Short
    case Got(None, end) => Got(PString([]), end)
    case Got(Some(v), end) => Got(PString(v), end)
  }

  function Decode(k: Kind, s: seq<Byte>, off: nat): Read<Part> {
    match k
    case Y => (match ByteAt(s, off) case Short => Short case Got(b, end) => Got(PByte(b), end))
    case U => (match Uint64At(s, off) case Short => Short case Got(v, end) => Got(PUlong(v), end))
    case S => DecodeString(s, off)
    case V => DecodeVersion(s, off)
    case M => DecodeMechanism(s, off)
    case AY => DecodeByteArrayPart(s, off)
    case AU => DecodeUlongArrayPart(s, off)
    case AA =>
      (match Uint32At(s, off)
       case Short => Short
       case Got(n, at) => match DecodeAttributes(s, at, n) case Short => Short case Got(l, end) => Got(PAttributes(l), end))
    case FY => DecodeByteBuffer(s, off)
    case FU => (match Uint32At(s, off) case Short => Short case Got(n, end) => Got(PUlongBuffer(n), end))
    case FA =>
      (match Uint32At(s, off)
       case Short => Short
       case Got(n, at) => match DecodeWants(s, at, n) case Short => Short case Got(l, end) => Got(PAttributeBuffer(l), end))
  }

  function DecodeAll(ks: seq<Kind>, s: seq<Byte>, off: nat): Read<seq<Part>>
    decreases |ks|
  {
    if ks == [] then Got([], off)
    else match Decode(ks[0], s, off)
         case Short => Short
         case Got(p, next) =>
           match DecodeAll(ks[1..], s, next)
           case Short => Short
           case Got(ps, end) => Got([p] + ps, end)
  }

  // ----- Round trip -------------------------------------------------------------------------

  /** The bytes `e` lie in `s` at offset `off`. */
  predicate Holds(s: seq<Byte>, off: nat, e: seq<Byte>) {
    off + |e| <= |s| && s[off..off + |e|] == e
  }

  lemma HoldsSplit(s: seq<Byte>, off: nat, a: seq<Byte>, b: seq<Byte>)
    ensures Holds(s, off, a + b) <==> Holds(s, off, a) && Holds(s, off + |a|, b)
  {
    if off + |a| + |b| <= |s| {
      var x, y := s[off..off + |a|], s[off + |a|..off + |a| + |b|];
      assert s[off..off + |a| + |b|] == x + y;
      if a + b == x + y {
        assert a == (a + b)[..|a|] == (x + y)[..|a|] == x;
        assert b == (a + b)[|a|..] == (x + y)[|a|..] == y;
      }
    }
  }

  lemma ByteHeld(s: seq<Byte>, off: nat, b: Byte)
    requires Holds(s, off, [b])
    ensures ByteAt(s, off) == Got(b, off + 1)
  {
    assert s[off..off + 1][0] == b;
  }

  lemma Uint32Held(s: seq<Byte>, off: nat, v: Uint32)
    requires Holds(s, off, EncodeUint32(v))
    ensures Uint32At(s, off) == Got(v, off + 4)
  {
    Uint32RoundTrip(v);
  }

  lemma Uint64Held(s: seq<Byte>, off: nat, v: Ulong)
    requires Holds(s, off, EncodeUint64(v))
    ensures Uint64At(s, off) == Got(v, off + 8)
  {
    var a, b := v / 0x1_0000_0000, v % 0x1_0000_0000;
    HoldsSplit(s, off, EncodeUint32(a), EncodeUint32(b));
    Uint32Held(s, off, a);
    Uint32Held(s, off + 4, b);
  }

  lemma ByteArrayHeld(s: seq<Byte>, off: nat, val: Option<seq<Byte>>)
    requires val.Some? ==> |val.value| < ARRAY_LIMIT
    requires Holds(s, off, EncodeByteArray(val))
    ensures ByteArrayAt(s, off) == Got(val, off + |EncodeByteArray(val)|)
  {
    match val
    case None => Uint32Held(s, off, NULL_ARRAY);
    case Some(v) =>
      HoldsSplit(s, off, EncodeUint32(|v|), v);
      Uint32Held(s, off, |v|);
  }

  lemma {:induction false} UlongsHeld(s: seq<Byte>, off: nat, vs: seq<Ulong>)
    requires Holds(s, off, EncodeUlongs(vs))
    ensures DecodeUlongs(s, off, |vs|) == Got(vs, off + |EncodeUlongs(vs)|)
    decreases |vs|
  {
    hide EncodeUint64, Uint64At, Holds;
    if vs == [] {
    } else {
      HoldsSplit(s, off, EncodeUint64(vs[0]), EncodeUlongs(vs[1..]));
      Uint64Held(s, off, vs[0]);
      UlongsHeld(s, off + 8, vs[1..]);
      assert vs == [vs[0]] + vs[1..];
    }
  }

  lemma AttributeHeld(s: seq<Byte>, off: nat, a: Attribute)
    requires FitsAttribute(a) && Holds(s, off, EncodeAttribute(a))
    ensures DecodeAttribute(s, off) == Got(a, off + |EncodeAttribute(a)|)
  {
    hide EncodeUint32, EncodeByteArray, ByteAt, Uint32At, ByteArrayAt, Holds;
    var t := EncodeUint32(a.typ);
    if a.Invalid? {
      HoldsSplit(s, off, t, [0]);
      ByteHeld(s, off + 4, 0);
    } else {
      var (n, val) := if a.Null? then (a.len, None) else (|a.value|, Some(a.value));
      HoldsSplit(s, off, t + [1] + EncodeUint32(n), EncodeByteArray(val));
      HoldsSplit(s, off, t + [1], EncodeUint32(n));
      HoldsSplit(s, off, t, [1]);
      ByteHeld(s, off + 4, 1);
      Uint32Held(s, off + 5, n);
      ByteArrayHeld(s, off + 9, val);
    }
    Uint32Held(s, off, a.typ);
  }

  lemma {:induction false} AttributesHeld(s: seq<Byte>, off: nat, attrs: seq<Attribute>)
    requires AttributesFit(attrs)
    requires Holds(s, off, EncodeAttributes(attrs))
    ensures DecodeAttributes(s, off, |attrs|) == Got(attrs, off + |EncodeAttributes(attrs)|)
    decreases |attrs|
  {
    hide EncodeAttribute, DecodeAttribute, EncodeUint32;
    if attrs == [] {
    } else {
      var e := EncodeAttribute(attrs[0]);
      HoldsSplit(s, off, e, EncodeAttributes(attrs[1..]));
      AttributeHeld(s, off, attrs[0]);
      AttributesHeld(s, off + |e|, attrs[1..]);
      assert attrs == [attrs[0]] + attrs[1..];
    }
  }

  lemma {:induction false} WantsHeld(s: seq<Byte>, off: nat, wants: seq<Want>)
    requires Holds(s, off, EncodeWants(wants))
    ensures DecodeWants(s, off, |wants|) == Got(wants, off + |EncodeWants(wants)|)
    decreases |wants|
  {
    hide EncodeUint32, Uint32At, Holds;
    if wants == [] {
    } else {
      var t, n := EncodeUint32(wants[0].typ), EncodeUint32(wants[0].len);
      HoldsSplit(s, off, t + n, EncodeWants(wants[1..]));
      HoldsSplit(s, off, t, n);
      Uint32Held(s, off, wants[0].typ);
      Uint32Held(s, off + 4, wants[0].len);
      WantsHeld(s, off + 8, wants[1..]);
      assert wants == [wants[0]] + wants[1..];
    }
  }

  /** Every part is self-delimiting: wherever its encoding lies, decoding yields it and stops at its end. */
  lemma PartHeld(s: seq<Byte>, off: nat, p: Part)
    requires Fits(p) && Holds(s, off, Encode(p))
    ensures Decode(KindOf(p), s, off) == Got(p, off + |Encode(p)|)
  {
    hide EncodeUint32, EncodeUint64, EncodeByteArray, EncodeAttributes, EncodeWants, EncodeUlongs, ByteAt, Uint32At,
      Uint64At, ByteArrayAt, DecodeUlongs, DecodeAttributes, DecodeWants, Holds;
    match p
    case PByte(b) => ByteHeld(s, off, b);
    case PUlong(v) => Uint64Held(s, off, v);
    case PString(str) => ByteArrayHeld(s, off, Some(str));
    case PVersion(major, minor) =>
      assert [major, minor] == [major] + [minor];
      HoldsSplit(s, off, [major], [minor]);
      ByteHeld(s, off, major);
      ByteHeld(s, off + 1, minor);
    case PMechanism(mech, param) =>
      HoldsSplit(s, off, EncodeUint32(mech), EncodeByteArray(param));
      Uint32Held(s, off, mech);
      ByteArrayHeld(s, off + 4, param);
    case PBytes(data) =>
      HoldsSplit(s, off, [1], EncodeByteArray(Some(data)));
      ByteHeld(s, off, 1);
      ByteArrayHeld(s, off + 1, Some(data));
    case PNoBytes(n) =>
      HoldsSplit(s, off, [0], EncodeUint32(n));
      ByteHeld(s, off, 0);
      Uint32Held(s, off + 1, n);
    case PUlongs(vs) =>
      HoldsSplit(s, off, [1] + EncodeUint32(Truncate32(|vs|)), EncodeUlongs(vs));
      HoldsSplit(s, off, [1], EncodeUint32(Truncate32(|vs|)));
      ByteHeld(s, off, 1);
      Uint32Held(s, off + 1, |vs|);
      UlongsHeld(s, off + 5, vs);
    case PNoUlongs(n) =>
      HoldsSplit(s, off, [0], EncodeUint32(n));
      ByteHeld(s, off, 0);
      Uint32Held(s, off + 1, n);
    case PAttributes(attrs) =>
      HoldsSplit(s, off, EncodeUint32(Truncate32(|attrs|)), EncodeAttributes(attrs));
      Uint32Held(s, off, |attrs|);
      AttributesHeld(s, off + 4, attrs);
    case PByteBuffer(nullData, nullCount, room) =>
      HoldsSplit(s, off, [Flags(nullData, nullCount)], EncodeUint32(room));
      ByteHeld(s, off, Flags(nullData, nullCount));
      Uint32Held(s, off + 1, room);
    case PUlongBuffer(room) => Uint32Held(s, off, room);
    case PAttributeBuffer(wants) =>
      HoldsSplit(s, off, EncodeUint32(Truncate32(|wants|)), EncodeWants(wants));
      Uint32Held(s, off, |wants|);
      WantsHeld(s, off + 4, wants);
  }

  lemma {:induction false} PartsHeld(s: seq<Byte>, off: nat, ps: seq<Part>)
    requires AllFit(ps) && Holds(s, off, EncodeAll(ps))
    ensures DecodeAll(Kinds(ps), s, off) == Got(ps, off + |EncodeAll(ps)|)
    decreases |ps|
  {
    hide Encode, Decode;
    if ps == [] {
    } else {
      var e := Encode(ps[0]);
      HoldsSplit(s, off, e, EncodeAll(ps[1..]));
      PartHeld(s, off, ps[0]);
      PartsHeld(s, off + |e|, ps[1..]);
      assert ps == [ps[0]] + ps[1..] && Kinds(ps)[1..] == Kinds(ps[1..]);
    }
  }

  /** Round trip: between any prefix and any suffix the parts come back and the suffix is untouched. */
  lemma RoundTrip(pre: seq<Byte>, ps: seq<Part>, suf: seq<Byte>)
    requires AllFit(ps)
    ensures DecodeAll(Kinds(ps), pre + EncodeAll(ps) + suf, |pre|) == Got(ps, |pre| + |EncodeAll(ps)|)
  {
    PartsHeld(pre + EncodeAll(ps) + suf, |pre|, ps);
  }

  /** Unique decoding: equal byte streams with the same signature hold the same parts and the same rest. */
  lemma UniqueDecoding(ps: seq<Part>, x: seq<Byte>, qs: seq<Part>, y: seq<Byte>)
    requires AllFit(ps) && AllFit(qs) && Kinds(ps) == Kinds(qs)
    requires EncodeAll(ps) + x == EncodeAll(qs) + y
    ensures ps == qs && x == y
  {
    hide Encode, Decode, DecodeAll, EncodeAll;
    assert [] + EncodeAll(ps) + x == EncodeAll(ps) + x && [] + EncodeAll(qs) + y == EncodeAll(qs) + y;
    RoundTrip([], ps, x);
    RoundTrip([], qs, y);
    var s := EncodeAll(ps) + x;
    assert x == s[|EncodeAll(ps)|..] && y == s[|EncodeAll(qs)|..];
  }

  // ----- Whole messages ---------------------------------------------------------------------

  /** Bytes of a signature string. */
  function SignatureBytes(ks: seq<Kind>): (s: seq<Byte>)
    ensures |s| == |Codes(ks)|
  {
    seq(|Codes(ks)|, i requires 0 <= i < |Codes(ks)| => Codes(ks)[i] as int % 0x100)
  }

  /** gck_rpc_message_prep: the call id, then the signature unless it is the error pseudo-call. */
  function Header(id: int, request: bool): seq<Byte>
    requires CALL_ERROR <= id < CALL_MAX
  {
    if id == CALL_ERROR then EncodeUint32(id)
    else
      SignatureShort(id, request);
      EncodeUint32(id) + EncodeByteArray(Some(SignatureBytes(PartsOf(id, request))))
  }

  lemma {:induction false} CodesShort(ks: seq<Kind>)
    ensures |Codes(ks)| <= 2 * |ks|
  {
    if ks == [] {
    } else {
      CodesShort(ks[1..]);
    }
  }

  lemma SignatureShort(id: int, request: bool)
    requires IsCall(id)
    ensures |Codes(PartsOf(id, request))| < ARRAY_LIMIT
  {
    CodesShort(PartsOf(id, request));
  }

  /** gck_rpc_message_parse: the call id and the offset of the first part; Short for a rejected message. */
  function ParseHeader(s: seq<Byte>, request: bool): Read<int> {
    match Uint32At(s, 0)
    case Short => Short
    case Got(id, at) =>
      if id == CALL_ERROR then if request then Short else Got(id, at)
      else if id >= CALL_MAX then Short
      else match ByteArrayAt(s, at)
           case Short => Short
           case Got(sig, next) =>
             if (if sig.None? then [] else sig.value) == SignatureBytes(PartsOf(id, request)) then Got(id, next)
             else Short
  }

  /** The header written for a call is accepted, names that call, and ends where its parts begin. */
  lemma HeaderRoundTrip(id: int, request: bool, body: seq<Byte>)
    requires CALL_ERROR <= id < CALL_MAX && (request ==> id != CALL_ERROR)
    ensures ParseHeader(Header(id, request) + body, request) == Got(id, |Header(id, request)|)
  {
    var h := Header(id, request);
    var s := h + body;
    assert Holds(s, 0, h);
    hide EncodeUint32, EncodeByteArray, Uint32At, ByteArrayAt, Holds, SignatureBytes, PartsOf;
    if id == CALL_ERROR {
      Uint32Held(s, 0, id);
    } else {
      SignatureShort(id, request);
      var sig := Some(SignatureBytes(PartsOf(id, request)));
      HoldsSplit(s, 0, EncodeUint32(id), EncodeByteArray(sig));
      Uint32Held(s, 0, id);
      ByteArrayHeld(s, 4, sig);
    }
  }

  lemma Uint32Prefix(s: seq<Byte>, off: nat, v: Uint32)
    ensures Uint32At(s, off) == Got(v, off + 4) <==> Holds(s, off, EncodeUint32(v))
  {
    if off + 4 <= |s| {
      Uint32Onto(s[off..off + 4]);
      Uint32RoundTrip(v);
    }
  }

  lemma ByteArrayPrefix(s: seq<Byte>, off: nat)
    requires ByteArrayAt(s, off).Got?
    ensures Holds(s, off, EncodeByteArray(ByteArrayAt(s, off).value))
    ensures ByteArrayAt(s, off).next == off + |EncodeByteArray(ByteArrayAt(s, off).value)|
  {
    hide EncodeUint32;
    Uint32Prefix(s, off, Uint32At(s, off).value);
    match ByteArrayAt(s, off).value
    case None =>
    case Some(v) => HoldsSplit(s, off, EncodeUint32(|v|), v);
  }

  /** The text starts with a call id and its signature; for an empty signature NULL may stand. */
  predicate Starts(s: seq<Byte>, id: Uint32, sig: seq<Byte>) {
    || (|sig| < 0x7fff_ffff && EncodeUint32(id) + EncodeUint32(|sig|) + sig <= s)
    || (sig == [] && EncodeUint32(id) + [0xff, 0xff, 0xff, 0xff] <= s)
  }

  /** A message is taken for a call exactly if it starts as one of it, and for an error if it is no request. */
  lemma ParseHeaderIff(s: seq<Byte>, request: bool, id: int)
    ensures IsCall(id) ==>
      (ParseHeader(s, request) == Got(id, 8 + |Codes(PartsOf(id, request))|)
       <==> Starts(s, id, SignatureBytes(PartsOf(id, request))))
    ensures ParseHeader(s, request) == Got(0, 4) <==> !request && [0, 0, 0, 0] <= s
    ensures ParseHeader(s, request).Got? ==>
      var rid := ParseHeader(s, request).value;
      rid == 0 || (IsCall(rid) && Starts(s, rid, SignatureBytes(PartsOf(rid, request))))
  {
    var n := Uint32At(s, 0);
    Zeros(s);
    if n.Got? && IsCall(n.value) { CallHeaderIff(s, request, n.value); }
    if IsCall(id) { CallHeaderIff(s, request, id); }
    hide Uint32At, Starts, ByteArrayAt, SignatureBytes, PartsOf;
  }

  lemma Zeros(s: seq<Byte>)
    ensures Uint32At(s, 0) == Got(0, 4) <==> [0, 0, 0, 0] <= s
  {
    Uint32Prefix(s, 0, 0);
    HoldsFirst(s, [0, 0, 0, 0]);
  }

  lemma HoldsFirst(s: seq<Byte>, e: seq<Byte>)
    ensures Holds(s, 0, e) <==> e <= s
  {
  }

  lemma CallHeaderIff(s: seq<Byte>, request: bool, id: int)
    requires IsCall(id)
    ensures
      ParseHeader(s, request).Got? && ParseHeader(s, request).value == id
      <==> Starts(s, id, SignatureBytes(PartsOf(id, request)))
    ensures
      Starts(s, id, SignatureBytes(PartsOf(id, request))) ==>
      ParseHeader(s, request) == Got(id, 8 + |Codes(PartsOf(id, request))|)
  {
    var b := SignatureBytes(PartsOf(id, request));
    SignatureShort(id, request);
    SignatureIff(s, b);
    Uint32Prefix(s, 0, id);
    StartsIff(s, id, b);
    hide EncodeUint32, EncodeByteArray, Uint32At, ByteArrayAt, Holds, SignatureBytes, PartsOf, Starts;
  }

  /** The signature is read as `b`: it is there, or it is empty and NULL stands for it. */
  lemma SignatureIff(s: seq<Byte>, b: seq<Byte>)
    requires |b| < ARRAY_LIMIT
    ensures ByteArrayAt(s, 4) == Got(Some(b), 8 + |b|) <==> Holds(s, 4, EncodeUint32(|b|) + b)
    ensures ByteArrayAt(s, 4) == Got(None, 8) <==> Holds(s, 4, EncodeUint32(NULL_ARRAY))
    ensures ByteArrayAt(s, 4).Got? ==> ByteArrayAt(s, 4).next == 8 + match ByteArrayAt(s, 4).value case None => 0 case Some(v) => |v|
  {
    if ByteArrayAt(s, 4).Got? { ByteArrayPrefix(s, 4); }
    if Holds(s, 4, EncodeByteArray(Some(b))) { ByteArrayHeld(s, 4, Some(b)); }
    if Holds(s, 4, EncodeByteArray(None)) { ByteArrayHeld(s, 4, None); }
    hide ByteArrayAt, EncodeUint32, Holds;
  }

  lemma StartsIff(s: seq<Byte>, id: Uint32, b: seq<Byte>)
    requires |b| < ARRAY_LIMIT
    ensures
      Starts(s, id, b)
      <==> Holds(s, 0, EncodeUint32(id)) && (Holds(s, 4, EncodeUint32(|b|) + b) || (b == [] && Holds(s, 4, EncodeUint32(NULL_ARRAY))))
  {
    var e := EncodeUint32(id);
    assert EncodeUint32(NULL_ARRAY) == [0xff, 0xff, 0xff, 0xff];
    hide EncodeUint32, Holds;
    HoldsSplit(s, 0, e, EncodeUint32(|b|) + b);
    HoldsSplit(s, 0, e, EncodeUint32(NULL_ARRAY));
    assert e + (EncodeUint32(|b|) + b) == e + EncodeUint32(|b|) + b;
    HoldsFirst(s, e + EncodeUint32(|b|) + b);
    HoldsFirst(s, e + EncodeUint32(NULL_ARRAY));
  }

  /** C_Finalize, whose signature is empty, with NULL for it: not what the client writes, but accepted. */
  lemma NullSignature()
    ensures ParseHeader([0, 0, 0, 2, 0xff, 0xff, 0xff, 0xff], true) == Got(2, 8)
    ensures Header(2, true) == [0, 0, 0, 2, 0, 0, 0, 0]
  {
    ParseHeaderIff([0, 0, 0, 2, 0xff, 0xff, 0xff, 0xff], true, 2);
  }

  /** A message of a call: header and parts. An error reply is the call id 0 and one ulong. */
  function EncodeMessage(id: int, request: bool, ps: seq<Part>): seq<Byte>
    requires CALL_ERROR <= id < CALL_MAX
  {
    Header(id, request) + EncodeAll(ps)
  }

  function DecodeMessage(s: seq<Byte>, request: bool): Read<(int, seq<Part>)> {
    match ParseHeader(s, request)
    case Short => Short
    case Got(id, at) =>
      match DecodeAll(if id == CALL_ERROR then [U] else PartsOf(id, request), s, at)
      case Short => Short
      case Got(ps, end) => Got((id, ps), end)
  }

  /** A message whose parts spell its signature is read back exactly, to its last byte. */
  lemma MessageRoundTrip(id: int, request: bool, ps: seq<Part>)
    requires AllFit(ps)
    requires (id == CALL_ERROR && !request && Kinds(ps) == [U]) || (IsCall(id) && Kinds(ps) == PartsOf(id, request))
    ensures DecodeMessage(EncodeMessage(id, request, ps), request)
         == Got((id, ps), |EncodeMessage(id, request, ps)|)
  {
    hide Header, ParseHeader, Encode, Decode, DecodeAll, EncodeAll;
    var s := EncodeMessage(id, request, ps);
    HeaderRoundTrip(id, request, EncodeAll(ps));
    PartsHeld(s, |Header(id, request)|, ps);
  }
}
