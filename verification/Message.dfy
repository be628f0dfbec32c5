/**
  GckRpcMessage (gck-rpc-message.c, and the proto_* readers and writers of both ends): a buffer, a read
  position and a signature cursor, proved against the wire format.
 */
module Messages {
  import opened Bytes
  import opened EggBuffers
  import opened Signature
  import opened Wire
  import opened Arguments
  import opened ProxyAttributes
  import Mechanisms
  import Ckr

  class Message {
    const buffer: EggBuffer
    var callId: int
    var parsed: nat
    /** None for the error pseudo-call, which has no signature; otherwise what is left of it. */
    var sigverify: Option<string>

    ghost predicate Valid()
      reads this, buffer, buffer.buf
    {
      buffer.Valid()
    }

    ghost function Contents(): seq<Byte>
      requires Valid()
      reads this, buffer, buffer.buf
    {
      buffer.Contents()
    }

    /** The part may come next: this is what the asserts around every read and write check. */
    predicate Expects(k: Kind)
      reads this
    {
      sigverify.Some? ==> VerifyPart(sigverify.value, Code(k)).Some?
    }

    predicate IsVerified()
      reads this
    {
      sigverify.None? || sigverify.value == ""
    }

    /** The cursor has moved over part `k` and the rest of the header is as it was. */
    twostate predicate Advanced(k: Kind)
      reads this
    {
      && callId == old(callId)
      && (old(sigverify).None? ==> sigverify.None?)
      && (old(sigverify).Some? ==> sigverify == VerifyPart(old(sigverify).value, Code(k)))
    }

    /**
      The buffer is sound, its failures only grow, and unless one was added it has gained `e`. None was added
      if what was written can be written, as `fits` says, and memory does not run out.
     */
    twostate predicate Gained(e: seq<Byte>, fits: bool)
      requires old(Valid())
      reads this, buffer, buffer.buf
    {
      && Valid() && (buffer.buf == old(buffer.buf) || fresh(buffer.buf))
      && buffer.failures >= old(buffer.failures)
      && (buffer.failures == old(buffer.failures) ==> Contents() == old(Contents()) + e)
      && (buffer.Ample() && fits && |old(Contents())| + |e| <= ROOM ==> buffer.failures == old(buffer.failures))
    }

    /**
      A part was taken off the buffer at the old position, or the read failed. A reader that has to allocate
      may fail for lack of memory, even before it finds out that the message is too short, and always fails
      on a block that call_alloc refuses. With memory for the others it then takes the part.
     */
    twostate predicate Took(k: Kind, new r: Result<Part>)
      requires old(Valid())
      reads this, buffer, buffer.buf
    {
      && Valid() && buffer.buf == old(buffer.buf) && Contents() == old(Contents())
      && buffer.failures >= old(buffer.failures)
      && match Decode(k, Contents(), old(parsed))
         case Short => r == Err(Ckr.PARSE_ERROR) || (Allocates(k) && r == Err(Ckr.DEVICE_MEMORY))
         case Got(p, next) =>
           || (r == Ok(p) && Granted(p) && parsed == next && buffer.failures == old(buffer.failures))
           || (Allocates(k) && r == Err(Ckr.DEVICE_MEMORY) && !(buffer.reliable && Granted(p)))
    }

    /** The fields of a new message; NewMessage gives out only those whose buffer could be allocated. */
    constructor (reliable: bool)
      ensures Valid() && fresh(buffer) && fresh(buffer.buf) && Contents() == []
      ensures buffer.reliable == reliable && (buffer.failures == 0 ==> buffer.growable) && (reliable ==> buffer.failures == 0)
      ensures callId == CALL_ERROR && parsed == 0 && sigverify.None?
    {
      buffer := new EggBuffer(64, reliable);
      callId, parsed, sigverify := CALL_ERROR, 0, None;
    }

    method Reset()
      requires Valid()
      modifies this, buffer, buffer.buf
      ensures Valid() && buffer.buf == old(buffer.buf)
      ensures Contents() == [] && buffer.failures == 0 && callId == CALL_ERROR && parsed == 0 && sigverify.None?
    {
      callId, sigverify, parsed := CALL_ERROR, None, 0;
      buffer.Reset();
    }

    /** gck_rpc_message_prep. */
    method Prep(id: int, request: bool) returns (ok: bool)
      requires Valid() && CALL_ERROR <= id < CALL_MAX
      modifies this, buffer, buffer.buf
      ensures Valid() && (buffer.buf == old(buffer.buf) || fresh(buffer.buf))
      ensures ok <==> buffer.failures == 0
      ensures ok ==> Contents() == Header(id, request)
      ensures buffer.Ample() ==> ok
      ensures callId == id && parsed == 0
      ensures sigverify == if id == CALL_ERROR then None else Some(Codes(PartsOf(id, request)))
    {
      hide PartsOf, Codes, SignatureBytes, EncodeUint32, EncodeByteArray;
      Reset();
      if id != CALL_ERROR {
        sigverify := Some(Codes(PartsOf(id, request)));
      }
      callId := id;
      var _ := buffer.AddUint32(id);
      if id != CALL_ERROR {
        SignatureShort(id, request);
        var _ := buffer.AddByteArray(Some(SignatureBytes(PartsOf(id, request))));
      }
      parsed := 0;
      ok := !buffer.HasError();
    }

    /** gck_rpc_message_parse. */
    method Parse(request: bool) returns (ok: bool)
      requires Valid()
      modifies this, buffer`failures
      ensures Valid() && Contents() == old(Contents()) && buffer.failures >= old(buffer.failures)
      ensures
        match ParseHeader(Contents(), request)
        case Short => !ok
        case Got(id, at) =>
          && ok && parsed == at && buffer.failures == old(buffer.failures)
          && callId == (if id == CALL_ERROR then old(callId) else id)
          && sigverify == if id == CALL_ERROR then None else Some(Codes(PartsOf(id, request)))
      ensures
        match Uint32At(Contents(), 0)
        case Short => parsed == 0 && callId == old(callId) && sigverify == old(sigverify)
        case Got(id, at) =>
          if id == CALL_ERROR || id >= CALL_MAX then
            parsed == at && callId == old(callId) && sigverify.None? && buffer.failures == old(buffer.failures)
          else
            && callId == id && sigverify == Some(Codes(PartsOf(id, request)))
            && match ByteArrayAt(Contents(), at)
               case Short => buffer.failures > old(buffer.failures)
               case Got(_, next) => parsed == next && buffer.failures == old(buffer.failures)
    {
      parsed := 0;
      var id := buffer.GetUint32(0);
      if id.Short? { return false; }
      parsed := id.next;
      sigverify := None;
      if id.value == CALL_ERROR { return !request; }
      if id.value >= CALL_MAX { return false; }
      callId := id.value;
      sigverify := Some(Codes(PartsOf(id.value, request)));
      var sig := buffer.GetByteArray(parsed);
      if sig.Short? { return false; }
      parsed := sig.next;
      return (if sig.value.None? then [] else sig.value.value) == SignatureBytes(PartsOf(id.value, request));
    }

    /** gck_rpc_message_verify_part, under the assert that calls it. */
    method Verify(k: Kind)
      requires Expects(k)
      modifies this`sigverify
      ensures Advanced(k)
    {
      if sigverify.Some? { sigverify := VerifyPart(sigverify.value, Code(k)); }
    }

    // ----- Writers --------------------------------------------------------------------------

    /** A flag byte and a length word, the start of every array and byte buffer. */
    method AddFlagged(flag: Byte, word: Uint32)
      requires Valid()
      modifies buffer, buffer.buf
      ensures Gained([flag] + EncodeUint32(word), true)
    {
      hide EncodeUint32;
      var _ := buffer.AddByte(flag);
      var _ := buffer.AddUint32(word);
    }

    method WriteByte(val: Byte) returns (ok: bool)
      requires Valid() && Expects(Y)
      modifies this`sigverify, buffer, buffer.buf
      ensures Gained(Encode(PByte(val)), true) && Advanced(Y)
      ensures ok <==> buffer.failures == old(buffer.failures)
    {
      Verify(Y);
      ok := buffer.AddByte(val);
    }

    method WriteUlong(val: Ulong) returns (ok: bool)
      requires Valid() && Expects(U)
      modifies this`sigverify, buffer, buffer.buf
      ensures Gained(Encode(PUlong(val)), true) && Advanced(U)
      ensures ok <==> buffer.failures == old(buffer.failures)
    {
      Verify(U);
      ok := buffer.AddUint64(val);
    }

    method WriteSpaceString(s: seq<Byte>) returns (ok: bool)
      requires Valid() && Expects(S)
      modifies this`sigverify, buffer, buffer.buf
      ensures Gained(Encode(PString(s)), |s| < ARRAY_LIMIT) && Advanced(S)
      ensures |s| >= ARRAY_LIMIT ==> buffer.failures > old(buffer.failures)
      ensures ok <==> buffer.failures == old(buffer.failures)
    {
      Verify(S);
      ok := buffer.AddByteArray(Some(s));
    }

    method WriteVersion(major: Byte, minor: Byte) returns (ok: bool)
      requires Valid() && Expects(V)
      modifies this`sigverify, buffer, buffer.buf
      ensures Gained(Encode(PVersion(major, minor)), true) && Advanced(V)
      ensures ok <==> buffer.failures == 0
    {
      Verify(V);
      var _ := buffer.AddByte(major);
      var _ := buffer.AddByte(minor);
      ok := !buffer.HasError();
    }

    /** `room` is None where the caller's count pointer is NULL. */
    method WriteByteBuffer(nullData: bool, room: Option<Ulong>) returns (ok: bool)
      requires Valid() && Expects(FY)
      modifies this`sigverify, buffer, buffer.buf
      ensures Gained(Encode(PByteBuffer(nullData, room.None?, if room.None? then 0 else Truncate32(room.value))), true) && Advanced(FY)
      ensures ok <==> buffer.failures == 0
    {
      hide EncodeUint32, VerifyPart;
      Verify(FY);
      AddFlagged(Flags(nullData, room.None?), if room.None? then 0 else Truncate32(room.value));
      ok := !buffer.HasError();
    }

    /** A NULL array is sent as its length alone. */
    method WriteByteArray(arr: Option<seq<Byte>>, num: Ulong) returns (ok: bool)
      requires Valid() && Expects(AY) && (arr.Some? ==> |arr.value| == num)
      modifies this`sigverify, buffer, buffer.buf
      ensures arr.None? ==> Gained(Encode(PNoBytes(Truncate32(num))), true)
      ensures arr.Some? ==> Gained(Encode(PBytes(arr.value)), num < ARRAY_LIMIT)
      ensures arr.Some? && num >= ARRAY_LIMIT ==> buffer.failures > old(buffer.failures)
      ensures Advanced(AY) && (ok <==> buffer.failures == 0)
    {
      ByteArrayForm(arr, num);
      hide EncodeUint32, EncodeByteArray, VerifyPart, Encode;
      Verify(AY);
      if arr.None? {
        AddFlagged(0, Truncate32(num));
      } else {
        var _ := buffer.AddByte(1);
        var _ := buffer.AddByteArray(arr);
      }
      ok := !buffer.HasError();
    }

    method WriteUlongBuffer(count: Ulong) returns (ok: bool)
      requires Valid() && Expects(FU)
      modifies this`sigverify, buffer, buffer.buf
      ensures Gained(Encode(PUlongBuffer(Truncate32(count))), true) && Advanced(FU)
      ensures ok <==> buffer.failures == old(buffer.failures)
    {
      Verify(FU);
      ok := buffer.AddUint32(Truncate32(count));
    }

    /** A mechanism and the parameter sent with it. */
    method AddMechanism(mech: Uint32, param: Option<seq<Byte>>)
      requires Valid()
      modifies buffer, buffer.buf
      ensures Gained(EncodeUint32(mech) + EncodeByteArray(param), param.Some? ==> |param.value| < ARRAY_LIMIT)
      ensures param.Some? && |param.value| >= ARRAY_LIMIT ==> buffer.failures > old(buffer.failures)
    {
      hide EncodeUint32, EncodeByteArray;
      var _ := buffer.AddUint32(mech);
      var _ := buffer.AddByteArray(param);
    }

    /** proto_write_mechanism: a parameter is sent only for mechanisms known to have a plain one. */
    method WriteMechanism(mech: Ulong, param: Option<seq<Byte>>) returns (rv: Ulong)
      requires Valid() && Expects(M)
      modifies this`sigverify, buffer, buffer.buf
      ensures !Mechanisms.IsSupported(mech) ==> rv == Ckr.MECHANISM_INVALID && Gained(EncodeUint32(Truncate32(mech)), true)
      ensures Mechanisms.HasNoParameters(mech) ==> Gained(Encode(PMechanism(Truncate32(mech), None)), true)
      ensures !Mechanisms.HasNoParameters(mech) && Mechanisms.HasSaneParameters(mech) ==>
        && Gained(Encode(PMechanism(Truncate32(mech), param)), param.Some? ==> |param.value| < ARRAY_LIMIT)
        && (param.Some? && |param.value| >= ARRAY_LIMIT ==> buffer.failures > old(buffer.failures))
      ensures Mechanisms.IsSupported(mech) ==> rv == if buffer.failures > 0 then Ckr.HOST_MEMORY else Ckr.OK
      ensures Advanced(M)
    {
      hide EncodeUint32, EncodeByteArray, VerifyPart, Mechanisms.HasNoParameters, Mechanisms.HasSaneParameters;
      Verify(M);
      if Mechanisms.HasNoParameters(mech) {
        AddMechanism(Truncate32(mech), None);
      } else if Mechanisms.HasSaneParameters(mech) {
        AddMechanism(Truncate32(mech), param);
      } else {
        var _ := buffer.AddUint32(Truncate32(mech));
        return Ckr.MECHANISM_INVALID;
      }
      rv := if buffer.HasError() then Ckr.HOST_MEMORY else Ckr.OK;
    }

    /** The entries of a ulong array; the loop goes on after a failed add. */
    method WriteUlongs(vs: seq<Ulong>)
      requires Valid()
      modifies buffer, buffer.buf
      ensures Gained(EncodeUlongs(vs), true)
    {
      hide EncodeUint64;
      var i := 0;
      assert vs[..0] == [] && EncodeUlongs(vs[..0]) == [];
      while i < |vs|
        invariant 0 <= i <= |vs|
        invariant Gained(EncodeUlongs(vs[..i]), true)
      {
        UlongsAppend(vs[..i], vs[i]);
        assert vs[..i + 1] == vs[..i] + [vs[i]];
        var _ := buffer.AddUint64(vs[i]);
        i := i + 1;
      }
      assert vs[..i] == vs;
    }

    method WriteUlongArray(arr: Option<seq<Ulong>>, n: Ulong) returns (ok: bool)
      requires Valid() && Expects(AU) && (arr.Some? ==> |arr.value| == n)
      modifies this`sigverify, buffer, buffer.buf
      ensures arr.None? ==> Gained(Encode(PNoUlongs(Truncate32(n))), true)
      ensures arr.Some? ==> Gained(Encode(PUlongs(arr.value)), true)
      ensures Advanced(AU) && (ok <==> buffer.failures == 0)
    {
      UlongArrayForm(arr, n);
      hide EncodeUint32, EncodeUlongs, VerifyPart, Encode;
      Verify(AU);
      if arr.None? {
        AddFlagged(0, Truncate32(n));
      } else {
        ghost var before := Contents();
        AddFlagged(1, Truncate32(n));
        WriteUlongs(arr.value);
        Assoc(before, [1] + EncodeUint32(Truncate32(n)), EncodeUlongs(arr.value));
      }
      ok := !buffer.HasError();
    }

    method AddPair(a: Uint32, b: Uint32)
      requires Valid()
      modifies buffer, buffer.buf
      ensures Gained(EncodeUint32(a) + EncodeUint32(b), true)
    {
      hide EncodeUint32;
      var _ := buffer.AddUint32(a);
      var _ := buffer.AddUint32(b);
    }

    /** The entries of an attribute buffer: type and room, no room for a NULL value. */
    method WriteWants(arr: seq<CkAttribute>)
      requires Valid()
      modifies buffer, buffer.buf
      ensures Gained(EncodeWants(WantsOf(arr)), true)
    {
      hide EncodeUint32;
      ghost var ws := WantsOf(arr);
      var i := 0;
      assert ws[..0] == [];
      while i < |arr|
        invariant 0 <= i <= |arr|
        invariant Gained(EncodeWants(ws[..i]), true)
      {
        WantsAppend(ws[..i], ws[i]);
        assert ws[..i + 1] == ws[..i] + [ws[i]];
        AddPair(Truncate32(arr[i].typ), if arr[i].block.Some? then Truncate32(arr[i].len) else 0);
        i := i + 1;
      }
      assert ws[..i] == ws;
    }

    method WriteAttributeBuffer(arr: seq<CkAttribute>) returns (ok: bool)
      requires Valid() && Expects(FA)
      modifies this`sigverify, buffer, buffer.buf
      ensures Gained(Encode(PAttributeBuffer(WantsOf(arr))), true) && Advanced(FA)
      ensures ok <==> buffer.failures == 0
    {
      AttributeBufferForm(arr);
      hide EncodeUint32, EncodeWants, WantsOf, VerifyPart, Encode;
      Verify(FA);
      ghost var before := Contents();
      var _ := buffer.AddUint32(Truncate32(|arr|));
      WriteWants(arr);
      Assoc(before, EncodeUint32(Truncate32(|arr|)), EncodeWants(WantsOf(arr)));
      ok := !buffer.HasError();
    }

    method AddTyped(typ: Uint32, valid: Byte)
      requires Valid()
      modifies buffer, buffer.buf
      ensures Gained(EncodeUint32(typ) + [valid], true)
    {
      hide EncodeUint32;
      var _ := buffer.AddUint32(typ);
      var _ := buffer.AddByte(valid);
    }

    /** Length and value of a valid attribute; one that is too long for the wire is a failure. */
    method WriteValue(a: CkAttribute)
      requires Valid() && Readable(a) && a.len != UNAVAILABLE
      modifies buffer, buffer.buf
      ensures Gained(ValueBytes(ToWire(a)), FitsAttribute(ToWire(a)))
      ensures !FitsAttribute(ToWire(a)) ==> buffer.failures > old(buffer.failures)
    {
      hide EncodeUint32, EncodeByteArray;
      var _ := buffer.AddUint32(Truncate32(a.len));
      var _ := buffer.AddByteArray(if a.block.None? then None else Some(a.block.value[..a.len]));
    }

    /** One attribute of an attribute array: type, validity and, if valid, length and value. */
    method WriteAttribute(a: CkAttribute)
      requires Valid() && Readable(a)
      modifies buffer, buffer.buf
      ensures Gained(EncodeAttribute(ToWire(a)), FitsAttribute(ToWire(a)))
      ensures !FitsAttribute(ToWire(a)) ==> buffer.failures > old(buffer.failures)
    {
      AttributeForm(ToWire(a));
      hide EncodeUint32, EncodeAttribute, ValueBytes;
      AddTyped(Truncate32(a.typ), if a.len == UNAVAILABLE then 0 else 1);
      if a.len != UNAVAILABLE {
        WriteValue(a);
      }
    }

    /** One more attribute, after those whose encoding is `e`. */
    method WriteNext(a: CkAttribute, ghost before: seq<Byte>, ghost e: seq<Byte>, ghost failed: nat)
      requires Valid() && Readable(a) && failed <= buffer.failures
      requires buffer.failures == failed ==> Contents() == before + e
      modifies buffer, buffer.buf
      ensures Valid() && (buffer.buf == old(buffer.buf) || fresh(buffer.buf)) && old(buffer.failures) <= buffer.failures
      ensures buffer.failures == failed ==> Contents() == before + (e + EncodeAttribute(ToWire(a)))
      ensures !FitsAttribute(ToWire(a)) ==> failed < buffer.failures
      ensures
        && buffer.Ample() && FitsAttribute(ToWire(a)) && old(buffer.failures) == failed
        && |before| + |e| + |EncodeAttribute(ToWire(a))| <= ROOM
        ==> buffer.failures == failed
    {
      hide EncodeAttribute, ToWire, FitsAttribute;
      Assoc(before, e, EncodeAttribute(ToWire(a)));
      WriteAttribute(a);
    }

    /** The loop of gck_rpc_message_write_attribute_array; any attribute `k` that is too long is a failure. */
    method WriteAttributes(arr: seq<CkAttribute>, ghost k: nat)
      requires Valid() && forall i | 0 <= i < |arr| :: Readable(arr[i])
      modifies buffer, buffer.buf
      ensures Gained(EncodeAttributes(ToWireAll(arr)), AttributesFit(ToWireAll(arr)))
      ensures k < |arr| && !FitsAttribute(ToWire(arr[k])) ==> buffer.failures > old(buffer.failures)
    {
      ghost var ws, before, failed, fits := ToWireAll(arr), Contents(), buffer.failures, true;
      assert ws[..0] == [] && EncodeAttributes([]) == [];
      hide EncodeAttributes, EncodeAttribute, ToWire, FitsAttribute, Readable;
      var i := 0;
      while i < |arr|
        invariant 0 <= i <= |arr|
        invariant Valid() && (buffer.buf == old(buffer.buf) || fresh(buffer.buf)) && failed <= buffer.failures
        invariant buffer.failures == failed ==> Contents() == before + EncodeAttributes(ws[..i])
        invariant k < i && !FitsAttribute(ws[k]) ==> failed < buffer.failures
        invariant AttributesFit(ws) ==> fits
        invariant buffer.Ample() && fits && |before| + |EncodeAttributes(ws[..i])| <= ROOM ==> buffer.failures == failed
      {
        assert ws[..i + 1] == ws[..i] + [ws[i]];
        AttributesAppend(ws[..i], ws[i]);
        fits := fits && FitsAttribute(ws[i]);
        WriteNext(arr[i], before, EncodeAttributes(ws[..i]), failed);
        assert k < i && !FitsAttribute(ws[k]) ==> failed < buffer.failures;
        assert k == i && !FitsAttribute(ws[k]) ==> failed < buffer.failures;
        i := i + 1;
      }
      assert ws[..i] == ws;
    }

    method WriteAttributeArray(arr: seq<CkAttribute>) returns (ok: bool)
      requires Valid() && Expects(AA) && forall i | 0 <= i < |arr| :: Readable(arr[i])
      modifies this`sigverify, buffer, buffer.buf
      ensures Gained(Encode(PAttributes(ToWireAll(arr))), AttributesFit(ToWireAll(arr)))
      ensures buffer.failures == old(buffer.failures) ==> AttributesFit(ToWireAll(arr))
      ensures Advanced(AA) && (ok <==> buffer.failures == 0)
    {
      hide EncodeUint32, EncodeAttributes, VerifyPart, ToWire, FitsAttribute;
      Verify(AA);
      var _ := buffer.AddUint32(Truncate32(|arr|));
      ghost var k := 0;
      if j :| 0 <= j < |arr| && !FitsAttribute(ToWireAll(arr)[j]) { k := j; }
      WriteAttributes(arr, k);
      ok := !buffer.HasError();
    }

    // ----- Readers --------------------------------------------------------------------------

    method ReadByte() returns (r: Result<Part>)
      requires Valid() && Expects(Y)
      modifies this, buffer`failures
      ensures Took(Y, r) && Advanced(Y)
    {
      Verify(Y);
      var b := buffer.GetByte(parsed);
      if b.Short? { return Err(Ckr.PARSE_ERROR); }
      parsed := b.next;
      return Ok(PByte(b.value));
    }

    method ReadUlong() returns (r: Result<Part>)
      requires Valid() && Expects(U)
      modifies this, buffer`failures
      ensures Took(U, r) && Advanced(U)
    {
      Verify(U);
      var v := buffer.GetUint64(parsed);
      if v.Short? { return Err(Ckr.PARSE_ERROR); }
      parsed := v.next;
      return Ok(PUlong(v.value));
    }

    /** gck_rpc_message_read_space_string: the client insists on the length it expects. */
    method ReadFixedString(length: nat) returns (r: Option<seq<Byte>>)
      requires Valid() && Expects(S)
      modifies this, buffer`failures
      ensures Valid() && Contents() == old(Contents()) && Advanced(S)
      ensures
        match Decode(S, Contents(), old(parsed))
        case Short => r.None?
        case Got(p, next) => parsed == next && r == if |p.s| == length then Some(p.s) else None
    {
      Verify(S);
      var v := buffer.GetByteArray(parsed);
      if v.Short? { return None; }
      parsed := v.next;
      var s := if v.value.None? then [] else v.value.value;
      r := if |s| == length then Some(s) else None;
    }

    /** proto_read_space_string on the daemon: any length, copied into a block of its own. */
    method ReadSpaceString() returns (r: Result<Part>)
      requires Valid() && Expects(S)
      modifies this, buffer`failures
      ensures Took(S, r) && Advanced(S)
    {
      Verify(S);
      var v := buffer.GetByteArray(parsed);
      if v.Short? { return Err(Ckr.PARSE_ERROR); }
      parsed := v.next;
      var s := if v.value.None? then [] else v.value.value;
      var block := CallAlloc(|s|, buffer.reliable);
      r := if block then Ok(PString(s)) else Err(Ckr.DEVICE_MEMORY);
    }

    method ReadVersion() returns (r: Result<Part>)
      requires Valid() && Expects(V)
      modifies this, buffer`failures
      ensures Took(V, r) && Advanced(V)
    {
      Verify(V);
      var major := buffer.GetByte(parsed);
      if major.Short? { return Err(Ckr.PARSE_ERROR); }
      parsed := major.next;
      var minor := buffer.GetByte(parsed);
      if minor.Short? { return Err(Ckr.PARSE_ERROR); }
      parsed := minor.next;
      return Ok(PVersion(major.value, minor.value));
    }

    method ReadByteBuffer() returns (r: Result<Part>)
      requires Valid() && Expects(FY)
      modifies this, buffer`failures
      ensures Took(FY, r) && Advanced(FY)
    {
      Verify(FY);
      var flags := buffer.GetByte(parsed);
      if flags.Short? { return Err(Ckr.PARSE_ERROR); }
      parsed := flags.next;
      var n := buffer.GetUint32(parsed);
      if n.Short? { return Err(Ckr.PARSE_ERROR); }
      parsed := n.next;
      var nullData := flags.value % 2 == 1;
      if !nullData {
        var block := CallAlloc(n.value, buffer.reliable);
        if !block { return Err(Ckr.DEVICE_MEMORY); }
      }
      return Ok(PByteBuffer(nullData, flags.value / 2 % 2 == 1, n.value));
    }

    method ReadByteArray() returns (r: Result<Part>)
      requires Valid() && Expects(AY)
      modifies this, buffer`failures
      ensures Took(AY, r) && Advanced(AY)
    {
      Verify(AY);
      var valid := buffer.GetByte(parsed);
      if valid.Short? { return Err(Ckr.PARSE_ERROR); }
      parsed := valid.next;
      if valid.value == 0 {
        var n := buffer.GetUint32(parsed);
        if n.Short? { return Err(Ckr.PARSE_ERROR); }
        parsed := n.next;
        return Ok(PNoBytes(n.value));
      }
      var v := buffer.GetByteArray(parsed);
      if v.Short? { return Err(Ckr.PARSE_ERROR); }
      parsed := v.next;
      return Ok(if v.value.None? then PNoBytes(0) else PBytes(v.value.value));
    }

    method ReadUlongBuffer() returns (r: Result<Part>)
      requires Valid() && Expects(FU)
      modifies this, buffer`failures
      ensures Took(FU, r) && Advanced(FU)
    {
      Verify(FU);
      var n := buffer.GetUint32(parsed);
      if n.Short? { return Err(Ckr.PARSE_ERROR); }
      parsed := n.next;
      if n.value != 0 {
        var block := CallAlloc(n.value as int * 8, buffer.reliable);
        if !block { return Err(Ckr.DEVICE_MEMORY); }
      }
      return Ok(PUlongBuffer(n.value));
    }

    method ReadMechanism() returns (r: Result<Part>)
      requires Valid() && Expects(M)
      modifies this, buffer`failures
      ensures Took(M, r) && Advanced(M)
    {
      Verify(M);
      var mech := buffer.GetUint32(parsed);
      if mech.Short? { return Err(Ckr.PARSE_ERROR); }
      parsed := mech.next;
      var v := buffer.GetByteArray(parsed);
      if v.Short? { return Err(Ckr.PARSE_ERROR); }
      parsed := v.next;
      return Ok(PMechanism(mech.value, v.value));
    }

    /** A list was taken off the buffer at the old position, or the read failed. */
    twostate predicate TookList<T(!new)>(new expected: Read<seq<T>>, new r: Option<seq<T>>)
      requires old(Valid())
      reads this, buffer, buffer.buf
    {
      && Valid() && buffer.buf == old(buffer.buf) && Contents() == old(Contents())
      && callId == old(callId) && sigverify == old(sigverify)
      && buffer.failures >= old(buffer.failures)
      && match expected
         case Short => r.None?
         case Got(l, next) => r == Some(l) && parsed == next && buffer.failures == old(buffer.failures)
    }

    /** One entry of an attribute buffer and the block for its value. */
    method ReadWant() returns (r: Result<Want>)
      requires Valid()
      modifies this`parsed, buffer`failures
      ensures Valid() && Contents() == old(Contents()) && buffer.failures >= old(buffer.failures)
      ensures
        match DecodeWant(Contents(), old(parsed))
        case Short => r == Err(Ckr.PARSE_ERROR)
        case Got(w, next) =>
          || (r == Err(Ckr.DEVICE_MEMORY) && !(buffer.reliable && Allocatable(w.len)))
          || (r == Ok(w) && Allocatable(w.len) && parsed == next && buffer.failures == old(buffer.failures))
    {
      hide Uint32At;
      var t := buffer.GetUint32(parsed);
      if t.Short? { return Err(Ckr.PARSE_ERROR); }
      parsed := t.next;
      var len := buffer.GetUint32(parsed);
      if len.Short? { return Err(Ckr.PARSE_ERROR); }
      parsed := len.next;
      if len.value != 0 {
        var block := CallAlloc(len.value, buffer.reliable);
        if !block { return Err(Ckr.DEVICE_MEMORY); }
      }
      r := Ok(Want(t.value, len.value));
    }

    /** The loop of proto_read_attribute_buffer. */
    method ReadWants(n: nat) returns (r: Result<seq<Want>>)
      requires Valid()
      modifies this`parsed, buffer`failures
      ensures Valid() && Contents() == old(Contents()) && buffer.failures >= old(buffer.failures)
      ensures
        match DecodeWants(Contents(), old(parsed), n)
        case Short => r == Err(Ckr.PARSE_ERROR) || r == Err(Ckr.DEVICE_MEMORY)
        case Got(ws, next) =>
          || (r == Err(Ckr.DEVICE_MEMORY) && !(buffer.reliable && forall w <- ws :: Allocatable(w.len)))
          || (r == Ok(ws) && |ws| == n && (forall w <- ws :: Allocatable(w.len)) && parsed == next && buffer.failures == old(buffer.failures))
    {
      var ws: seq<Want> := [];
      var i := 0;
      PrefixedNone(DecodeWants(Contents(), parsed, n));
      hide DecodeWant;
      while i < n
        invariant 0 <= i <= n && |ws| == i && Valid() && Contents() == old(Contents()) && buffer.failures == old(buffer.failures)
        invariant forall w <- ws :: Allocatable(w.len)
        invariant DecodeWants(Contents(), old(parsed), n) == Prefixed(ws, DecodeWants(Contents(), parsed, n - i))
      {
        ghost var more := DecodeWants(Contents(), parsed, n - i);
        var w := ReadWant();
        if w.Err? { return Err(w.rv); }
        ghost var rest := DecodeWants(Contents(), parsed, n - i - 1);
        assert more == Prefixed([w.value], rest);
        PrefixedTwice(ws, [w.value], rest);
        ws := ws + [w.value];
        i := i + 1;
      }
      assert ws + [] == ws;
      r := Ok(ws);
    }

    /** proto_read_attribute_buffer: the memory for the entries is asked for before they are read. */
    method ReadAttributeBuffer() returns (r: Result<Part>)
      requires Valid() && Expects(FA)
      modifies this, buffer`failures
      ensures Took(FA, r) && Advanced(FA)
    {
      hide DecodeWants, Uint32At;
      Verify(FA);
      var n := buffer.GetUint32(parsed);
      if n.Short? { return Err(Ckr.PARSE_ERROR); }
      parsed := n.next;
      WantCount(Contents(), parsed, n.value);
      var block := CallAlloc(n.value as int * 24, buffer.reliable);
      if !block { return Err(Ckr.DEVICE_MEMORY); }
      var ws := ReadWants(n.value);
      r := if ws.Err? then Err(ws.rv) else Ok(PAttributeBuffer(ws.value));
    }

    /** The loop of proto_read_ulong_array, for a list that fits. */
    method ReadUlongs(n: nat) returns (r: Option<seq<Ulong>>)
      requires Valid()
      modifies this, buffer`failures
      ensures TookList(DecodeUlongs(Contents(), old(parsed), n), r)
    {
      var vs := [];
      var i := 0;
      PrefixedNone(DecodeUlongs(Contents(), parsed, n));
      while i < n
        invariant 0 <= i <= n && Valid() && Contents() == old(Contents()) && buffer.failures == old(buffer.failures)
        invariant callId == old(callId) && sigverify == old(sigverify)
        invariant DecodeUlongs(Contents(), old(parsed), n) == Prefixed(vs, DecodeUlongs(Contents(), parsed, n - i))
      {
        ghost var more := DecodeUlongs(Contents(), parsed, n - i);
        var v := buffer.GetUint64(parsed);
        if v.Short? { return None; }
        parsed := v.next;
        assert more == Prefixed([v.value], DecodeUlongs(Contents(), parsed, n - i - 1));
        PrefixedTwice(vs, [v.value], DecodeUlongs(Contents(), parsed, n - i - 1));
        vs := vs + [v.value];
        i := i + 1;
      }
      assert vs + [] == vs;
      return Some(vs);
    }

    method ReadUlongArray() returns (r: Result<Part>)
      requires Valid() && Expects(AU)
      modifies this, buffer`failures
      ensures Took(AU, r) && Advanced(AU)
    {
      hide DecodeUlongs, Uint32At, ByteAt;
      Verify(AU);
      var valid := buffer.GetByte(parsed);
      if valid.Short? { return Err(Ckr.PARSE_ERROR); }
      parsed := valid.next;
      var n := buffer.GetUint32(parsed);
      if n.Short? { return Err(Ckr.PARSE_ERROR); }
      parsed := n.next;
      if valid.value == 0 { return Ok(PNoUlongs(n.value)); }
      var vs := ReadUlongs(n.value);
      return if vs.None? then Err(Ckr.PARSE_ERROR) else Ok(PUlongs(vs.value));
    }

    /** One attribute; a value whose length differs from the announced one is refused. */
    method ReadAttribute() returns (r: Option<Attribute>)
      requires Valid()
      modifies this, buffer`failures
      ensures Valid() && Contents() == old(Contents()) && buffer.failures >= old(buffer.failures)
      ensures callId == old(callId) && sigverify == old(sigverify)
      ensures
        match DecodeAttribute(Contents(), old(parsed))
        case Short => r.None?
        case Got(a, next) => r == Some(a) && parsed == next && buffer.failures == old(buffer.failures)
    {
      hide Uint32At, ByteAt, ByteArrayAt;
      var t := buffer.GetUint32(parsed);
      if t.Short? { return None; }
      parsed := t.next;
      var valid := buffer.GetByte(parsed);
      if valid.Short? { return None; }
      parsed := valid.next;
      if valid.value == 0 { return Some(Invalid(t.value)); }
      var n := buffer.GetUint32(parsed);
      if n.Short? { return None; }
      parsed := n.next;
      var v := buffer.GetByteArray(parsed);
      if v.Short? { return None; }
      parsed := v.next;
      if v.value.None? { return Some(Null(t.value, n.value)); }
      if |v.value.value| != n.value { return None; }
      return Some(Value(t.value, v.value.value));
    }

    /** The loop of proto_read_attribute_array on the daemon. */
    method ReadAttributes(n: nat) returns (r: Option<seq<Attribute>>)
      requires Valid()
      modifies this, buffer`failures
      ensures TookList(DecodeAttributes(Contents(), old(parsed), n), r)
    {
      hide DecodeAttribute;
      var l := [];
      var i := 0;
      PrefixedNone(DecodeAttributes(Contents(), parsed, n));
      while i < n
        invariant 0 <= i <= n && Valid() && Contents() == old(Contents()) && buffer.failures == old(buffer.failures)
        invariant callId == old(callId) && sigverify == old(sigverify)
        invariant DecodeAttributes(Contents(), old(parsed), n) == Prefixed(l, DecodeAttributes(Contents(), parsed, n - i))
      {
        ghost var more := DecodeAttributes(Contents(), parsed, n - i);
        var a := ReadAttribute();
        if a.None? { return None; }
        assert more == Prefixed([a.value], DecodeAttributes(Contents(), parsed, n - i - 1));
        PrefixedTwice(l, [a.value], DecodeAttributes(Contents(), parsed, n - i - 1));
        l := l + [a.value];
        i := i + 1;
      }
      assert l + [] == l;
      return Some(l);
    }

    /** proto_read_attribute_array on the daemon: the memory for the entries is asked for before they are read. */
    method ReadAttributeArray() returns (r: Result<Part>)
      requires Valid() && Expects(AA)
      modifies this, buffer`failures
      ensures Took(AA, r) && Advanced(AA)
    {
      hide DecodeAttributes, Uint32At;
      Verify(AA);
      var n := buffer.GetUint32(parsed);
      if n.Short? { return Err(Ckr.PARSE_ERROR); }
      parsed := n.next;
      AttributeCount(Contents(), parsed, n.value);
      if n.value != 0 {
        var block := CallAlloc(n.value as int * 24, buffer.reliable);
        if !block { return Err(Ckr.DEVICE_MEMORY); }
      }
      var l := ReadAttributes(n.value);
      r := if l.None? then Err(Ckr.PARSE_ERROR) else Ok(PAttributes(l.value));
    }
  }

  /** gck_rpc_message_new: an empty message, or NULL. */
  method NewMessage(reliable: bool) returns (msg: Message?)
    ensures reliable ==> msg != null
    ensures msg != null ==> msg.buffer.growable && msg.buffer.reliable == reliable
    ensures msg != null ==>
      && fresh(msg) && fresh(msg.buffer) && fresh(msg.buffer.buf) && msg.Valid() && msg.Contents() == []
      && msg.buffer.failures == 0 && msg.callId == CALL_ERROR && msg.parsed == 0 && msg.sigverify.None?
  {
    var denied: bool := *;
    if denied && !reliable { return null; }
    var m := new Message(reliable);
    msg := if m.buffer.HasError() then null else m;
  }

  /** The readers that call call_alloc. */
  predicate Allocates(k: Kind) {
    k == S || k == AA || k == FY || k == FU || k == FA
  }

  /** call_alloc: nothing for a block that is too large and, if malloc is not reliable, perhaps nothing for any other. */
  method CallAlloc(length: nat, reliable: bool) returns (granted: bool)
    ensures granted ==> length <= 0x7fff_ffff
    ensures reliable && length <= 0x7fff_ffff ==> granted
  {
    var denied: bool := *;
    granted := Allocatable(length) && (reliable || !denied);
  }

  lemma {:induction false} WantCount(s: seq<Byte>, off: nat, n: nat)
    ensures DecodeWants(s, off, n).Got? ==> |DecodeWants(s, off, n).value| == n
    decreases n
  {
    hide DecodeWant;
    if n == 0 {
    } else if DecodeWant(s, off).Got? {
      WantCount(s, DecodeWant(s, off).next, n - 1);
    }
  }

  lemma {:induction false} AttributeCount(s: seq<Byte>, off: nat, n: nat)
    ensures DecodeAttributes(s, off, n).Got? ==> |DecodeAttributes(s, off, n).value| == n
    decreases n
  {
    hide DecodeAttribute;
    if n == 0 {
    } else if DecodeAttribute(s, off).Got? {
      AttributeCount(s, DecodeAttribute(s, off).next, n - 1);
    }
  }

  /** A list read, after entries already read. */
  function Prefixed<T>(l: seq<T>, more: Read<seq<T>>): Read<seq<T>> {
    match more
    case Short => Short
    case Got(rest, next) => Got(l + rest, next)
  }

  lemma PrefixedNone<T>(more: Read<seq<T>>)
    ensures Prefixed([], more) == more
  {
    if more.Got? { assert [] + more.value == more.value; }
  }

  lemma PrefixedTwice<T>(a: seq<T>, b: seq<T>, more: Read<seq<T>>)
    ensures Prefixed(a, Prefixed(b, more)) == Prefixed(a + b, more)
  {
    if more.Got? { assert a + (b + more.value) == a + b + more.value; }
  }

  /** A value that is sent lies within its memory block. */
  predicate Readable(a: CkAttribute) {
    a.block.Some? && a.len != UNAVAILABLE ==> a.len <= |a.block.value|
  }

  lemma Assoc(a: seq<Byte>, b: seq<Byte>, c: seq<Byte>)
    ensures a + b + c == a + (b + c)
  {
  }

  /** What follows the validity byte. */
  function ValueBytes(w: Attribute): seq<Byte> {
    match w
    case Invalid(_) => []
    case Null(_, n) => EncodeUint32(n) + EncodeByteArray(None)
    case Value(_, v) => EncodeUint32(Truncate32(|v|)) + EncodeByteArray(Some(v))
  }

  lemma AttributeForm(w: Attribute)
    ensures EncodeAttribute(w) == EncodeUint32(w.typ) + [if w.Invalid? then 0 else 1] + ValueBytes(w)
    ensures w.Invalid? ==> EncodeAttribute(w) == EncodeUint32(w.typ) + [0]
  {
    hide EncodeUint32, EncodeByteArray;
    if w.Null? {
      assert EncodeUint32(w.typ) + [1] + EncodeUint32(w.len) + EncodeByteArray(None)
          == EncodeUint32(w.typ) + [1] + (EncodeUint32(w.len) + EncodeByteArray(None));
    } else if w.Value? {
      assert EncodeUint32(w.typ) + [1] + EncodeUint32(Truncate32(|w.value|)) + EncodeByteArray(Some(w.value))
          == EncodeUint32(w.typ) + [1] + (EncodeUint32(Truncate32(|w.value|)) + EncodeByteArray(Some(w.value)));
    }
  }

  lemma {:induction false} AttributesAppend(ws: seq<Attribute>, w: Attribute)
    ensures EncodeAttributes(ws + [w]) == EncodeAttributes(ws) + EncodeAttribute(w)
  {
    hide EncodeAttribute;
    if ws == [] {
      assert ws + [w] == [w] && EncodeAttributes([w]) == EncodeAttribute(w) + EncodeAttributes([]);
    } else {
      assert (ws + [w])[1..] == ws[1..] + [w];
      AttributesAppend(ws[1..], w);
    }
  }

  lemma ByteArrayForm(arr: Option<seq<Byte>>, num: Ulong)
    ensures Encode(PNoBytes(Truncate32(num))) == [0] + EncodeUint32(Truncate32(num))
    ensures arr.Some? ==> Encode(PBytes(arr.value)) == [1] + EncodeByteArray(arr)
  {
  }

  lemma AttributeBufferForm(arr: seq<CkAttribute>)
    ensures Encode(PAttributeBuffer(WantsOf(arr))) == EncodeUint32(Truncate32(|arr|)) + EncodeWants(WantsOf(arr))
  {
  }

  lemma UlongArrayForm(arr: Option<seq<Ulong>>, n: Ulong)
    requires arr.Some? ==> |arr.value| == n
    ensures arr.None? ==> Encode(PNoUlongs(Truncate32(n))) == [0] + EncodeUint32(Truncate32(n))
    ensures arr.Some? ==> Encode(PUlongs(arr.value)) == [1] + EncodeUint32(Truncate32(n)) + EncodeUlongs(arr.value)
  {
  }

  lemma {:induction false} UlongsAppend(vs: seq<Ulong>, v: Ulong)
    ensures EncodeUlongs(vs + [v]) == EncodeUlongs(vs) + EncodeUint64(v)
  {
    hide EncodeUint64;
    if vs == [] {
      assert vs + [v] == [v] && EncodeUlongs([v]) == EncodeUint64(v) + EncodeUlongs([]);
    } else {
      assert (vs + [v])[1..] == vs[1..] + [v];
      UlongsAppend(vs[1..], v);
    }
  }

  lemma {:induction false} WantsAppend(ws: seq<Want>, w: Want)
    ensures EncodeWants(ws + [w]) == EncodeWants(ws) + (EncodeUint32(w.typ) + EncodeUint32(w.len))
  {
    hide EncodeUint32;
    if ws == [] {
      assert ws + [w] == [w] && EncodeWants([w]) == EncodeUint32(w.typ) + EncodeUint32(w.len) + EncodeWants([]);
    } else {
      assert (ws + [w])[1..] == ws[1..] + [w];
      WantsAppend(ws[1..], w);
    }
  }
}
