/**
  What call_run makes of the bytes it takes for a reply (gck-rpc-module.c), whatever they are, and what
  they are when they come from the daemon.
 */
module Verdicts {
  import opened Bytes
  import opened EggBuffers
  import opened Signature
  import opened Wire
  import opened Proxy
  import Ckr

  /** A code to return, a response to be read from an offset on, or the failure of an assert. */
  datatype Verdict = Returns(rv: Ulong) | Proceeds(at: nat) | Aborts

  /** The ulong behind a call id that is no call's: never a success. */
  function ErrorCode(body: seq<Byte>, at: nat): Verdict {
    match Uint64At(body, at)
    case Short => Returns(Ckr.DEVICE_ERROR)
    case Got(v, _) => Returns(if v == Ckr.OK then Ckr.DEVICE_ERROR else v)
  }

  /**
    call_run on any message, for the call `id`. Its result does not depend on whether the message parses: a
    call id out of range counts as 0, a wrong signature is passed over, and a signature that cannot be read
    is noticed only by the assert that the response is undamaged.
   */
  function Judge(id: int, body: seq<Byte>): Verdict {
    match Uint32At(body, 0)
    case Short => Returns(Ckr.DEVICE_ERROR)
    case Got(rid, at) =>
      if rid == CALL_ERROR || rid >= CALL_MAX then ErrorCode(body, at)
      else if rid != id then Returns(Ckr.DEVICE_ERROR)
      else match ByteArrayAt(body, at)
           case Short => Aborts
           case Got(_, next) => Proceeds(next)
  }

  /** A parsed header leads where the verdict says. */
  lemma JudgeParsed(id: int, body: seq<Byte>)
    requires IsCall(id)
    ensures
      match ParseHeader(body, false)
      case Short => true
      case Got(rid, at) =>
        Judge(id, body) == if rid == CALL_ERROR then ErrorCode(body, at)
                           else if rid != id then Returns(Ckr.DEVICE_ERROR) else Proceeds(at)
  {
    hide PartsOf, SignatureBytes;
  }

  /** The two views of call_run agree on every message that can be decoded, whoever sent it. */
  lemma RunJudged(id: int, body: seq<Byte>)
    requires IsCall(id) && DecodeMessage(body, false).Got?
    ensures
      match Judge(id, body)
      case Returns(e) => CallRun(id, body) == Error(e)
      case Proceeds(_) => CallRun(id, body) == Success(DecodeMessage(body, false).value.1)
      case Aborts => false
  {
    JudgeParsed(id, body);
    hide Judge, PartsOf, SignatureBytes, ParseHeader;
    var at := ParseHeader(body, false).next;
    if ParseHeader(body, false).value == CALL_ERROR { OneUlong(body, at); }
  }

  lemma OneUlong(body: seq<Byte>, at: nat)
    ensures DecodeAll([U], body, at)
         == match Uint64At(body, at) case Short => Short case Got(v, end) => Got([PUlong(v)], end)
  {
    hide Uint64At;
    var ks: seq<Kind> := [U];
    assert ks[1..] == [];
    if Uint64At(body, at).Got? {
      var v, end := Uint64At(body, at).value, Uint64At(body, at).next;
      assert Decode(ks[0], body, at) == Got(PUlong(v), end) && DecodeAll(ks[1..], body, end) == Got([], end);
      assert [PUlong(v)] + [] == [PUlong(v)];
    }
  }

  /** A reply of the daemon to the call: responses proceed to their parts, errors return their code modulo 2^32. */
  lemma JudgeReply(id: int, r: Reply)
    requires Sendable(id, r)
    ensures
      match r
      case Success(ps) =>
        && Judge(id, ReplyBytes(id, r)).Proceeds?
        && DecodeAll(PartsOf(id, false), ReplyBytes(id, r), Judge(id, ReplyBytes(id, r)).at) == Got(ps, |ReplyBytes(id, r)|)
      case Error(rv) =>
        Judge(id, ReplyBytes(id, r)) == Returns(if rv % 0x1_0000_0000 == 0 then 0x30 else rv % 0x1_0000_0000)
  {
    hide Judge, Header, ParseHeader, PartsOf, Decode, DecodeAll, Encode, EncodeAll, ErrorCode;
    var wire := ReplyBytes(id, r);
    JudgeParsed(id, wire);
    match r
    case Success(ps) =>
      HeaderRoundTrip(id, false, EncodeAll(ps));
      PartsHeld(wire, |Header(id, false)|, ps);
    case Error(rv) =>
      var v := Truncate32(rv);
      HeaderRoundTrip(CALL_ERROR, false, EncodeAll([PUlong(v)]));
      ErrorHeld(wire, |Header(CALL_ERROR, false)|, v);
  }

  lemma ErrorHeld(wire: seq<Byte>, at: nat, v: Ulong)
    requires at <= |wire| && wire[at..] == EncodeAll([PUlong(v)])
    ensures ErrorCode(wire, at) == Returns(if v == Ckr.OK then Ckr.DEVICE_ERROR else v)
  {
    assert EncodeAll([PUlong(v)]) == EncodeUint64(v) + EncodeAll([]);
    hide EncodeUint64, Uint64At;
    assert wire[at..at + 8] == wire[at..][..8] == EncodeUint64(v);
    Uint64Held(wire, at, v);
  }
}
