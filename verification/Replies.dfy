/**
  What a client reads if an unread response is in front of it on the connection: a frame cut from the
  response's own bytes, which never passes for a reply.
 */
module Replies {
  import opened Bytes
  import opened EggBuffers
  import opened Signature
  import opened Wire
  import opened Proxy
  import opened Verdicts
  import Ckr

  /** What a message buffer holds without growing. */
  const FIRST_CAPACITY := 64

  /** The daemon's reply to some call. */
  ghost predicate IsReply(b: seq<Byte>) {
    exists id, r :: Sendable(id, r) && b == ReplyBytes(id, r)
  }

  /** A response to the call `id` that may fail to be reserved. */
  ghost predicate Unread(b: seq<Byte>, id: int) {
    |b| >= FIRST_CAPACITY && exists ps :: Sendable(id, Success(ps)) && b == ReplyBytes(id, Success(ps))
  }

  /** Error replies always fit into the buffer, so what does not fit is a response. */
  lemma LongReply(b: seq<Byte>) returns (id: int)
    requires IsReply(b) && |b| >= FIRST_CAPACITY
    ensures Unread(b, id)
  {
    var i, r :| Sendable(i, r) && b == ReplyBytes(i, r);
    hide ReplyBytes, Sendable;
    if r.Error? { ErrorReplyShort(i, r); }
    assert r == Success(r.parts);
    id := i;
  }

  /** The length of the signature of a call's response. */
  function SignatureLength(id: int): nat
    requires IsCall(id)
  {
    |Codes(PartsOf(id, false))|
  }

  lemma FirstLetter(ks: seq<Kind>)
    requires ks != []
    ensures |SignatureBytes(ks)| >= 1 && 0x4d <= SignatureBytes(ks)[0] < 0x7f
  {
    assert Codes(ks) == Code(ks[0]) + Codes(ks[1..]);
    assert Codes(ks)[0] == Code(ks[0])[0];
  }

  /** The first bytes of an unread response: its call id, the length of its signature and the signature. */
  lemma UnreadFront(b: seq<Byte>, id: int)
    requires Unread(b, id)
    ensures |b| >= FIRST_CAPACITY && IsCall(id) && b[..4] == EncodeUint32(id) && 1 <= SignatureLength(id) <= 36
    ensures b[4..8] == EncodeUint32(SignatureLength(id)) && 0x4d <= b[8] < 0x7f
  {
    var ps :| Sendable(id, Success(ps)) && b == ReplyBytes(id, Success(ps));
    var ks := PartsOf(id, false);
    hide PartsOf;
    CodesShort(ks);
    SignatureShort(id, false);
    hide EncodeUint32, SignatureBytes, Codes, EncodeAll, Sendable;
    if ks == [] { Partless(id, ps); }
    FirstLetter(ks);
    var sig, n := SignatureBytes(ks), SignatureLength(id);
    assert b == EncodeUint32(id) + (EncodeUint32(n) + sig) + EncodeAll(ps);
    FrontBytes(b, EncodeUint32(id), EncodeUint32(n), sig, EncodeAll(ps));
  }

  lemma FrontBytes(b: seq<Byte>, i: seq<Byte>, n: seq<Byte>, sig: seq<Byte>, rest: seq<Byte>)
    requires b == i + (n + sig) + rest && |i| == |n| == 4 && |sig| >= 1
    ensures b[..4] == i && b[4..8] == n && b[8] == sig[0]
  {
  }

  lemma Partless(id: int, ps: seq<Part>)
    requires Sendable(id, Success(ps)) && PartsOf(id, false) == []
    ensures |ReplyBytes(id, Success(ps))| == 8
  {
    hide PartsOf;
    assert Codes([]) == "" && EncodeAll(ps) == [];
  }

  lemma LastCalls()
    ensures |PartsOf(64, false)| <= 1 && |PartsOf(65, false)| <= 1
  {
  }

  lemma LastOfAll()
    ensures |PartsOf(66, false)| <= 1 && |PartsOf(67, false)| <= 1
  {
  }

  /** The calls with the largest ids have short signatures. */
  lemma LongIds(id: int)
    requires IsCall(id) && id >= FIRST_CAPACITY
    ensures SignatureLength(id) <= 2
  {
    LastCalls();
    LastOfAll();
    hide PartsOf;
    CodesShort(PartsOf(id, false));
  }

  /** The response at the front of a stream, or what is left of it once its call id has been taken for a length word. */
  predicate Fronted(b: seq<Byte>, id: int, stream: seq<Byte>) {
    b <= stream || (id >= FIRST_CAPACITY && |b| >= 4 && b[4..] <= stream)
  }

  /** The length word that is read off such a stream. */
  lemma FrontLength(b: seq<Byte>, id: int, stream: seq<Byte>)
    requires Unread(b, id) && Fronted(b, id, stream)
    ensures |stream| >= 60 && IsCall(id)
    ensures DecodeUint32(stream[..4]) == if b <= stream then id else SignatureLength(id)
    ensures b <= stream || SignatureLength(id) <= 2
  {
    UnreadFront(b, id);
    if b <= stream {
      assert stream[..4] == b[..4];
      Uint32RoundTrip(id);
    } else {
      LongIds(id);
      assert stream[..4] == b[4..][..4] == b[4..8];
      Uint32RoundTrip(SignatureLength(id));
    }
  }

  /**
    The frame cut from such a stream: it is judged CKR_DEVICE_ERROR, unless the call's own id is the length of
    the response's signature and the cut leaves it as call id, which makes the client abort.
   */
  lemma Misjudged(b: seq<Byte>, id: int, stream: seq<Byte>, call: int)
    requires Unread(b, id) && Fronted(b, id, stream) && IsCall(call)
    requires |stream| >= 4 + DecodeUint32(stream[..4])
    ensures IsCall(id)
    ensures Judge(call, stream[4..4 + DecodeUint32(stream[..4])])
         == if b <= stream && id >= 4 && SignatureLength(id) == call then Aborts else Returns(Ckr.DEVICE_ERROR)
  {
    hide SignatureLength, Unread, EncodeUint32, DecodeUint32, Uint32At, Judge;
    UnreadFront(b, id);
    FrontLength(b, id, stream);
    var n := DecodeUint32(stream[..4]);
    if n < 4 {
      TinyFrame(stream[4..4 + n]);
    } else {
      assert b <= stream && n == id;
      assert stream[4..8] == b[4..8] && stream[8] == b[8];
      CutFrame(stream[4..4 + n], SignatureLength(id), stream[4..9]);
    }
  }

  lemma TinyFrame(p: seq<Byte>)
    requires |p| < 4
    ensures forall call :: Judge(call, p) == Returns(Ckr.DEVICE_ERROR)
  {
  }

  /** A frame that begins with the length of a signature and, if it is long enough, with its first letter. */
  lemma CutFrame(p: seq<Byte>, sig: Uint32, front: seq<Byte>)
    requires 4 <= |p| < CALL_MAX && 1 <= sig <= 36 && |front| == 5 && front[..4] == EncodeUint32(sig) && 0x4d <= front[4] < 0x7f
    requires forall i | 0 <= i < 5 && i < |p| :: p[i] == front[i]
    ensures forall call | IsCall(call) :: Judge(call, p) == if sig == call then Aborts else Returns(Ckr.DEVICE_ERROR)
  {
    assert p[0..4] == front[..4];
    Uint32RoundTrip(sig);
    assert Uint32At(p, 0) == Got(sig, 4);
    if |p| >= 8 { LargeWord(p[4..8]); }
    assert ByteArrayAt(p, 4).Short?;
  }

  lemma LargeWord(s: seq<Byte>)
    requires |s| == 4 && 0x4d <= s[0] < 0x7f
    ensures 0x4d00_0000 <= DecodeUint32(s) < 0x7fff_ffff
  {
  }
}
