/** Reading more bytes does not change what has been read, so no message survives being cut short. */
module Truncation {
  import opened Bytes
  import opened EggBuffers
  import opened Signature
  import opened Wire

  /** The read on the shorter text succeeded within it, and is the read on the longer one. */
  predicate Stable<T(==)>(short: Read<T>, long: Read<T>, bound: nat) {
    short.Got? ==> long == short && short.next <= bound
  }

  lemma ByteStable(s: seq<Byte>, t: seq<Byte>, off: nat)
    requires s <= t
    ensures Stable(ByteAt(s, off), ByteAt(t, off), |s|)
  {
  }

  lemma Uint32Stable(s: seq<Byte>, t: seq<Byte>, off: nat)
    requires s <= t
    ensures Stable(Uint32At(s, off), Uint32At(t, off), |s|)
  {
    if Uint32At(s, off).Got? { assert s[off..off + 4] == t[off..off + 4]; }
  }

  lemma Uint64Stable(s: seq<Byte>, t: seq<Byte>, off: nat)
    requires s <= t
    ensures Stable(Uint64At(s, off), Uint64At(t, off), |s|)
  {
    hide Uint32At;
    Uint32Stable(s, t, off);
    if Uint32At(s, off).Got? { Uint32Stable(s, t, Uint32At(s, off).next); }
  }

  lemma ByteArrayStable(s: seq<Byte>, t: seq<Byte>, off: nat)
    requires s <= t
    ensures Stable(ByteArrayAt(s, off), ByteArrayAt(t, off), |s|)
  {
    hide Uint32At;
    Uint32Stable(s, t, off);
    if ByteArrayAt(s, off).Got? && ByteArrayAt(s, off).value.Some? {
      var n, at := Uint32At(s, off).value, Uint32At(s, off).next;
      assert s[at..at + n] == t[at..at + n];
    }
  }

  lemma {:induction false} UlongsStable(s: seq<Byte>, t: seq<Byte>, off: nat, n: nat)
    requires s <= t && off <= |s|
    ensures Stable(DecodeUlongs(s, off, n), DecodeUlongs(t, off, n), |s|)
    decreases n
  {
    hide Uint64At;
    if n == 0 {
    } else {
      Uint64Stable(s, t, off);
      if Uint64At(s, off).Got? { UlongsStable(s, t, Uint64At(s, off).next, n - 1); }
    }
  }

  lemma AttributeStable(s: seq<Byte>, t: seq<Byte>, off: nat)
    requires s <= t
    ensures Stable(DecodeAttribute(s, off), DecodeAttribute(t, off), |s|)
  {
    hide Uint32At, ByteAt, ByteArrayAt;
    Uint32Stable(s, t, off);
    if Uint32At(s, off).Got? {
      var off1 := Uint32At(s, off).next;
      ByteStable(s, t, off1);
      if ByteAt(s, off1).Got? {
        var off2 := ByteAt(s, off1).next;
        Uint32Stable(s, t, off2);
        if Uint32At(s, off2).Got? { ByteArrayStable(s, t, Uint32At(s, off2).next); }
      }
    }
  }

  lemma {:induction false} AttributesStable(s: seq<Byte>, t: seq<Byte>, off: nat, n: nat)
    requires s <= t && off <= |s|
    ensures Stable(DecodeAttributes(s, off, n), DecodeAttributes(t, off, n), |s|)
    decreases n
  {
    hide DecodeAttribute;
    if n == 0 {
    } else {
      AttributeStable(s, t, off);
      if DecodeAttribute(s, off).Got? { AttributesStable(s, t, DecodeAttribute(s, off).next, n - 1); }
    }
  }

  lemma WantStable(s: seq<Byte>, t: seq<Byte>, off: nat)
    requires s <= t
    ensures Stable(DecodeWant(s, off), DecodeWant(t, off), |s|)
  {
    hide Uint32At;
    Uint32Stable(s, t, off);
    if Uint32At(s, off).Got? { Uint32Stable(s, t, Uint32At(s, off).next); }
  }

  lemma {:induction false} WantsStable(s: seq<Byte>, t: seq<Byte>, off: nat, n: nat)
    requires s <= t && off <= |s|
    ensures Stable(DecodeWants(s, off, n), DecodeWants(t, off, n), |s|)
    decreases n
  {
    hide DecodeWant;
    if n == 0 {
    } else {
      WantStable(s, t, off);
      if DecodeWant(s, off).Got? { WantsStable(s, t, DecodeWant(s, off).next, n - 1); }
    }
  }

  /** A list behind its count. */
  lemma CountedStable(s: seq<Byte>, t: seq<Byte>, off: nat)
    requires s <= t
    ensures Stable(Uint32At(s, off), Uint32At(t, off), |s|)
    ensures Uint32At(s, off).Got? ==>
      var n, at := Uint32At(s, off).value, Uint32At(s, off).next;
      && Stable(DecodeUlongs(s, at, n), DecodeUlongs(t, at, n), |s|)
      && Stable(DecodeAttributes(s, at, n), DecodeAttributes(t, at, n), |s|)
      && Stable(DecodeWants(s, at, n), DecodeWants(t, at, n), |s|)
  {
    hide Uint32At, DecodeUlongs, DecodeAttributes, DecodeWants;
    Uint32Stable(s, t, off);
    if Uint32At(s, off).Got? {
      var n, at := Uint32At(s, off).value, Uint32At(s, off).next;
      UlongsStable(s, t, at, n);
      AttributesStable(s, t, at, n);
      WantsStable(s, t, at, n);
    }
  }

  lemma PartStable(k: Kind, s: seq<Byte>, t: seq<Byte>, off: nat)
    requires s <= t
    ensures Stable(Decode(k, s, off), Decode(k, t, off), |s|)
  {
    hide Uint32At, Uint64At, ByteAt, ByteArrayAt, DecodeUlongs, DecodeAttributes, DecodeWants;
    CountedStable(s, t, off);
    Uint64Stable(s, t, off);
    ByteArrayStable(s, t, off);
    ByteStable(s, t, off);
    if ByteAt(s, off).Got? {
      var at := ByteAt(s, off).next;
      ByteStable(s, t, at);
      CountedStable(s, t, at);
      ByteArrayStable(s, t, at);
    }
    if Uint32At(s, off).Got? { ByteArrayStable(s, t, Uint32At(s, off).next); }
  }

  lemma {:induction false} PartsStable(ks: seq<Kind>, s: seq<Byte>, t: seq<Byte>, off: nat)
    requires s <= t && off <= |s|
    ensures Stable(DecodeAll(ks, s, off), DecodeAll(ks, t, off), |s|)
    decreases |ks|
  {
    hide Decode;
    if ks == [] {
    } else {
      PartStable(ks[0], s, t, off);
      if Decode(ks[0], s, off).Got? { PartsStable(ks[1..], s, t, Decode(ks[0], s, off).next); }
    }
  }

  lemma HeaderStable(s: seq<Byte>, t: seq<Byte>, request: bool)
    requires s <= t
    ensures Stable(ParseHeader(s, request), ParseHeader(t, request), |s|)
  {
    hide Uint32At, ByteArrayAt, PartsOf, SignatureBytes;
    Uint32Stable(s, t, 0);
    if Uint32At(s, 0).Got? { ByteArrayStable(s, t, Uint32At(s, 0).next); }
  }

  lemma MessageStable(s: seq<Byte>, t: seq<Byte>, request: bool)
    requires s <= t
    ensures Stable(DecodeMessage(s, request), DecodeMessage(t, request), |s|)
  {
    hide DecodeAll, PartsOf, Uint32At, ByteArrayAt, SignatureBytes;
    HeaderStable(s, t, request);
    if ParseHeader(s, request).Got? {
      var (id, at) := (ParseHeader(s, request).value, ParseHeader(s, request).next);
      PartsStable(if id == CALL_ERROR then [U] else PartsOf(id, request), s, t, at);
    }
  }

  /** A message cut short cannot be read. */
  lemma CutShort(id: int, request: bool, ps: seq<Part>, n: nat)
    requires AllFit(ps)
    requires (id == CALL_ERROR && !request && Kinds(ps) == [U]) || (IsCall(id) && Kinds(ps) == PartsOf(id, request))
    requires n < |EncodeMessage(id, request, ps)|
    ensures DecodeMessage(EncodeMessage(id, request, ps)[..n], request).Short?
  {
    hide DecodeMessage, EncodeMessage, PartsOf, Kinds, AllFit;
    var s := EncodeMessage(id, request, ps);
    MessageRoundTrip(id, request, ps);
    MessageStable(s[..n], s, request);
  }
}
