/** The growable byte buffer of egg-buffer.c: growth arithmetic, bounded reads and the sticky failure counter. */
module EggBuffers {
  import opened Bytes

  /** No C object is larger than this (PTRDIFF_MAX), so no allocator grants more. */
  const MAX_OBJECT: int := 0x7fff_ffff_ffff_ffff
  /** Length word that stands for a NULL byte array, and the exclusive bound on real lengths. */
  const NULL_ARRAY: int := 0xffff_ffff
  const ARRAY_LIMIT: int := 0x7fff_ffff
  /** Contents up to this size can always be had from an allocator that grants what can exist. */
  const ROOM: int := 0x1000_0000_0000_0000

  // ----- Growth arithmetic ------------------------------------------------------------------

  /** The capacity egg_buffer_reserve asks the allocator for, in size_t arithmetic. */
  function NewCapacity(cap: Ulong, len: Ulong): Ulong {
    var doubled := cap * 2 % TWO_64;
    if len > doubled then (doubled + len) % TWO_64 else doubled
  }

  /** The request is representable: the sum in egg_buffer_reserve does not wrap around. */
  predicate NoWrap(cap: Ulong, len: Ulong) {
    len <= 2 * cap || 2 * cap + len < TWO_64
  }

  /** The new capacity covers the request exactly when the sum does not wrap. */
  lemma NewCapacityCoversIff(cap: Ulong, len: Ulong)
    requires cap <= MAX_OBJECT
    ensures NewCapacity(cap, len) >= len <==> NoWrap(cap, len)
  {
  }

  /** A wrapped request: the capacity granted is far below the length asked for. */
  lemma NewCapacityWraps()
    ensures NewCapacity(0x4000_0000_0000_0000, 0x8000_0000_0000_0001) == 1
  {
  }

  /** One call of egg_buffer_reserve together with the allocator's answer. */
  datatype Request = Request(len: Ulong, granted: bool)

  predicate Grows(cap: Ulong, r: Request) {
    cap <= r.len && r.granted
  }

  function Capacity(cap: Ulong, rs: seq<Request>): Ulong
    decreases |rs|
  {
    if rs == [] then cap
    else Capacity(if Grows(cap, rs[0]) then NewCapacity(cap, rs[0].len) else cap, rs[1..])
  }

  /** Total of the old capacities that reallocation had to copy. */
  function Copied(cap: Ulong, rs: seq<Request>): nat
    decreases |rs|
  {
    if rs == [] then 0
    else if Grows(cap, rs[0]) then cap + Copied(NewCapacity(cap, rs[0].len), rs[1..])
    else Copied(cap, rs[1..])
  }

  function Largest(rs: seq<Request>): nat {
    if rs == [] then 0 else var m := Largest(rs[1..]); if rs[0].len > m then rs[0].len else m
  }

  /** Every request stays representable and the allocator grants only blocks that can exist. */
  predicate Feasible(cap: Ulong, rs: seq<Request>)
    decreases |rs|
  {
    && cap <= MAX_OBJECT
    && (rs != [] ==>
          && NoWrap(cap, rs[0].len)
          && Feasible(if Grows(cap, rs[0]) then NewCapacity(cap, rs[0].len) else cap, rs[1..]))
  }

  /** Each growth at least doubles the capacity and leaves it at most twice the request. */
  lemma GrowthStep(cap: Ulong, len: Ulong)
    requires cap <= len && cap <= MAX_OBJECT && NoWrap(cap, len)
    ensures 2 * cap <= NewCapacity(cap, len) <= 2 * len
    ensures len <= NewCapacity(cap, len)
  {
  }

  /** Over any run of reserves memory stays within twice the largest request, and copying is amortised. */
  lemma {:induction false} GrowthBound(c0: Ulong, rs: seq<Request>)
    requires Feasible(c0, rs)
    ensures c0 <= Capacity(c0, rs)
    ensures Capacity(c0, rs) <= c0 || Capacity(c0, rs) <= 2 * Largest(rs)
    ensures Copied(c0, rs) <= Capacity(c0, rs) - c0
    decreases |rs|
  {
    if rs == [] {
    } else if Grows(c0, rs[0]) {
      GrowthStep(c0, rs[0].len);
      GrowthBound(NewCapacity(c0, rs[0].len), rs[1..]);
    } else {
      GrowthBound(c0, rs[1..]);
    }
  }

  // ----- Bounded reads ----------------------------------------------------------------------

  /** A read either fails and leaves the offset alone, or yields a value and the next offset. */
  datatype Read<+T> = Short | Got(value: T, next: nat)

  function ByteAt(s: seq<Byte>, off: nat): Read<Byte> {
    if |s| < 1 || off > |s| - 1 then Short else Got(s[off], off + 1)
  }

  function Uint32At(s: seq<Byte>, off: nat): Read<Uint32> {
    if |s| < 4 || off > |s| - 4 then Short else Got(DecodeUint32(s[off..off + 4]), off + 4)
  }

  function Uint64At(s: seq<Byte>, off: nat): Read<Ulong> {
    match Uint32At(s, off)
    case Short => Short
    case Got(a, mid) =>
      match Uint32At(s, mid)
      case Short => Short
      case Got(b, next) => Got(a * 0x1_0000_0000 + b, next)
  }

  function ByteArrayAt(s: seq<Byte>, off: nat): Read<Option<seq<Byte>>> {
    match Uint32At(s, off)
    case Short => Short
    case Got(n, at) =>
      if n == NULL_ARRAY then Got(None, at)
      else if n >= ARRAY_LIMIT || |s| < n || at > |s| - n then Short
      else Got(Some(s[at..at + n]), at + n)
  }

  function EncodeByteArray(val: Option<seq<Byte>>): (s: seq<Byte>)
    ensures |s| == 4 + if val.None? then 0 else |val.value|
  {
    match val
    case None => EncodeUint32(NULL_ARRAY)
    case Some(v) => EncodeUint32(Truncate32(|v|)) + v
  }

  // ----- The buffer -------------------------------------------------------------------------

  class EggBuffer {
    var buf: array<Byte>
    var len: nat
    var allocatedLen: nat
    var failures: nat
    /** False for egg_buffer_init_static: memory owned elsewhere cannot be reallocated. */
    const growable: bool
    /** The allocator behind the buffer grants every block that can exist. */
    const reliable: bool

    /** Nothing stands in the way of growth. */
    predicate Ample() {
      growable && reliable
    }

    ghost predicate Valid()
      reads this, buf
    {
      len <= allocatedLen == buf.Length && allocatedLen <= MAX_OBJECT
    }

    ghost function Contents(): (s: seq<Byte>)
      requires Valid()
      reads this, buf
      ensures |s| == len
    {
      buf[..len]
    }

    predicate HasError()
      reads this
    {
      failures > 0
    }

    /** egg_buffer_init_full: without memory the buffer counts a failure and has no allocator. */
    constructor (reserve: nat, reliable: bool)
      requires reserve <= MAX_OBJECT
      ensures Valid() && fresh(buf) && Contents() == [] && failures <= 1
      ensures if failures == 0 then growable && allocatedLen == (if reserve == 0 then 64 else reserve)
              else !growable && allocatedLen == 0
      ensures this.reliable == reliable && (reliable ==> failures == 0)
    {
      var denied: bool := *;
      var memory := reliable || !denied;
      var size := if !memory then 0 else if reserve == 0 then 64 else reserve;
      buf := new Byte[size];
      len, allocatedLen, failures, growable := 0, size, if memory then 0 else 1, memory;
      this.reliable := reliable;
    }

    method Reset()
      requires Valid()
      modifies this`len, this`failures, buf
      ensures Valid() && Contents() == [] && failures == 0
    {
      forall i | 0 <= i < buf.Length { buf[i] := 0; }
      len, failures := 0, 0;
    }

    /** The allocator: realloc either fails or moves what fits of the old block into a new one. */
    method Reallocate(size: nat) returns (newbuf: array?<Byte>)
      requires Valid()
      ensures newbuf != null ==> fresh(newbuf) && newbuf.Length == size <= MAX_OBJECT
      ensures newbuf != null ==> forall i | 0 <= i < size && i < buf.Length :: newbuf[i] == buf[i]
      ensures reliable && size <= MAX_OBJECT ==> newbuf != null
    {
      newbuf := null;
      var granted: bool := *;
      if (reliable || granted) && size <= MAX_OBJECT {
        newbuf := new Byte[size];
        forall i | 0 <= i < size && i < buf.Length { newbuf[i] := buf[i]; }
      }
    }

    /** Success makes room exactly if the sum does not wrap; if it does, a block that is too small is accepted. */
    method Reserve(n: Ulong) returns (ok: bool)
      requires Valid()
      modifies this`buf, this`allocatedLen, this`failures
      ensures buf.Length == allocatedLen <= MAX_OBJECT && (buf == old(buf) || fresh(buf))
      ensures failures == old(failures) + if ok then 0 else 1
      ensures allocatedLen == if ok && old(allocatedLen) <= n then NewCapacity(old(allocatedLen), n) else old(allocatedLen)
      ensures !growable && old(allocatedLen) <= n ==> !ok
      ensures n < old(allocatedLen) || (Ample() && 2 * n <= MAX_OBJECT) ==> ok
      ensures ok ==> (n <= allocatedLen <==> NoWrap(old(allocatedLen), n))
      ensures NoWrap(old(allocatedLen), n) ==> Valid() && buf[..old(allocatedLen)] == old(buf[..])
    {
      if n < allocatedLen {
        return true;
      }
      NewCapacityCoversIff(allocatedLen, n);
      if NoWrap(allocatedLen, n) { GrowthStep(allocatedLen, n); }
      var newlen := allocatedLen * 2 % TWO_64;
      if n > newlen {
        newlen := (newlen + n) % TWO_64;
      }
      if !growable {
        failures := failures + 1;
        return false;
      }
      var newbuf := Reallocate(newlen);
      if newbuf == null {
        failures := failures + 1;
        return false;
      }
      buf, allocatedLen := newbuf, newlen;
      return true;
    }

    /** `n` more bytes can be asked for without the sums wrapping around. */
    ghost predicate Extensible(n: nat)
      reads this
    {
      len + n < TWO_64 && allocatedLen < TWO_64 && NoWrap(allocatedLen, len + n)
    }

    /** Extends the buffer over bytes already present in the block, whatever reallocation does. */
    method AddEmpty(n: Ulong) returns (ok: bool)
      requires Valid() && Extensible(n)
      modifies this
      ensures Valid() && (buf == old(buf) || fresh(buf))
      ensures failures == old(failures) + if ok then 0 else 1
      ensures !ok ==> Contents() == old(Contents())
      ensures ok ==> len == old(len) + n && old(Contents()) <= Contents()
      ensures ok && old(len) + n <= old(allocatedLen) ==> Contents() == old(buf[..len + n])
      ensures Ample() && old(len) + n <= ROOM ==> ok
    {
      ghost var was := buf[..];
      ok := Reserve(len + n);
      assert buf[..len] == buf[..|was|][..len] == was[..len];
      if ok {
        len := len + n;
        if len <= |was| { assert buf[..len] == buf[..|was|][..len]; }
        assert buf[..old(len)] == was[..old(len)];
      }
    }

    /** A read straight into the block, past the contents: nothing is published yet. */
    method ReadInto(data: seq<Byte>)
      requires Valid() && len + |data| <= allocatedLen
      modifies buf
      ensures Valid() && Contents() == old(Contents()) && buf[..len + |data|] == old(Contents()) + data
    {
      Copy(data);
    }

    /** memcpy to the end of the contents. */
    method Copy(val: seq<Byte>)
      requires Valid() && len + |val| <= allocatedLen
      modifies buf
      ensures buf[..len + |val|] == old(buf[..len]) + val
    {
      forall i | 0 <= i < |val| { buf[len + i] := val[i]; }
    }

    method Append(val: seq<Byte>) returns (ok: bool)
      requires Valid() && Extensible(|val|)
      modifies this, buf
      ensures Valid() && (buf == old(buf) || fresh(buf))
      ensures failures == old(failures) + if ok then 0 else 1
      ensures Contents() == old(Contents()) + if ok then val else []
      ensures Ample() && old(len) + |val| <= ROOM ==> ok
    {
      ghost var was := buf[..];
      ok := Reserve(len + |val|);
      assert buf[..len] == buf[..|was|][..len] == was[..len];
      if ok {
        Copy(val);
        len := len + |val|;
      }
    }

    method AddByte(val: Byte) returns (ok: bool)
      requires Valid()
      modifies this, buf
      ensures Valid() && (buf == old(buf) || fresh(buf))
      ensures failures == old(failures) + if ok then 0 else 1
      ensures Contents() == old(Contents()) + if ok then [val] else []
      ensures Ample() && old(len) + 1 <= ROOM ==> ok
    {
      ok := Append([val]);
    }

    method AddUint32(val: Uint32) returns (ok: bool)
      requires Valid()
      modifies this, buf
      ensures Valid() && (buf == old(buf) || fresh(buf))
      ensures failures == old(failures) + if ok then 0 else 1
      ensures Contents() == old(Contents()) + if ok then EncodeUint32(val) else []
      ensures Ample() && old(len) + 4 <= ROOM ==> ok
    {
      ok := Append(EncodeUint32(val));
    }

    method AddUint64(val: Ulong) returns (ok: bool)
      requires Valid()
      modifies this, buf
      ensures Valid() && (buf == old(buf) || fresh(buf))
      ensures failures == old(failures) + if ok then 0 else 1
      ensures ok ==> Contents() == old(Contents()) + EncodeUint64(val)
      ensures !ok ==> Contents() == old(Contents()) || Contents() == old(Contents()) + EncodeUint32(val / 0x1_0000_0000)
      ensures Ample() && old(len) + 8 <= ROOM ==> ok
    {
      ok := AddUint32(val / 0x1_0000_0000);
      if ok {
        ok := AddUint32(val % 0x1_0000_0000);
      }
    }

    method AddByteArray(val: Option<seq<Byte>>) returns (ok: bool)
      requires Valid()
      modifies this, buf
      ensures Valid() && (buf == old(buf) || fresh(buf))
      ensures failures == old(failures) + if ok then 0 else 1
      ensures val.Some? && |val.value| >= ARRAY_LIMIT ==> !ok
      ensures ok ==> Contents() == old(Contents()) + EncodeByteArray(val)
      ensures !ok ==>
        || Contents() == old(Contents())
        || (val.Some? && |val.value| < ARRAY_LIMIT && Contents() == old(Contents()) + EncodeUint32(|val.value|))
      ensures Ample() && (val.Some? ==> |val.value| < ARRAY_LIMIT) && old(len) + |EncodeByteArray(val)| <= ROOM ==> ok
    {
      if val.None? {
        ok := AddUint32(NULL_ARRAY);
        return;
      }
      if |val.value| >= ARRAY_LIMIT {
        failures := failures + 1;
        return false;
      }
      ok := AddUint32(|val.value|);
      if ok {
        ok := Append(val.value);
      }
    }

    method GetByte(offset: nat) returns (r: Read<Byte>)
      requires Valid()
      modifies this`failures
      ensures Valid() && r == ByteAt(Contents(), offset)
      ensures failures == old(failures) + if r.Short? then 1 else 0
    {
      if len < 1 || offset > len - 1 {
        failures := failures + 1;
        return Short;
      }
      return Got(buf[offset], offset + 1);
    }

    method GetUint32(offset: nat) returns (r: Read<Uint32>)
      requires Valid()
      modifies this`failures
      ensures Valid() && r == Uint32At(Contents(), offset)
      ensures failures == old(failures) + if r.Short? then 1 else 0
    {
      if len < 4 || offset > len - 4 {
        failures := failures + 1;
        return Short;
      }
      assert buf[offset..offset + 4] == Contents()[offset..offset + 4];
      return Got(DecodeUint32(buf[offset..offset + 4]), offset + 4);
    }

    method GetUint64(offset: nat) returns (r: Read<Ulong>)
      requires Valid()
      modifies this`failures
      ensures Valid() && r == Uint64At(Contents(), offset)
      ensures failures == old(failures) + if r.Short? then 1 else 0
    {
      var a := GetUint32(offset);
      if a.Short? { return Short; }
      var b := GetUint32(a.next);
      if b.Short? { return Short; }
      return Got(a.value as int * 0x1_0000_0000 + b.value as int, b.next);
    }

    method GetByteArray(offset: nat) returns (r: Read<Option<seq<Byte>>>)
      requires Valid()
      modifies this`failures
      ensures Valid() && r == ByteArrayAt(Contents(), offset)
      ensures failures == old(failures) + if r.Short? then 1 else 0
    {
      var n := GetUint32(offset);
      if n.Short? { return Short; }
      if n.value == NULL_ARRAY {
        return Got(None, n.next);
      } else if n.value >= ARRAY_LIMIT {
        failures := failures + 1;
        return Short;
      }
      if len < n.value || n.next > len - n.value {
        failures := failures + 1;
        return Short;
      }
      assert buf[n.next..n.next + n.value] == Contents()[n.next..n.next + n.value];
      return Got(Some(buf[n.next..n.next + n.value]), n.next + n.value);
    }

    /**
      How both ends take in a frame: reserve room, read the bytes into the block, then extend the buffer
      over them, which may reallocate once more and may fail.
     */
    method Receive(data: seq<Byte>) returns (ok: bool)
      requires Valid() && |data| < TWO_32 && len == 0
      modifies this, buf
      ensures Valid() && (buf == old(buf) || fresh(buf))
      ensures failures == old(failures) + if ok then 0 else 1
      ensures Contents() == if ok then data else []
      ensures Ample() ==> ok
    {
      ok := Reserve(len + |data|);
      if ok {
        ReadInto(data);
        assert buf[..|data|] == data;
        ok := AddEmpty(|data|);
      }
    }
  }
}
