/** The supported mechanisms of gck-rpc-util.c and the in-place purge of a mechanism list. */
module Mechanisms {
  import opened Bytes

  /** Mechanisms whose parameter is sent as a plain byte block. */
  predicate HasSaneParameters(m: Ulong) {
    m == 0x9 || m == 0xd || m == 0x1085
  }

  /** The mechanism numbers listed in gck_rpc_mechanism_has_no_parameters, adjacent ones as ranges. */
  predicate HasNoParameters(m: Ulong) {
    || 0x0 <= m <= 0x8 || 0xa <= m <= 0xc || 0x10 <= m <= 0x12 || m == 0x20 || m == 0x30 || 0x40 <= m <= 0x42
    || 0x100 <= m <= 0x101 || m == 0x103 || 0x110 <= m <= 0x111 || 0x120 <= m <= 0x121 || m == 0x123
    || 0x130 <= m <= 0x132 || m == 0x134 || 0x140 <= m <= 0x141 || m == 0x143 || 0x200 <= m <= 0x201
    || 0x210 <= m <= 0x211 || 0x220 <= m <= 0x221 || 0x230 <= m <= 0x231 || 0x240 <= m <= 0x241
    || 0x250 <= m <= 0x251 || 0x260 <= m <= 0x261 || 0x270 <= m <= 0x271 || 0x300 <= m <= 0x301 || m == 0x303
    || 0x310 <= m <= 0x311 || m == 0x313 || 0x320 <= m <= 0x321 || 0x330 <= m <= 0x331 || m == 0x333
    || 0x340 <= m <= 0x341 || m == 0x343 || m == 0x350 || m == 0x370 || m == 0x374 || 0x380 <= m <= 0x381
    || m == 0x400 || m == 0x1000 || m == 0x1008 || m == 0x1010 || m == 0x1020 || m == 0x1030 || m == 0x1036
    || 0x1040 <= m <= 0x1042 || m == 0x1060 || m == 0x1065 || m == 0x1070 || 0x1080 <= m <= 0x1081
    || m == 0x1083 || 0x2000 <= m <= 0x2002
  }

  predicate IsSupported(m: Ulong) { HasNoParameters(m) || HasSaneParameters(m) }

  /** The same numbers one by one, in the order of the cases of that function. */
  predicate Listed(m: Ulong) {
    m in {
      0x0, 0xa, 0x1, 0x2, 0x3, 0xb, 0x4, 0x5, 0x6, 0x40, 0x41, 0x42, 0x7, 0x8, 0xc, 0x10, 0x2000, 0x11, 0x12,
      0x1020, 0x1040, 0x1041, 0x1042, 0x20, 0x2001, 0x30, 0x2002, 0x1010, 0x350, 0x100, 0x110, 0x111, 0x330,
      0x1080, 0x1081, 0x1083, 0x120, 0x130, 0x131, 0x140, 0x300, 0x310, 0x320, 0x340, 0x370, 0x374, 0x1000,
      0x1030, 0x1060, 0x101, 0x121, 0x132, 0x141, 0x301, 0x311, 0x321, 0x331, 0x341, 0x103, 0x123, 0x134,
      0x143, 0x303, 0x313, 0x333, 0x343, 0x380, 0x381, 0x1008, 0x1036, 0x1065, 0x200, 0x201, 0x210, 0x211,
      0x220, 0x221, 0x250, 0x251, 0x260, 0x261, 0x270, 0x271, 0x1070, 0x230, 0x231, 0x240, 0x241, 0x400
    }
  }

  /** The mechanisms that can be sent are those listed there, and three more with a plain parameter block. */
  lemma ListedIff(m: Ulong)
    ensures HasNoParameters(m) <==> Listed(m)
    ensures IsSupported(m) <==> Listed(m) || m in {0x9, 0xd, 0x1085}
  {
  }

  /** The specification of the purge: the order-preserving filter by supported mechanism. */
  function Supported(s: seq<Ulong>): (r: seq<Ulong>)
    ensures |r| <= |s|
  {
    if s == [] then [] else (if IsSupported(s[0]) then [s[0]] else []) + Supported(s[1..])
  }

  /** Filtering keeps exactly the occurrences of each supported mechanism. */
  lemma {:induction false} SupportedKeeps(s: seq<Ulong>, m: Ulong)
    ensures multiset(Supported(s))[m] == if Listed(m) || m in {0x9, 0xd, 0x1085} then multiset(s)[m] else 0
  {
    ListedIff(m);
    hide IsSupported, Listed;
    if s == [] {
    } else {
      SupportedKeeps(s[1..], m);
      assert s == [s[0]] + s[1..];
    }
  }

  lemma {:induction false} SupportedSplit(a: seq<Ulong>, b: seq<Ulong>)
    ensures Supported(a + b) == Supported(a) + Supported(b)
  {
    hide IsSupported;
    if a == [] {
      assert a + b == b;
    } else {
      assert (a + b)[1..] == a[1..] + b;
      SupportedSplit(a[1..], b);
      var head := if IsSupported(a[0]) then [a[0]] else [];
      assert head + (Supported(a[1..]) + Supported(b)) == (head + Supported(a[1..])) + Supported(b);
    }
  }

  lemma KeepSupported(a: seq<Ulong>, m: Ulong)
    requires IsSupported(m)
    ensures Supported(a + [m]) == Supported(a) + [m]
  {
    hide IsSupported;
    SupportedSplit(a, [m]);
    assert Supported([m]) == [m] + Supported([]);
  }

  /** Dropping an unsupported entry does not change what is kept. */
  lemma DropUnsupported(a: seq<Ulong>, m: Ulong, b: seq<Ulong>)
    requires !IsSupported(m)
    ensures Supported(a + [m] + b) == Supported(a + b)
  {
    hide IsSupported;
    SupportedSplit(a + [m], b);
    SupportedSplit(a, [m]);
    SupportedSplit(a, b);
  }

  /** memmove of the n - i elements after `i` down by one; it reads mechs[n]. */
  method MoveDown(mechs: array<Ulong>, i: nat, n: nat)
    requires i < n < mechs.Length
    modifies mechs
    ensures mechs[..n - 1] == old(mechs[..i]) + old(mechs[i + 1..n])
    ensures mechs[..i] == old(mechs[..i])
    ensures forall k | n <= k < mechs.Length :: mechs[k] == old(mechs[k])
  {
    forall k | i <= k < n { mechs[k] := mechs[k + 1]; }
  }

  method RemoveUnsupported(mechs: array<Ulong>, i: nat, n: nat)
    requires i < n < mechs.Length && !IsSupported(mechs[i])
    modifies mechs
    ensures Supported(mechs[..n - 1]) == old(Supported(mechs[..n]))
    ensures mechs[..i] == old(mechs[..i])
    ensures forall k | n <= k < mechs.Length :: mechs[k] == old(mechs[k])
  {
    assert mechs[..n] == mechs[..i] + [mechs[i]] + mechs[i + 1..n];
    DropUnsupported(mechs[..i], mechs[i], mechs[i + 1..n]);
    MoveDown(mechs, i, n);
  }

  /**
    gck_rpc_mechanism_list_purge. The memmove reads one element past the list, so an entry
    can be removed only if the memory holds one more element than the list.
   */
  method Purge(mechs: array<Ulong>, count: nat) returns (n: nat)
    requires count <= mechs.Length && count < 0x8000_0000
    requires count < mechs.Length || forall i | 0 <= i < count :: IsSupported(mechs[i])
    modifies mechs
    ensures n <= count && mechs[..n] == Supported(old(mechs[..count]))
    ensures forall k | count <= k < mechs.Length :: mechs[k] == old(mechs[k])
  {
    assert Supported([]) == [] == mechs[..0];
    hide IsSupported, Supported;
    n := count;
    var i: int := 0;
    while i < n
      invariant 0 <= i <= n <= count
      invariant Supported(mechs[..n]) == Supported(old(mechs[..count]))
      invariant Supported(mechs[..i]) == mechs[..i]
      invariant count == mechs.Length ==> forall k | 0 <= k < count :: IsSupported(mechs[k])
      invariant forall k | count <= k < mechs.Length :: mechs[k] == old(mechs[k])
      decreases n - i
    {
      if !IsSupported(mechs[i]) {
        RemoveUnsupported(mechs, i, n);
        n := n - 1;
        i := i - 1;
      } else {
        KeepSupported(mechs[..i], mechs[i]);
        assert mechs[..i + 1] == mechs[..i] + [mechs[i]];
      }
      i := i + 1;
    }
  }
}
