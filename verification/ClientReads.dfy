/** The client's readers that fill in the caller's memory (gck-rpc-module.c), proved against the proxy functions. */
module ClientReads {
  import opened Bytes
  import opened EggBuffers
  import opened Signature
  import opened Wire
  import opened Proxy
  import opened ProxyAttributes
  import opened ProxyLists
  import opened Messages
  import Mechanisms
  import Ckr

  function Block(arr: array?<Byte>): Option<seq<Byte>>
    reads arr
  {
    if arr == null then None else Some(arr[..])
  }

  /** memcpy into the caller's buffer. */
  method CopyIn(arr: array<Byte>, data: seq<Byte>)
    requires |data| <= arr.Length
    modifies arr
    ensures arr[..] == Overlay(data, old(arr[..])) && Proxy.Placed(arr[..], old(arr[..]), data)
  {
    forall i | 0 <= i < |data| { arr[i] := data[i]; }
  }

  /** proto_read_byte_array: `arr` may be NULL, `max` is the caller's count and `len` what it becomes. */
  method ReadByteArrayInto(msg: Message, arr: array?<Byte>, max: Ulong) returns (rv: Ulong, len: Ulong)
    requires msg.Valid() && msg.Expects(AY) && arr != msg.buffer.buf
    requires arr != null ==> max <= arr.Length
    modifies msg, msg.buffer`failures, arr
    ensures msg.Valid() && msg.Contents() == old(msg.Contents())
    ensures
      match Decode(AY, msg.Contents(), old(msg.parsed))
      case Short => rv == Ckr.PARSE_ERROR && Block(arr) == old(Block(arr))
      case Got(p, next) =>
        && msg.parsed == next
        && (rv, ByteOutput(Block(arr), Some(len))) == ReadBytes(ByteOutput(old(Block(arr)), Some(max)), Success([p]))
        && (arr != null && rv == 0 ==> p.PBytes? && len == |p.data| && Proxy.Placed(arr[..], old(arr[..]), p.data))
        && (arr != null && rv != 0 ==> arr[..] == old(arr[..]))
  {
    hide Decode;
    len := max;
    var r := msg.ReadByteArray();
    if r.Err? { return Ckr.PARSE_ERROR, len; }
    DecodesBytes(msg.Contents(), old(msg.parsed));
    if r.value.PNoBytes? {
      len := r.value.len;
      rv := if arr != null then Ckr.BUFFER_TOO_SMALL else Ckr.OK;
      return;
    }
    var data := r.value.data;
    len := |data| % TWO_64;
    if arr == null { return Ckr.OK, len; }
    if max < |data| { return Ckr.BUFFER_TOO_SMALL, len; }
    CopyIn(arr, data);
    rv := Ckr.OK;
  }

  lemma DecodesBytes(s: seq<Byte>, off: nat)
    ensures Decode(AY, s, off).Got? ==> Decode(AY, s, off).value.PNoBytes? || Decode(AY, s, off).value.PBytes?
  {
  }

  /** The entries filled in so far are those of the attributes read so far; the others are as they were. */
  ghost predicate FilledTo(now: seq<CkAttribute>, was: seq<CkAttribute>, l: seq<Attribute>) {
    && |l| <= |was| == |now|
    && (forall j | 0 <= j < |l| :: was[j].typ == l[j].typ && now[j] == Fill(was[j], l[j]))
    && (forall j | |l| <= j < |was| :: now[j] == was[j])
  }

  /** The loop of proto_read_attribute_array; `l` are the attributes taken before it stopped. */
  method FillAttributes(msg: Message, template: array<CkAttribute>) returns (ok: bool, ghost l: seq<Attribute>)
    requires msg.Valid()
    modifies msg, msg.buffer`failures, template
    ensures msg.Valid() && msg.Contents() == old(msg.Contents()) && msg.sigverify == old(msg.sigverify)
    ensures FilledTo(template[..], old(template[..]), l)
    ensures ok ==> DecodeAttributes(msg.Contents(), old(msg.parsed), template.Length) == Got(l, msg.parsed)
    ensures !ok ==>
      match DecodeAttributes(msg.Contents(), old(msg.parsed), template.Length)
      case Short => true
      case Got(all, _) => !SameTypes(old(template[..]), all)
  {
    hide DecodeAttribute, Fill;
    ghost var was := template[..];
    l := [];
    var i := 0;
    PrefixedNone(DecodeAttributes(msg.Contents(), msg.parsed, template.Length));
    while i < template.Length
      invariant 0 <= i <= template.Length && |l| == i && msg.Valid()
      invariant msg.Contents() == old(msg.Contents()) && msg.sigverify == old(msg.sigverify)
      invariant FilledTo(template[..], was, l)
      invariant DecodeAttributes(msg.Contents(), old(msg.parsed), template.Length)
             == Prefixed(l, DecodeAttributes(msg.Contents(), msg.parsed, template.Length - i))
    {
      ghost var more := DecodeAttributes(msg.Contents(), msg.parsed, template.Length - i);
      var a := msg.ReadAttribute();
      if a.None? { return false, l; }
      ghost var rest := DecodeAttributes(msg.Contents(), msg.parsed, template.Length - i - 1);
      assert more == Prefixed([a.value], rest);
      PrefixedTwice(l, [a.value], rest);
      if template[i].typ != a.value.typ {
        assert rest.Got? ==> (l + [a.value] + rest.value)[i] == a.value;
        return false, l;
      }
      template[i] := Fill(template[i], a.value);
      l := l + [a.value];
      i := i + 1;
    }
    assert l + [] == l;
    ok := true;
  }

  lemma FilledAll(now: seq<CkAttribute>, was: seq<CkAttribute>, l: seq<Attribute>)
    requires FilledTo(now, was, l) && |l| == |was|
    ensures SameTypes(was, l) && now == FillAll(was, l)
  {
  }

  /** The response of C_GetAttributeValue, step by step. */
  function AttributeReply(s: seq<Byte>, off: nat): Read<(seq<Attribute>, Ulong)> {
    match Uint32At(s, off)
    case Short => Short
    case Got(n, at) =>
      match DecodeAttributes(s, at, n)
      case Short => Short
      case Got(l, next) => match Uint64At(s, next) case Short => Short case Got(v, end) => Got((l, v), end)
  }

  lemma AttributeReplyForm(s: seq<Byte>, off: nat)
    ensures AttributeReply(s, off).Short? ==> DecodeAll([AA, U], s, off).Short?
    ensures AttributeReply(s, off).Got? ==>
      var r := AttributeReply(s, off);
      DecodeAll([AA, U], s, off) == Got([PAttributes(r.value.0), PUlong(r.value.1)], r.next)
  {
    hide DecodeAttributes, Uint32At, Uint64At;
    var ks := [AA, U];
    assert ks[0] == AA && ks[1..] == [U];
    var p := Decode(AA, s, off);
    if p.Got? {
      OnePart(U, s, p.next);
      var v := Decode(U, s, p.next);
      if v.Got? {
        assert [p.value] + [v.value] == [p.value, v.value];
        assert DecodeAll(ks, s, off) == Got([p.value] + [v.value], v.next);
      }
    }
  }

  lemma OnePart(k: Kind, s: seq<Byte>, off: nat)
    ensures Decode(k, s, off).Short? ==> DecodeAll([k], s, off).Short?
    ensures Decode(k, s, off).Got? ==> DecodeAll([k], s, off) == Got([Decode(k, s, off).value], Decode(k, s, off).next)
  {
    hide Decode;
    assert [k][1..] == [];
    var d := Decode(k, s, off);
    if d.Got? { assert DecodeAll([], s, d.next) == Got([], d.next) && [d.value] + [] == [d.value]; }
  }

  lemma AttributeReplyCodes()
    ensures Codes([AA, U]) == "aAu" && VerifyPart("aAu", Code(AA)) == Some("u") && VerifyPart("u", Code(U)) == Some("")
  {
    assert [AA, U][1..] == [U] && [U][1..] == [];
    assert Codes([U]) == "u" + Codes([]);
  }

  /**
    proto_read_attribute_array: fills in the template in place and returns the code sent with it. Whatever
    it returns, the entries of the attributes `l` it accepted are filled in and the others are as they were.
   */
  method ReadAttributeArrayInto(msg: Message, template: array<CkAttribute>) returns (rv: Ulong, ghost l: seq<Attribute>)
    requires msg.Valid() && msg.sigverify == Some(Codes([AA, U]))
    modifies msg, msg.buffer`failures, template
    ensures msg.Valid() && msg.Contents() == old(msg.Contents())
    ensures FilledTo(template[..], old(template[..]), l)
    ensures
      match DecodeAll([AA, U], msg.Contents(), old(msg.parsed))
      case Short => rv == Ckr.PARSE_ERROR
      case Got(ps, next) =>
        && rv == ReadAttributes(old(template[..]), Success(ps)).0
        && (SameTypes(old(template[..]), ps[0].attrs) ==>
              && msg.parsed == next && msg.IsVerified()
              && template[..] == ReadAttributes(old(template[..]), Success(ps)).1)
  {
    AttributeReplyForm(msg.Contents(), msg.parsed);
    AttributeReplyCodes();
    l := [];
    assert FilledTo(template[..], template[..], l);
    hide DecodeAll, DecodeAttributes, Codes, FilledTo, VerifyPart, Uint32At, Uint64At, FillAll, SameTypes;
    msg.Verify(AA);
    var n := msg.buffer.GetUint32(msg.parsed);
    if n.Short? { return Ckr.PARSE_ERROR, l; }
    msg.parsed := n.next;
    AttributeCount(msg.Contents(), n.next, n.value);
    if n.value != template.Length { return Ckr.PARSE_ERROR, l; }
    rv, l := FillAndCode(msg, template, n.value);
  }

  /** The attributes of a reply with the right number of them, and the code after them. */
  method FillAndCode(msg: Message, template: array<CkAttribute>, n: Uint32) returns (rv: Ulong, ghost l: seq<Attribute>)
    requires msg.Valid() && msg.Expects(U) && msg.sigverify == Some("u") && n == template.Length
    modifies msg, msg.buffer`failures, template
    ensures msg.Valid() && msg.Contents() == old(msg.Contents())
    ensures FilledTo(template[..], old(template[..]), l)
    ensures
      match DecodeAttributes(msg.Contents(), old(msg.parsed), n)
      case Short => rv == Ckr.PARSE_ERROR
      case Got(all, next) =>
        if !SameTypes(old(template[..]), all) then rv == Ckr.PARSE_ERROR
        else match Uint64At(msg.Contents(), next)
             case Short => rv == Ckr.PARSE_ERROR
             case Got(v, end) =>
               && rv == v && msg.parsed == end && msg.IsVerified()
               && template[..] == FillAll(old(template[..]), all)
  {
    AttributeReplyCodes();
    AttributeCount(msg.Contents(), msg.parsed, n);
    hide DecodeAttributes, FilledTo, VerifyPart, Uint64At, FillAll, SameTypes;
    ghost var was := template[..];
    var ok;
    ok, l := FillAttributes(msg, template);
    if !ok { return Ckr.PARSE_ERROR, l; }
    FilledAll(template[..], was, l);
    var v := msg.ReadUlong();
    if v.Err? { return Ckr.PARSE_ERROR, l; }
    rv := v.value.v;
  }

  // ----- Lists ------------------------------------------------------------------------------

  function List(arr: array?<Ulong>): seq<Ulong>
    reads arr
  {
    if arr == null then [] else arr[..]
  }

  /** One turn of the loop below: a failed read leaves a stale value behind and the loop goes on. */
  method ReadEntry(msg: Message, arr: array?<Ulong>, i: nat, stale: Ulong) returns (val: Ulong)
    requires msg.Valid() && (arr != null ==> i < arr.Length)
    modifies msg`parsed, msg.buffer`failures, arr
    ensures msg.Valid() && msg.Contents() == old(msg.Contents())
    ensures arr != null ==> arr[..] == old(arr[..])[i := val]
    ensures
      match Uint64At(msg.Contents(), old(msg.parsed))
      case Short => msg.buffer.failures > old(msg.buffer.failures) && msg.parsed == old(msg.parsed)
      case Got(v, next) => val == v && msg.parsed == next && msg.buffer.failures == old(msg.buffer.failures)
  {
    var v := msg.buffer.GetUint64(msg.parsed);
    val := stale;
    if v.Got? { msg.parsed, val := v.next, v.value; }
    if arr != null { arr[i] := val; }
  }

  /** The loop of proto_read_ulong_array: everything is read, into the list if there is one. */
  method FillUlongs(msg: Message, arr: array?<Ulong>, n: nat)
    requires msg.Valid() && msg.buffer.failures == 0 && (arr != null ==> n <= arr.Length)
    modifies msg`parsed, msg.buffer`failures, arr
    ensures msg.Valid() && msg.Contents() == old(msg.Contents())
    ensures
      match DecodeUlongs(msg.Contents(), old(msg.parsed), n)
      case Short => msg.buffer.failures > 0
      case Got(vs, next) =>
        && msg.buffer.failures == 0 && msg.parsed == next && |vs| == n
        && (arr != null ==> arr[..] == vs + old(List(arr))[n..])
  {
    ghost var s, was, all := msg.Contents(), List(arr), DecodeUlongs(msg.Contents(), msg.parsed, n);
    ghost var vs := [];
    var i, val := 0, 0;
    PrefixedNone(all);
    UlongCount(s, msg.parsed, n);
    hide Uint64At, DecodeUlongs;
    while i < n
      invariant 0 <= i <= n && msg.Valid() && msg.Contents() == s
      invariant msg.buffer.failures > 0 ==> all.Short?
      invariant msg.buffer.failures == 0 ==> |vs| == i && all == Prefixed(vs, DecodeUlongs(s, msg.parsed, n - i))
      invariant arr != null && msg.buffer.failures == 0 ==> arr[..] == vs + was[i..]
    {
      UlongsStep(vs, s, msg.parsed, n - i);
      val := ReadEntry(msg, arr, i, val);
      if msg.buffer.failures == 0 {
        Placed(vs, was, i, val);
        vs := vs + [val];
      }
      i := i + 1;
    }
    NoUlongs(vs, s, msg.parsed);
  }

  /** One more entry after those already read. */
  lemma UlongsStep(vs: seq<Ulong>, s: seq<Byte>, off: nat, n: nat)
    requires n > 0
    ensures Prefixed(vs, DecodeUlongs(s, off, n)) ==
            match Uint64At(s, off)
            case Short => Short
            case Got(v, next) => Prefixed(vs + [v], DecodeUlongs(s, next, n - 1))
  {
    hide Uint64At;
    match Uint64At(s, off)
    case Short =>
    case Got(v, next) =>
      assert DecodeUlongs(s, off, n) == Prefixed([v], DecodeUlongs(s, next, n - 1));
      PrefixedTwice(vs, [v], DecodeUlongs(s, next, n - 1));
  }

  lemma NoUlongs(vs: seq<Ulong>, s: seq<Byte>, off: nat)
    ensures Prefixed(vs, DecodeUlongs(s, off, 0)) == Got(vs, off)
  {
    assert vs + [] == vs;
  }

  lemma Placed(vs: seq<Ulong>, was: seq<Ulong>, i: nat, val: Ulong)
    ensures |vs| == i < |was| ==> (vs + was[i..])[i := val] == vs + [val] + was[i + 1..]
  {
  }

  /** The caller's list and count after the call are as `r` says, and the rest of the list is untouched. */
  ghost predicate Shows(r: ListResult, rv: Ulong, len: Ulong, now: seq<Ulong>, was: seq<Ulong>) {
    rv == r.rv && len == r.count && |r.list| <= |was| && now == r.list + was[|r.list|..]
  }

  /** proto_read_ulong_array: `arr` may be NULL, `max` is the caller's count and `len` what it becomes. */
  method ReadUlongArrayInto(msg: Message, arr: array?<Ulong>, max: Ulong) returns (rv: Ulong, len: Ulong)
    requires msg.Valid() && msg.Expects(AU) && msg.buffer.failures == 0
    requires arr != null ==> max <= arr.Length
    modifies msg, msg.buffer`failures, arr
    ensures msg.Valid() && msg.Contents() == old(msg.Contents())
    ensures
      match Decode(AU, msg.Contents(), old(msg.parsed))
      case Short => rv == Ckr.PARSE_ERROR || (rv == Ckr.BUFFER_TOO_SMALL && max < len)
      case Got(p, next) =>
        && Shows(ReadList(ListOutput(arr == null, max), Success([p])), rv, len, List(arr), old(List(arr)))
        && (rv != Ckr.BUFFER_TOO_SMALL ==> msg.parsed == next)
  {
    hide ByteAt, Uint32At, DecodeUlongs;
    len := max;
    msg.Verify(AU);
    var valid := msg.buffer.GetByte(msg.parsed);
    if valid.Short? { return Ckr.PARSE_ERROR, len; }
    msg.parsed := valid.next;
    var num := msg.buffer.GetUint32(msg.parsed);
    if num.Short? { return Ckr.PARSE_ERROR, len; }
    msg.parsed := num.next;
    len := num.value;
    UlongCount(msg.Contents(), num.next, num.value);
    if valid.value == 0 {
      rv := if arr != null then Ckr.BUFFER_TOO_SMALL else Ckr.OK;
      return;
    }
    if max < num.value { return Ckr.BUFFER_TOO_SMALL, len; }
    FillUlongs(msg, arr, num.value);
    rv := if msg.buffer.HasError() then Ckr.PARSE_ERROR else Ckr.OK;
  }

  lemma {:induction false} UlongCount(s: seq<Byte>, off: nat, n: nat)
    ensures DecodeUlongs(s, off, n).Got? ==> |DecodeUlongs(s, off, n).value| == n
    decreases n
  {
    hide Uint64At;
    if n == 0 {
    } else if Uint64At(s, off).Got? {
      UlongCount(s, Uint64At(s, off).next, n - 1);
    }
  }

  /** A list that is stored is complete and within the caller's count. */
  lemma ListFits(out: ListOutput, p: Part)
    ensures
      var r := ReadList(out, Success([p]));
      if r.rv == Ckr.OK && !out.isNull then p.PUlongs? && r.list == p.vs && r.count == |r.list| <= out.count
      else r.list == []
  {
  }

  /** A list that is to be purged: an entry goes only if the memory holds one more element than the list. */
  ghost predicate Purgeable(p: Read<Part>, arr: array?<Ulong>) {
    arr != null && p.Got? && p.value.PUlongs? ==>
      && |p.value.vs| < 0x8000_0000
      && (|p.value.vs| < arr.Length || forall v <- p.value.vs :: Mechanisms.IsSupported(v))
  }

  /** OUT_MECHANISM_TYPE_ARRAY: the list just read is purged in place. */
  method ReadMechanismListInto(msg: Message, arr: array?<Ulong>, max: Ulong) returns (rv: Ulong, len: Ulong)
    requires msg.Valid() && msg.Expects(AU) && msg.buffer.failures == 0
    requires arr != null ==> max <= arr.Length
    requires Purgeable(Decode(AU, msg.Contents(), msg.parsed), arr)
    modifies msg, msg.buffer`failures, arr
    ensures msg.Valid() && msg.Contents() == old(msg.Contents())
    ensures
      match Decode(AU, msg.Contents(), old(msg.parsed))
      case Short => rv == Ckr.PARSE_ERROR || (rv == Ckr.BUFFER_TOO_SMALL && max < len)
      case Got(p, next) =>
        var out := ListOutput(arr == null, max);
        var r := Purged(out, ReadList(out, Success([p])));
        rv == r.rv && len == r.count && |r.list| <= |List(arr)| && List(arr)[..|r.list|] == r.list
  {
    hide Decode, Mechanisms.Supported, Mechanisms.IsSupported, ReadList;
    rv, len := ReadUlongArrayInto(msg, arr, max);
    ghost var p := Decode(AU, msg.Contents(), old(msg.parsed));
    if p.Got? { ListFits(ListOutput(arr == null, max), p.value); }
    if rv == Ckr.OK && arr != null {
      ghost var l := ReadList(ListOutput(false, max), Success([p.value])).list;
      assert arr[..len] == l;
      assert forall i | 0 <= i < len :: arr[i] == l[i];
      len := Mechanisms.Purge(arr, len);
    }
  }
}
