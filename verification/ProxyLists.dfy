/** Calls that return a list of ulongs, and C_GetMechanismList, through the proxy against direct calls. */
module ProxyLists {
  import opened Bytes
  import opened Signature
  import opened Wire
  import opened Arguments
  import opened Proxy
  import opened Mechanisms
  import Ckr

  const GET_MECHANISM_LIST := 7

  /** The caller's list: NULL or a block, and the count it announces. */
  datatype ListOutput = ListOutput(isNull: bool, count: Ulong)

  datatype ListAnswer = ListAnswer(rv: Ulong, count: Ulong, list: seq<Ulong>)

  /** What a caller sees: the code, the count stored, and the entries placed in a non-NULL list. */
  datatype ListResult = ListResult(rv: Ulong, count: Ulong, list: seq<Ulong>)

  /** A list function of the module: its inputs, and NULL or the room. */
  type ListFunction = (seq<Part>, Option<Ulong>) -> ListAnswer

  function Room(out: ListOutput): Option<Ulong> {
    if out.isNull then None else Some(out.count)
  }

  predicate ConformingList(room: Option<Ulong>, a: ListAnswer) {
    if a.rv == Ckr.OK then
      if room.None? then a.count < TWO_32 && a.list == [] else a.count == |a.list| <= room.value
    else if a.rv == Ckr.BUFFER_TOO_SMALL then room.Some? && a.count < TWO_32 && a.list == []
    else a.rv < TWO_32
  }

  function DirectList(out: ListOutput, a: ListAnswer): ListResult {
    if a.rv == Ckr.OK || a.rv == Ckr.BUFFER_TOO_SMALL then ListResult(a.rv, a.count, a.list)
    else ListResult(a.rv, out.count, [])
  }

  /** IN_ULONG_BUFFER on the client. */
  function ListBufferPart(out: ListOutput): Part {
    PUlongBuffer(if out.isNull then 0 else Truncate32(out.count))
  }

  /** proto_read_ulong_buffer on the daemon: no room at all means NULL. */
  function RoomReceived(room: Uint32): Option<Ulong> {
    if room == 0 then None else Some(room)
  }

  /** The module is asked the caller's question exactly when a list is neither empty nor over 32 bits. */
  lemma RoomAgreesIff(out: ListOutput)
    ensures RoomReceived(ListBufferPart(out).room) == Room(out) <==> (!out.isNull ==> 0 < out.count < TWO_32)
  {
  }

  /** proto_write_ulong_array on the daemon, with its filter on the return code. */
  function FilterList(room: Option<Ulong>, a: ListAnswer): Reply {
    if a.rv != Ckr.OK && a.rv != Ckr.BUFFER_TOO_SMALL then Error(a.rv)
    else if room.None? || a.rv == Ckr.BUFFER_TOO_SMALL then Success([PNoUlongs(Truncate32(a.count))])
    else Success([PUlongs(a.list)])
  }

  function ServeList(id: int, ps: seq<Part>, oracle: ListFunction): Reply
    requires IsCall(id) && AllFit(ps)
  {
    match Received(id, ps)
    case Short => Error(Ckr.PARSE_ERROR)
    case Got((_, qs), _) =>
      if qs == [] || !qs[|qs| - 1].PUlongBuffer? then Error(Ckr.PARSE_ERROR)
      else
        var room := qs[|qs| - 1].room;
        if exists q <- qs :: !Granted(q) then Error(Ckr.DEVICE_MEMORY)
        else FilterList(RoomReceived(room), oracle(qs[..|qs| - 1], RoomReceived(room)))
  }

  /** OUT_ULONG_ARRAY and proto_read_ulong_array on the client. */
  function ReadList(out: ListOutput, r: Reply): ListResult {
    if r.Error? then ListResult(r.rv, out.count, [])
    else if |r.parts| != 1 then ListResult(Ckr.PARSE_ERROR, out.count, [])
    else match r.parts[0]
         case PNoUlongs(n) => ListResult(if out.isNull then Ckr.OK else Ckr.BUFFER_TOO_SMALL, n, [])
         case PUlongs(vs) =>
           if out.count < |vs| then ListResult(Ckr.BUFFER_TOO_SMALL, |vs| % TWO_64, [])
           else ListResult(Ckr.OK, |vs| % TWO_64, if out.isNull then [] else vs)
         case _ => ListResult(Ckr.PARSE_ERROR, out.count, [])
  }

  function ProxiedList(id: int, ins: seq<Part>, out: ListOutput, oracle: ListFunction): ListResult
    requires IsCall(id)
  {
    match Admitted(id, ins + [ListBufferPart(out)])
    case Err(rv) => ListResult(rv, out.count, [])
    case Ok(ps) => ReadList(out, Answered(id, ServeList(id, ps, oracle)))
  }

  /** The client sends the caller's own arguments. */
  lemma ListAdmitted(id: int, ins: seq<Part>, out: ListOutput)
    requires IsCall(id) && PartsOf(id, true) == Kinds(ins) + [FU] && forall p <- ins :: Passes(p)
    ensures Admitted(id, ins + [ListBufferPart(out)]) == Ok(ins + [ListBufferPart(out)])
  {
    hide PartsOf, AdmitAll, EntryCheck, Passes;
    BufferEntry(id, ins, ListBufferPart(out));
    AdmitAppend(ins, ListBufferPart(out));
    AdmitAllIff(ins);
  }

  /** A list is NULL, or has room for at least one entry and no more than call_alloc can provide. */
  predicate SoundList(out: ListOutput) {
    !out.isNull ==> 0 < out.count && Allocatable(out.count * 8)
  }

  /** Requests for lists are always short enough for the daemon. */
  lemma ListCarried(id: int, ins: seq<Part>, p: Part)
    requires IsCall(id) && PartsOf(id, true) == Kinds(ins) + [FU] && p.PUlongBuffer?
    ensures Kinds(ins + [p]) == Kinds(ins) + [FU] && Carried(id, ins + [p])
  {
    var ks := CallOf(id).request;
    assert ks[|ks| - 1] == FU;
    hide CallOf, PartsOf, Carried;
    KindsSplit(ins, [p]);
    assert Kinds([p]) == [FU] + Kinds([]);
    assert Kinds(ins)[0] == KindOf(ins[0]);
    assert forall q <- ins + [p] :: |Encode(q)| <= 13;
    SmallCarried(id, ins + [p]);
  }

  /** Whatever the room, the module is asked what the wire made of it. */
  lemma ServedRoom(id: int, ins: seq<Part>, out: ListOutput, oracle: ListFunction)
    requires IsCall(id) && PartsOf(id, true) == Kinds(ins) + [FU] && forall p <- ins :: Passes(p) && Granted(p)
    requires Granted(ListBufferPart(out))
    ensures AllFit(ins + [ListBufferPart(out)])
    ensures
      var room := RoomReceived(ListBufferPart(out).room);
      ServeList(id, ins + [ListBufferPart(out)], oracle) == FilterList(room, oracle(ins, room))
  {
    hide Received, Carried, PartsOf, FilterList, Granted, Passes, Kinds;
    var p := ListBufferPart(out);
    var ps := ins + [p];
    PassingFit(ins);
    ListCarried(id, ins, p);
    ReceivedIff(id, ps);
    assert ps[..|ps| - 1] == ins;
  }

  lemma ServedList(id: int, ins: seq<Part>, out: ListOutput, oracle: ListFunction)
    requires IsCall(id) && PartsOf(id, true) == Kinds(ins) + [FU] && forall p <- ins :: Passes(p) && Granted(p)
    requires SoundList(out)
    ensures AllFit(ins + [ListBufferPart(out)])
    ensures ServeList(id, ins + [ListBufferPart(out)], oracle) == FilterList(Room(out), oracle(ins, Room(out)))
  {
    hide ServeList, PartsOf, FilterList;
    ServedRoom(id, ins, out, oracle);
    RoomAgreesIff(out);
  }

  lemma {:induction false} UlongsSize(vs: seq<Ulong>)
    ensures |EncodeUlongs(vs)| == 8 * |vs|
  {
    if vs == [] {
    } else {
      UlongsSize(vs[1..]);
    }
  }

  lemma ListReplySize(p: Part)
    requires p.PNoUlongs? || (p.PUlongs? && Allocatable(|p.vs| * 8))
    ensures |Encode(p)| <= 0xffff_ff00
  {
    if p.PUlongs? { UlongsSize(p.vs); }
  }

  lemma FilteredList(id: int, out: ListOutput, a: ListAnswer)
    requires IsCall(id) && PartsOf(id, false) == [AU]
    requires SoundList(out) && ConformingList(Room(out), a)
    ensures ReadList(out, Answered(id, FilterList(Room(out), a))) == DirectList(out, a)
  {
    var r := FilterList(Room(out), a);
    hide CallRun, ReplyBytes, PartsOf, Encode, Answered, Fits, Kinds, ReadList, DirectList;
    if r.Success? {
      ListReplyArrives(id, r.parts[0]);
    } else {
      ErrorReplyShort(id, r);
      AnsweredShort(id, r);
      ReplyArrives(id, r);
    }
    ListShown(out, a);
  }

  lemma ListReplyArrives(id: int, p: Part)
    requires IsCall(id) && PartsOf(id, false) == [AU]
    requires p.PNoUlongs? || (p.PUlongs? && Allocatable(|p.vs| * 8))
    ensures Answered(id, Success([p])) == Success([p])
  {
    hide CallRun, ReplyBytes, PartsOf;
    var r := Success([p]);
    assert Kinds(r.parts) == [AU] + Kinds([]);
    ListReplySize(p);
    OnePartShort(id, r);
    AnsweredShort(id, r);
    ReplyArrives(id, r);
  }

  lemma ListShown(out: ListOutput, a: ListAnswer)
    requires SoundList(out) && ConformingList(Room(out), a)
    ensures
      var r := FilterList(Room(out), a);
      ReadList(out, if r.Error? then Error(a.rv) else r) == DirectList(out, a)
  {
  }

  /** Transparency for ulong lists. */
  lemma TransparentList(id: int, ins: seq<Part>, out: ListOutput, oracle: ListFunction)
    requires IsCall(id) && PartsOf(id, true) == Kinds(ins) + [FU] && PartsOf(id, false) == [AU]
    requires forall p <- ins :: Passes(p) && Granted(p)
    requires SoundList(out) && ConformingList(Room(out), oracle(ins, Room(out)))
    ensures ProxiedList(id, ins, out, oracle) == DirectList(out, oracle(ins, Room(out)))
  {
    hide Answered, ServeList, PartsOf, FilterList, DirectList, ReadList, Admitted, Passes, Granted;
    ListAdmitted(id, ins, out);
    ServedList(id, ins, out, oracle);
    FilteredList(id, out, oracle(ins, Room(out)));
  }

  /**
    The same with the conventions and codes spelled out: NULL gets the number of entries, a list its entries, one
    that is too small (0x150) their number; after any other code the count is as it was and nothing is stored.
   */
  lemma ListCases(id: int, ins: seq<Part>, out: ListOutput, oracle: ListFunction)
    requires IsCall(id) && PartsOf(id, true) == Kinds(ins) + [FU] && PartsOf(id, false) == [AU]
    requires (forall p <- ins :: Passes(p) && Granted(p)) && (out.isNull || 0 < out.count <= 0xfff_ffff)
    requires
      var a := oracle(ins, if out.isNull then None else Some(out.count));
      && a.rv < 0x1_0000_0000 && a.count < 0x1_0000_0000
      && (a.rv == 0 ==> if out.isNull then a.list == [] else a.count == |a.list| <= out.count)
      && (a.rv == 0x150 ==> !out.isNull && a.list == [])
    ensures
      var a := oracle(ins, if out.isNull then None else Some(out.count));
      ProxiedList(id, ins, out, oracle)
      == ListResult(a.rv, if a.rv == 0 || a.rv == 0x150 then a.count else out.count, if a.rv == 0 then a.list else [])
  {
    hide Answered, ServeList, PartsOf, FilterList, ReadList, Admitted, Passes, Granted, ProxiedList;
    TransparentList(id, ins, out, oracle);
  }

  // ----- A list without room ------------------------------------------------------------------

  /** A module with `n` entries to return, asked for their number or to fill a list without room. */
  predicate HoldsEntries(ins: seq<Part>, oracle: ListFunction, n: Uint32) {
    && oracle(ins, None) == ListAnswer(Ckr.OK, n, [])
    && oracle(ins, Some(0)) == ListAnswer(if n == 0 then Ckr.OK else Ckr.BUFFER_TOO_SMALL, n, [])
  }

  /**
    A non-NULL list without room is taken for a size query, and the client makes "too small" of the answer.
    The caller notices exactly when there was nothing to return.
   */
  lemma EmptyListIff(id: int, ins: seq<Part>, oracle: ListFunction, n: Uint32)
    requires IsCall(id) && PartsOf(id, true) == Kinds(ins) + [FU] && PartsOf(id, false) == [AU]
    requires (forall p <- ins :: Passes(p) && Granted(p)) && HoldsEntries(ins, oracle, n)
    ensures
      var out := ListOutput(false, 0);
      && ConformingList(Room(out), oracle(ins, Room(out)))
      && (ProxiedList(id, ins, out, oracle) == DirectList(out, oracle(ins, Room(out))) <==> n > 0)
  {
    hide CallRun, ReplyBytes, ServeList, PartsOf, Admitted, Passes;
    var out := ListOutput(false, 0);
    ListAdmitted(id, ins, out);
    ServedRoom(id, ins, out, oracle);
    var r := Success([PNoUlongs(n)]);
    assert Kinds(r.parts) == [AU] + Kinds([]);
    OnePartShort(id, r);
    AnsweredShort(id, r);
    ReplyArrives(id, r);
  }

  /** OUT_MECHANISM_TYPE_ARRAY: the list just read is purged in place if there is one. */
  function Purged(out: ListOutput, r: ListResult): ListResult {
    if r.rv == Ckr.OK && !out.isNull then ListResult(r.rv, |Supported(r.list)| % TWO_64, Supported(r.list)) else r
  }

  function ProxiedMechanismList(slot: Ulong, out: ListOutput, oracle: ListFunction): ListResult {
    Purged(out, ProxiedList(GET_MECHANISM_LIST, [PUlong(slot)], out, oracle))
  }

  lemma MechanismListParts(slot: Ulong)
    ensures PartsOf(GET_MECHANISM_LIST, true) == Kinds([PUlong(slot)]) + [FU]
    ensures PartsOf(GET_MECHANISM_LIST, false) == [AU]
  {
    assert Kinds([PUlong(slot)]) == [U] + Kinds([]) && [U] + [FU] == [U, FU];
  }

  /** C_GetMechanismList yields the module's list without the unsupported mechanisms, in order. */
  lemma MechanismListFiltered(slot: Ulong, out: ListOutput, oracle: ListFunction)
    requires SoundList(out) && ConformingList(Room(out), oracle([PUlong(slot)], Room(out)))
    ensures
      var direct := DirectList(out, oracle([PUlong(slot)], Room(out)));
      ProxiedMechanismList(slot, out, oracle) ==
      if direct.rv == Ckr.OK && !out.isNull then ListResult(Ckr.OK, |Supported(direct.list)|, Supported(direct.list))
      else direct
  {
    hide ProxiedList, Supported, PartsOf, Kinds;
    MechanismListParts(slot);
    TransparentList(GET_MECHANISM_LIST, [PUlong(slot)], out, oracle);
  }
}
