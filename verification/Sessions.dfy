/**
  The daemon's per-connection session table (gck-rpc-dispatch.c): what the calls do to the table and to
  the real module, and what that guarantees over every run.
 */
module Sessions {
  import opened Bytes
  import Ckr

  const MAX_SESSION_COUNT := 256

  type Handle = Ulong
  type Slot = Ulong

  /** SessionState; the entry is free when the id is 0. */
  datatype Entry = Entry(id: Handle, slot: Slot)

  /** A C_CloseSession call on the real module and its result. */
  datatype CloseCall = CloseCall(handle: Handle, rv: Ulong)

  /** What else the real module is asked, and its answers: C_OpenSession and C_GetSlotInfo. */
  datatype Ask = OpenAsk(slot: Slot, rv: Ulong, handle: Handle) | SlotAsk(slot: Slot, rv: Ulong)

  /** Which entries a sweep closes: those of one slot (C_CloseAllSessions) or all (C_Finalize). */
  datatype Sweep = OfSlot(slot: Slot) | Every

  // ----- What the calls do to the table -----------------------------------------------------

  predicate FirstWith(t: seq<Entry>, i: nat, id: Handle) {
    i < |t| && t[i].id == id && forall j | 0 <= j < i :: t[j].id != id
  }

  predicate Absent(t: seq<Entry>, id: Handle) {
    forall j | 0 <= j < |t| :: t[j].id != id
  }

  /** A session the module has opened goes to the first free entry, or is refused if there is none. */
  ghost predicate Recorded(t: seq<Entry>, t': seq<Entry>, h: Handle, slot: Slot, rv: Ulong) {
    if Absent(t, 0) then t' == t && rv == Ckr.SESSION_COUNT
    else rv == Ckr.OK && exists i: nat :: FirstWith(t, i, 0) && t' == t[i := Entry(h, slot)]
  }

  /** A session the module has closed is removed from the table, if it is there. */
  ghost predicate Forgotten(t: seq<Entry>, t': seq<Entry>, h: Handle) {
    if Absent(t, h) then t' == t
    else exists i: nat :: FirstWith(t, i, h) && t' == t[i := Entry(0, t[i].slot)]
  }

  predicate Hit(e: Entry, w: Sweep) {
    e.id != 0 && (w.OfSlot? ==> e.slot == w.slot)
  }

  /** The sessions a sweep has to close, in table order. */
  function Hits(t: seq<Entry>, w: Sweep): seq<Handle> {
    if t == [] then []
    else Hits(t[..|t| - 1], w) + if Hit(t[|t| - 1], w) then [t[|t| - 1].id] else []
  }

  function Handles(hs: seq<Handle>): set<Handle> {
    set h | h in hs
  }

  /** The table with the hits among its first `m` entries cleared. */
  function Cleared(t: seq<Entry>, w: Sweep, m: nat): (r: seq<Entry>)
    ensures |r| == |t|
    ensures forall i | 0 <= i < |t| :: r[i] == if i < m && Hit(t[i], w) then Entry(0, t[i].slot) else t[i]
  {
    seq(|t|, i requires 0 <= i < |t| => if i < m && Hit(t[i], w) then Entry(0, t[i].slot) else t[i])
  }

  function Closed(hs: seq<Handle>): (r: seq<CloseCall>)
    ensures |r| == |hs| && forall i | 0 <= i < |hs| :: r[i] == CloseCall(hs[i], Ckr.OK)
  {
    seq(|hs|, i requires 0 <= i < |hs| => CloseCall(hs[i], Ckr.OK))
  }

  /** The codes after which a failed close still frees the entry. */
  predicate Clears(w: Sweep, rv: Ulong) {
    rv == Ckr.OK || (w.OfSlot? && (rv == Ckr.SESSION_CLOSED || rv == Ckr.SESSION_HANDLE_INVALID))
  }

  /**
    A sweep closed the hits among the first `m` entries in table order, each successfully. With CKR_OK
    that is the whole table; otherwise it stopped at entry `m`, a hit, whose close gave the code.
   */
  ghost predicate Swept(t: seq<Entry>, t': seq<Entry>, w: Sweep, calls: seq<CloseCall>, rv: Ulong, m: nat) {
    if rv == Ckr.OK then
      m == |t| && t' == Cleared(t, w, m) && calls == Closed(Hits(t, w))
    else
      && m < |t| && Hit(t[m], w)
      && calls == Closed(Hits(t[..m], w)) + [CloseCall(t[m].id, rv)]
      && t' == if Clears(w, rv) then Cleared(t, w, m)[m := Entry(0, t[m].slot)] else Cleared(t, w, m)
  }

  /**
    What a sweep means for the module: the sessions closed were open and no longer are, and one it calls
    closed or invalid is not open.
   */
  ghost predicate Answers(t: seq<Entry>, w: Sweep, open: set<Handle>, open': set<Handle>, rv: Ulong, m: nat) {
    && m <= |t|
    && open' == open - Handles(Hits(t[..m], w)) && Handles(Hits(t[..m], w)) <= open
    && (rv == Ckr.SESSION_CLOSED || rv == Ckr.SESSION_HANDLE_INVALID ==> m < |t| && t[m].id !in open')
  }

  /** One more entry of a sweep. */
  lemma SweepOne(t: seq<Entry>, w: Sweep, i: nat)
    requires i < |t|
    ensures Hits(t[..i + 1], w) == Hits(t[..i], w) + if Hit(t[i], w) then [t[i].id] else []
    ensures Cleared(t, w, i + 1) == if Hit(t[i], w) then Cleared(t, w, i)[i := Entry(0, t[i].slot)] else Cleared(t, w, i)
    ensures Cleared(t, w, i)[i] == t[i]
  {
    assert t[..i + 1][..i] == t[..i];
  }

  /**
    What a sweep does to each entry, with the codes spelled out: those before the one it stopped at are free
    if they match, that one only after CKR_SESSION_CLOSED or CKR_SESSION_HANDLE_INVALID in C_CloseAllSessions,
    and the others are as they were.
   */
  lemma SweepEffect(t: seq<Entry>, t': seq<Entry>, w: Sweep, calls: seq<CloseCall>, rv: Ulong, m: nat, i: nat)
    requires Swept(t, t', w, calls, rv, m) && i < |t|
    ensures |t'| == |t| && t'[i].slot == t[i].slot
    ensures
      var matches := t[i].id != 0 && (w == Every || w == OfSlot(t[i].slot));
      var freed := matches && (rv == 0 || i < m || (i == m && w != Every && (rv == 0xb0 || rv == 0xb3)));
      t'[i].id == if freed then 0 else t[i].id
  {
    hide Hits, Closed;
  }

  lemma NothingClosed()
    ensures Closed([]) == [] && Handles([]) == {}
  {
  }

  lemma ClosedOne(hs: seq<Handle>, h: Handle)
    ensures Closed(hs + [h]) == Closed(hs) + [CloseCall(h, Ckr.OK)]
    ensures Handles(hs + [h]) == Handles(hs) + {h}
  {
  }

  // ----- The calls themselves ---------------------------------------------------------------

  lemma Suffix(before: seq<CloseCall>, more: seq<CloseCall>)
    ensures (before + more)[..|before|] == before && (before + more)[|before|..] == more
  {
  }

  /** The real module as far as sessions go: which are open, every close it was asked for, and what else. */
  class Module {
    var open: set<Handle>
    var closes: seq<CloseCall>
    var asked: seq<Ask>

    constructor ()
      ensures open == {} && closes == [] && asked == []
    {
      open, closes, asked := {}, [], [];
    }

    /** Any code, or a fresh non-zero handle. */
    method OpenSession(slot: Slot) returns (rv: Ulong, h: Handle)
      modifies this`open, this`asked
      ensures asked == old(asked) + [OpenAsk(slot, rv, h)]
      ensures rv == Ckr.OK ==> h != 0 && h !in old(open) && open == old(open) + {h}
      ensures rv != Ckr.OK ==> open == old(open)
    {
      rv := *;
      h := *;
      if rv == Ckr.OK {
        if h == 0 || h in open { rv := Ckr.GENERAL_ERROR; } else { open := open + {h}; }
      }
      asked := asked + [OpenAsk(slot, rv, h)];
    }

    /** C_GetSlotInfo: any code. */
    method GetSlotInfo(slot: Slot) returns (rv: Ulong)
      modifies this`asked
      ensures asked == old(asked) + [SlotAsk(slot, rv)]
    {
      rv := *;
      asked := asked + [SlotAsk(slot, rv)];
    }

    /** Success closes an open session; "closed" and "invalid" are said only of sessions that are not open. */
    method CloseSession(h: Handle) returns (rv: Ulong)
      modifies this`open, this`closes
      ensures closes == old(closes) + [CloseCall(h, rv)]
      ensures rv == Ckr.OK ==> h in old(open) && open == old(open) - {h}
      ensures rv != Ckr.OK ==> open == old(open)
      ensures rv == Ckr.SESSION_CLOSED || rv == Ckr.SESSION_HANDLE_INVALID ==> h !in open
    {
      rv := *;
      if h in open {
        if rv == Ckr.OK { open := open - {h}; }
        else if rv == Ckr.SESSION_CLOSED || rv == Ckr.SESSION_HANDLE_INVALID { rv := Ckr.GENERAL_ERROR; }
      } else if rv == Ckr.OK {
        rv := Ckr.SESSION_HANDLE_INVALID;
      }
      closes := closes + [CloseCall(h, rv)];
    }
  }

  /** The sessions[] array of a connection's CallState. */
  class SessionTable {
    const sessions: array<Entry>

    constructor ()
      ensures fresh(sessions) && sessions.Length == 256
      ensures forall i | 0 <= i < sessions.Length :: sessions[i].id == 0
    {
      sessions := new Entry[MAX_SESSION_COUNT](_ => Entry(0, 0));
    }

    /** rpc_C_OpenSession. */
    method OpenSession(mod: Module, slot: Slot) returns (rv: Ulong, h: Handle)
      modifies mod`open, mod`asked, sessions
      ensures |mod.asked| == |old(mod.asked)| + 1 && mod.asked[..|old(mod.asked)|] == old(mod.asked)
      ensures
        var a := mod.asked[|old(mod.asked)|];
        && a.OpenAsk? && a.slot == slot && a.handle == h && (a.rv == Ckr.OK <==> mod.open != old(mod.open))
        && (a.rv != Ckr.OK ==> rv == a.rv)
      ensures mod.open == old(mod.open) ==> rv != Ckr.OK && sessions[..] == old(sessions[..])
      ensures mod.open != old(mod.open) ==> h != 0 && h !in old(mod.open) && mod.open == old(mod.open) + {h}
      ensures mod.open != old(mod.open) ==> Recorded(old(sessions[..]), sessions[..], h, slot, rv)
    {
      rv, h := mod.OpenSession(slot);
      if rv == Ckr.OK {
        ghost var t := sessions[..];
        var i := 0;
        while i < sessions.Length
          invariant 0 <= i <= sessions.Length && sessions[..] == t
          invariant forall j | 0 <= j < i :: t[j].id != 0
        {
          if sessions[i].id == 0 {
            assert FirstWith(t, i, 0);
            sessions[i] := Entry(h, slot);
            assert sessions[..] == t[i := Entry(h, slot)];
            break;
          }
          i := i + 1;
        }
        if i == sessions.Length { rv := Ckr.SESSION_COUNT; }
      }
    }

    /** rpc_C_CloseSession. */
    method CloseSession(mod: Module, h: Handle) returns (rv: Ulong)
      modifies mod`open, mod`closes, sessions
      ensures mod.closes == old(mod.closes) + [CloseCall(h, rv)]
      ensures rv == Ckr.OK ==> h in old(mod.open) && mod.open == old(mod.open) - {h}
      ensures rv == Ckr.OK ==> Forgotten(old(sessions[..]), sessions[..], h)
      ensures rv != Ckr.OK ==> mod.open == old(mod.open) && sessions[..] == old(sessions[..])
    {
      rv := mod.CloseSession(h);
      if rv == Ckr.OK {
        ghost var t := sessions[..];
        var i := 0;
        while i < sessions.Length
          invariant 0 <= i <= sessions.Length && sessions[..] == t
          invariant forall j | 0 <= j < i :: t[j].id != h
        {
          if sessions[i].id == h {
            assert FirstWith(t, i, h);
            sessions[i] := Entry(0, sessions[i].slot);
            assert sessions[..] == t[i := Entry(0, t[i].slot)];
            break;
          }
          i := i + 1;
        }
      }
    }

    /** One entry of a sweep. */
    method CloseEntry(mod: Module, w: Sweep, i: nat) returns (rv: Ulong)
      requires i < sessions.Length
      modifies mod`open, mod`closes, sessions
      ensures mod.closes == old(mod.closes) + [CloseCall(old(sessions[i].id), rv)]
      ensures mod.open == if rv == Ckr.OK then old(mod.open) - {old(sessions[i].id)} else old(mod.open)
      ensures rv == Ckr.OK ==> old(sessions[i].id) in old(mod.open)
      ensures rv == Ckr.SESSION_CLOSED || rv == Ckr.SESSION_HANDLE_INVALID ==> old(sessions[i].id) !in mod.open
      ensures sessions[..] == if Clears(w, rv) then old(sessions[..])[i := Entry(0, old(sessions[i].slot))] else old(sessions[..])
    {
      rv := mod.CloseSession(sessions[i].id);
      if Clears(w, rv) {
        sessions[i] := Entry(0, sessions[i].slot);
      }
    }

    /** The loop shared by rpc_C_CloseAllSessions and rpc_C_Finalize. */
    method CloseHits(mod: Module, w: Sweep) returns (rv: Ulong, ghost m: nat)
      modifies mod`open, mod`closes, sessions
      ensures |mod.closes| >= |old(mod.closes)| && mod.closes[..|old(mod.closes)|] == old(mod.closes)
      ensures Swept(old(sessions[..]), sessions[..], w, mod.closes[|old(mod.closes)|..], rv, m)
      ensures Answers(old(sessions[..]), w, old(mod.open), mod.open, rv, m)
    {
      ghost var t, before := sessions[..], mod.closes;
      assert Hits(t[..0], w) == [] && Cleared(t, w, 0) == t && t[..|t|] == t;
      hide Hits, Cleared, Closed, Handles;
      assert Closed([]) == [] && Handles([]) == {} by { NothingClosed(); }
      var i := 0;
      rv := Ckr.OK;
      while i < sessions.Length
        invariant 0 <= i <= sessions.Length && rv == Ckr.OK
        invariant sessions[..] == Cleared(t, w, i)
        invariant mod.closes == before + Closed(Hits(t[..i], w))
        invariant mod.open == old(mod.open) - Handles(Hits(t[..i], w)) && Handles(Hits(t[..i], w)) <= old(mod.open)
      {
        SweepOne(t, w, i);
        assert sessions[i] == sessions[..][i] == t[i];
        if Hit(sessions[i], w) {
          ghost var hs := Hits(t[..i], w);
          ClosedOne(hs, t[i].id);
          rv := CloseEntry(mod, w, i);
          assert mod.closes == before + (Closed(hs) + [CloseCall(t[i].id, rv)]);
          if rv != Ckr.OK {
            m := i;
            Suffix(before, Closed(hs) + [CloseCall(t[i].id, rv)]);
            return;
          }
          assert mod.open == old(mod.open) - (Handles(hs) + {t[i].id});
        }
        i := i + 1;
      }
      m := |t|;
      Suffix(before, Closed(Hits(t, w)));
    }

    /** rpc_C_CloseAllSessions: nothing at all if C_GetSlotInfo does not know the slot. */
    method CloseAllSessions(mod: Module, slot: Slot) returns (rv: Ulong)
      modifies mod`open, mod`closes, mod`asked, sessions
      ensures |mod.asked| == |old(mod.asked)| + 1 && mod.asked[..|old(mod.asked)|] == old(mod.asked)
      ensures mod.asked[|old(mod.asked)|].SlotAsk? && mod.asked[|old(mod.asked)|].slot == slot
      ensures
        var c := mod.asked[|old(mod.asked)|].rv;
        c != Ckr.OK ==>
          rv == c && sessions[..] == old(sessions[..]) && mod.open == old(mod.open) && mod.closes == old(mod.closes)
      ensures
        mod.asked[|old(mod.asked)|].rv == Ckr.OK ==>
          && |mod.closes| >= |old(mod.closes)| && mod.closes[..|old(mod.closes)|] == old(mod.closes)
          && exists m: nat ::
               && Swept(old(sessions[..]), sessions[..], OfSlot(slot), mod.closes[|old(mod.closes)|..], rv, m)
               && Answers(old(sessions[..]), OfSlot(slot), old(mod.open), mod.open, rv, m)
    {
      rv := mod.GetSlotInfo(slot);
      if rv == Ckr.OK {
        ghost var m;
        rv, m := CloseHits(mod, OfSlot(slot));
      }
    }

    /** rpc_C_Finalize as far as this connection's sessions go; call_uninit runs it when the loop ends. */
    method Finalize(mod: Module) returns (rv: Ulong)
      modifies mod`open, mod`closes, sessions
      ensures |mod.closes| >= |old(mod.closes)| && mod.closes[..|old(mod.closes)|] == old(mod.closes)
      ensures exists m: nat ::
        && Swept(old(sessions[..]), sessions[..], Every, mod.closes[|old(mod.closes)|..], rv, m)
        && Answers(old(sessions[..]), Every, old(mod.open), mod.open, rv, m)
      ensures rv == Ckr.OK ==> forall i | 0 <= i < sessions.Length :: sessions[i].id == 0
    {
      ghost var m;
      rv, m := CloseHits(mod, Every);
      assert forall i | 0 <= i < sessions.Length :: sessions[i] == sessions[..][i];
    }
  }
}
