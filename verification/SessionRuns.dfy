/** Runs of the session table: refinement, conservation up to teardown, and isolation of connections. */
module SessionRuns {
  import opened Bytes
  import opened Sessions
  import Ckr

  // ----- One connection ---------------------------------------------------------------------

  /**
    A connection and the module: the table, the sessions open in the module, and what the table should
    say: the sessions opened here and not yet closed, with their slots. `entered` and `closed` record
    every session that entered the table and every one the module closed out of it.
   */
  datatype Link = Link(table: seq<Entry>, open: set<Handle>, tracked: map<Handle, Slot>, entered: multiset<Handle>,
                       closed: multiset<Handle>)

  predicate Empty(t: seq<Entry>) {
    forall i | 0 <= i < |t| :: t[i].id == 0
  }

  ghost predicate Start(l: Link) {
    |l.table| == MAX_SESSION_COUNT && Empty(l.table) && l.tracked == map[] && l.entered == multiset{} && l.closed == multiset{}
  }

  datatype Event =
    | Open(slot: Slot, h: Handle)
    | Close(h: Handle, rv: Ulong)
    | CloseSet(w: Sweep, calls: seq<CloseCall>, rv: Ulong, m: nat)
    | Others

  /** What the module may say to the closes of a sweep, given which sessions are open. */
  predicate Conforming(open: set<Handle>, calls: seq<CloseCall>) {
    forall c <- calls ::
      && (c.rv == Ckr.OK ==> c.handle in open)
      && (c.rv == Ckr.SESSION_CLOSED || c.rv == Ckr.SESSION_HANDLE_INVALID ==> c.handle !in open)
  }

  ghost predicate Next(l: Link, e: Event, l': Link) {
    match e
    case Open(slot, h) =>
      && h != 0 && h !in l.open && l'.open == l.open + {h} && l'.closed == l.closed
      && (if Absent(l.table, 0) then
            Recorded(l.table, l'.table, h, slot, Ckr.SESSION_COUNT) && l'.tracked == l.tracked && l'.entered == l.entered
          else
            && Recorded(l.table, l'.table, h, slot, Ckr.OK)
            && l'.tracked == l.tracked[h := slot] && l'.entered == l.entered + multiset{h})
    case Close(h, rv) =>
      if rv != Ckr.OK then l' == l
      else
        && h in l.open && l'.open == l.open - {h} && Forgotten(l.table, l'.table, h) && l'.entered == l.entered
        && l'.tracked == l.tracked - {h}
        && l'.closed == l.closed + if h in l.tracked then multiset{h} else multiset{}
    case CloseSet(w, calls, rv, m) =>
      && Conforming(l.open, calls) && Swept(l.table, l'.table, w, calls, rv, m)
      && var hs := Hits(l.table[..m], w);
      && l'.open == l.open - Handles(hs) && l'.entered == l.entered
      && l'.tracked == l.tracked - Handles(hs) && l'.closed == l.closed + multiset(hs)
    case Others =>
      // anyone else opens and closes sessions, but not those of this connection
      l' == l.(open := l'.open) && l.tracked.Keys <= l'.open
  }

  /** The table holds exactly the tracked sessions, each once and with its slot. */
  ghost predicate Tracks(t: seq<Entry>, tracked: map<Handle, Slot>) {
    && (forall i, j | 0 <= i < j < |t| && t[i].id != 0 :: t[i].id != t[j].id)
    && (forall i | 0 <= i < |t| && t[i].id != 0 :: t[i].id in tracked && tracked[t[i].id] == t[i].slot)
    && (forall h | h in tracked :: h != 0 && !Absent(t, h))
  }

  ghost predicate Inv(l: Link) {
    && |l.table| == MAX_SESSION_COUNT
    && Tracks(l.table, l.tracked)
    && l.tracked.Keys <= l.open
    && Balanced(l)
  }

  /** Each session was closed as often as it entered the table, but for the one it is there now. */
  ghost predicate Balanced(l: Link) {
    forall h :: l.entered[h] == l.closed[h] + if h in l.tracked then 1 else 0
  }

  lemma OpenTracks(t: seq<Entry>, tracked: map<Handle, Slot>, i: nat, h: Handle, slot: Slot)
    requires Tracks(t, tracked) && i < |t| && t[i].id == 0 && h != 0 && h !in tracked
    ensures Tracks(t[i := Entry(h, slot)], tracked[h := slot])
  {
    var t' := t[i := Entry(h, slot)];
    assert t'[i].id == h;
    forall g | g in tracked[h := slot] && g != h ensures !Absent(t', g) {
      var j :| 0 <= j < |t| && t[j].id == g;
      assert t'[j].id == g;
    }
  }

  lemma OpenKeeps(l: Link, slot: Slot, h: Handle, l': Link)
    requires Inv(l) && Next(l, Open(slot, h), l')
    ensures Inv(l')
  {
    hide Tracks, Absent;
    if !Absent(l.table, 0) {
      var i: nat :| FirstWith(l.table, i, 0) && l'.table == l.table[i := Entry(h, slot)];
      OpenTracks(l.table, l.tracked, i, h, slot);
    }
  }

  lemma CloseTracks(t: seq<Entry>, tracked: map<Handle, Slot>, t': seq<Entry>, h: Handle)
    requires Tracks(t, tracked) && Forgotten(t, t', h) && h != 0
    ensures Tracks(t', tracked - {h}) && |t'| == |t|
  {
    forall i | 0 <= i < |t'| && t'[i].id != 0 ensures t'[i] == t[i] && t[i].id != h {
    }
    forall g | g in tracked - {h} ensures !Absent(t', g) {
      var j :| 0 <= j < |t| && t[j].id == g;
      assert t'[j].id == g;
    }
  }

  /** Closing the invalid handle 0, which the table uses for free entries, changes nothing. */
  lemma CloseNothing(t: seq<Entry>, tracked: map<Handle, Slot>, t': seq<Entry>)
    requires Tracks(t, tracked) && Forgotten(t, t', 0)
    ensures t' == t && tracked - {0} == tracked
  {
  }

  lemma CloseKeeps(l: Link, h: Handle, l': Link)
    requires Inv(l) && Next(l, Close(h, Ckr.OK), l')
    ensures Inv(l')
  {
    if h == 0 {
      CloseNothing(l.table, l.tracked, l'.table);
    } else {
      CloseTracks(l.table, l.tracked, l'.table, h);
    }
    hide Tracks, Forgotten;
  }

  lemma {:induction false} HitsWhere(t: seq<Entry>, w: Sweep, h: Handle)
    ensures h in Hits(t, w) <==> exists i :: 0 <= i < |t| && Hit(t[i], w) && t[i].id == h
  {
    if t == [] {
    } else {
      var n := |t| - 1;
      HitsWhere(t[..n], w, h);
      assert forall i | 0 <= i < n :: t[..n][i] == t[i];
    }
  }

  /** A table without duplicates gives a sweep without duplicates. */
  lemma {:induction false} HitsOnce(t: seq<Entry>, w: Sweep, h: Handle)
    requires forall i, j | 0 <= i < j < |t| && t[i].id != 0 :: t[i].id != t[j].id
    ensures multiset(Hits(t, w))[h] == if h in Hits(t, w) then 1 else 0
  {
    if t == [] {
    } else {
      var n := |t| - 1;
      assert forall i | 0 <= i < n :: t[..n][i] == t[i];
      HitsOnce(t[..n], w, h);
      HitsWhere(t[..n], w, t[n].id);
      var init := Hits(t[..n], w);
      var last: seq<Handle> := if Hit(t[n], w) then [t[n].id] else [];
      assert Hits(t, w) == init + last;
      hide Hits;
      assert multiset(init + last) == multiset(init) + multiset(last);
    }
  }

  lemma HitsIn(t: seq<Entry>, w: Sweep, m: nat, h: Handle)
    requires m <= |t|
    ensures h in Handles(Hits(t[..m], w)) <==> exists i :: 0 <= i < m && Hit(t[i], w) && t[i].id == h
  {
    HitsWhere(t[..m], w, h);
    assert forall i | 0 <= i < m :: t[..m][i] == t[i];
  }

  /** On a table of open sessions a conforming sweep frees exactly what it closed. */
  lemma SweptExactly(l: Link, e: Event, l': Link)
    requires Inv(l) && e.CloseSet? && Next(l, e, l')
    ensures e.m <= |l.table| && l'.table == Cleared(l.table, e.w, e.m)
  {
    hide Cleared, Closed, Hits;
    if e.rv != Ckr.OK {
      var c := CloseCall(l.table[e.m].id, e.rv);
      assert e.calls[|e.calls| - 1] == c && c in e.calls;
    }
  }

  lemma CloseSetKeeps(l: Link, e: Event, l': Link)
    requires Inv(l) && e.CloseSet? && Next(l, e, l')
    ensures Inv(l')
  {
    SweptExactly(l, e, l');
    var hs := Hits(l.table[..e.m], e.w);
    forall h ensures h in Handles(hs) <==> exists i :: 0 <= i < e.m && Hit(l.table[i], e.w) && l.table[i].id == h {
      HitsIn(l.table, e.w, e.m, h);
    }
    SweptTracks(l, e.w, e.m, hs, l');
    SweptBooks(l, e, l', hs);
  }

  lemma SweptBooks(l: Link, e: Event, l': Link, hs: seq<Handle>)
    requires Inv(l) && e.CloseSet? && Next(l, e, l') && e.m <= |l.table| && hs == Hits(l.table[..e.m], e.w)
    requires Handles(hs) <= l.tracked.Keys
    ensures l'.tracked.Keys <= l'.open && Balanced(l')
  {
    hide Swept, Hits, Conforming;
    forall h ensures l'.entered[h] == l'.closed[h] + if h in l'.tracked then 1 else 0 {
      HitsOnce(l.table[..e.m], e.w, h);
      assert h in hs <==> h in Handles(hs);
    }
  }

  lemma SweptTracks(l: Link, w: Sweep, m: nat, hs: seq<Handle>, l': Link)
    requires Tracks(l.table, l.tracked) && m <= |l.table|
    requires l'.table == Cleared(l.table, w, m) && l'.tracked == l.tracked - Handles(hs)
    requires forall h :: h in Handles(hs) <==> exists i :: 0 <= i < m && Hit(l.table[i], w) && l.table[i].id == h
    ensures Tracks(l'.table, l'.tracked) && Handles(hs) <= l.tracked.Keys
  {
    var t, t' := l.table, l'.table;
    forall i | 0 <= i < |t'| && t'[i].id != 0 ensures t'[i] == t[i] && t[i].id !in Handles(hs) {
    }
    forall h | h in l'.tracked ensures !Absent(t', h) {
      var j :| 0 <= j < |t| && t[j].id == h;
      assert t'[j] == t[j];
    }
  }

  lemma StepKeeps(l: Link, e: Event, l': Link)
    requires Inv(l) && Next(l, e, l')
    ensures Inv(l')
  {
    match e
    case Open(slot, h) => OpenKeeps(l, slot, h, l');
    case Close(h, rv) => if rv == Ckr.OK { CloseKeeps(l, h, l'); }
    case CloseSet(_, _, _, _) => CloseSetKeeps(l, e, l');
    case Others =>
  }

  /** `links` are the states of a run and `events` the steps between them. */
  ghost predicate Run(links: seq<Link>, events: seq<Event>) {
    && |links| == |events| + 1 && Start(links[0])
    && forall i {:trigger events[i]} | 0 <= i < |events| :: Next(links[i], events[i], links[i + 1])
  }

  lemma {:induction false} RunKeeps(links: seq<Link>, events: seq<Event>, i: nat)
    requires Run(links, events) && i < |links|
    ensures Inv(links[i])
  {
    if i == 0 {
    } else {
      RunKeeps(links, events, i - 1);
      StepKeeps(links[i - 1], events[i - 1], links[i]);
    }
  }

  /** Refinement: in every run the table is the set of sessions opened here and not yet closed, with slots. */
  lemma Refinement(links: seq<Link>, events: seq<Event>, i: nat)
    requires Run(links, events) && i < |links|
    ensures Tracks(links[i].table, links[i].tracked)
    ensures links[i].tracked.Keys <= links[i].open
  {
    RunKeeps(links, events, i);
  }

  /** Conservation: every session that entered the table is still tracked or was closed, once. */
  lemma Conservation(links: seq<Link>, events: seq<Event>, i: nat)
    requires Run(links, events) && i < |links|
    ensures Balanced(links[i])
  {
    RunKeeps(links, events, i);
  }

  /** A sweep that does not return CKR_OK made a close that failed. */
  lemma SweepFails(t: seq<Entry>, t': seq<Entry>, w: Sweep, calls: seq<CloseCall>, rv: Ulong, m: nat)
    requires Swept(t, t', w, calls, rv, m) && rv != Ckr.OK
    ensures exists c <- calls :: c.rv != Ckr.OK
  {
    assert calls[|calls| - 1].rv == rv && calls[|calls| - 1] in calls;
  }

  /** Teardown: a run that ends in a C_Finalize whose closes succeed has closed each session it tracked exactly once. */
  lemma Teardown(links: seq<Link>, events: seq<Event>)
    requires Run(links, events) && events != []
    requires
      var last := events[|events| - 1];
      last.CloseSet? && last.w == Every && (last.rv == Ckr.OK || forall c <- last.calls :: c.rv == Ckr.OK)
    ensures
      var l := links[|links| - 1];
      Empty(l.table) && l.tracked == map[] && l.entered == l.closed
  {
    var l, l', e := links[|links| - 2], links[|links| - 1], events[|events| - 1];
    RunKeeps(links, events, |links| - 1);
    assert Next(links[|events| - 1], e, links[|events| - 1 + 1]);
    if e.rv != Ckr.OK { SweepFails(l.table, l'.table, e.w, e.calls, e.rv, e.m); }
    assert Empty(l'.table);
    forall h ensures h !in l'.tracked {
      assert h == 0 || Absent(l'.table, h);
    }
  }

  /** A successful C_CloseAllSessions closes each tracked session of the slot once, and no other. */
  lemma CloseAllOfSlot(l: Link, e: Event, l': Link, h: Handle)
    requires Inv(l) && Next(l, e, l') && e.CloseSet? && e.w.OfSlot? && e.rv == Ckr.OK
    ensures
      var mine := h in l.tracked && l.tracked[h] == e.w.slot;
      && e.calls == Closed(Hits(l.table, e.w))
      && multiset(Hits(l.table, e.w))[h] == (if mine then 1 else 0)
      && (h in l'.tracked <==> h in l.tracked && !mine)
  {
    assert l.table[..e.m] == l.table;
    HitsOnce(l.table, e.w, h);
    HitsIn(l.table, e.w, e.m, h);
    if h in l.tracked {
      var i :| 0 <= i < |l.table| && l.table[i].id == h;
      assert Hit(l.table[i], e.w) <==> l.tracked[h] == e.w.slot;
    }
  }

  // ----- The books and the module's own log -----------------------------------------------------

  /** The closes the module is asked for by an event. */
  function CallsOf(e: Event): seq<CloseCall> {
    match e
    case Close(h, rv) => [CloseCall(h, rv)]
    case CloseSet(_, calls, _, _) => calls
    case _ => []
  }

  function AllCalls(events: seq<Event>): seq<CloseCall> {
    if events == [] then [] else AllCalls(events[..|events| - 1]) + CallsOf(events[|events| - 1])
  }

  lemma {:induction false} ClosedCount(hs: seq<Handle>, h: Handle)
    ensures multiset(Closed(hs))[CloseCall(h, Ckr.OK)] == multiset(hs)[h]
    decreases |hs|
  {
    if hs == [] {
      NothingClosed();
    } else {
      var init, last := hs[..|hs| - 1], hs[|hs| - 1];
      assert hs == init + [last];
      ClosedCount(init, h);
      ClosedOne(init, last);
    }
  }

  /** What a sweep books as closed are the successful closes among its calls. */
  lemma SweepBooked(t: seq<Entry>, t': seq<Entry>, w: Sweep, calls: seq<CloseCall>, rv: Ulong, m: nat, h: Handle)
    requires Swept(t, t', w, calls, rv, m)
    ensures m <= |t| && multiset(calls)[CloseCall(h, Ckr.OK)] == multiset(Hits(t[..m], w))[h]
  {
    hide Hits, Closed, Cleared;
    ClosedCount(Hits(t[..m], w), h);
    if rv == Ckr.OK {
      assert t[..m] == t;
    } else {
      assert multiset(calls) == multiset(Closed(Hits(t[..m], w))) + multiset{CloseCall(t[m].id, rv)};
    }
  }

  lemma BookStep(l: Link, e: Event, l': Link, h: Handle)
    requires Next(l, e, l') && (e == Close(h, Ckr.OK) ==> h in l.tracked)
    ensures l'.closed[h] == l.closed[h] + multiset(CallsOf(e))[CloseCall(h, Ckr.OK)]
  {
    hide Recorded, Forgotten, Swept, Conforming;
    match e
    case CloseSet(w, calls, rv, m) => SweepBooked(l.table, l'.table, w, calls, rv, m, h);
    case _ =>
  }

  /** The successful closes of a session in the module's log are those in the books, foreign ones aside. */
  lemma {:induction false} ClosesBooked(links: seq<Link>, events: seq<Event>, i: nat, h: Handle)
    requires Run(links, events) && i < |links|
    requires forall k | 0 <= k < i && events[k] == Close(h, Ckr.OK) :: h in links[k].tracked
    ensures multiset(AllCalls(events[..i]))[CloseCall(h, Ckr.OK)] == links[i].closed[h]
  {
    hide Next;
    if i == 0 {
    } else {
      ClosesBooked(links, events, i - 1, h);
      RunStep(links, events, i - 1);
      BookStep(links[i - 1], events[i - 1], links[i], h);
      assert events[..i][..i - 1] == events[..i - 1];
      assert AllCalls(events[..i]) == AllCalls(events[..i - 1]) + CallsOf(events[i - 1]);
    }
  }

  // ----- Sessions refused for lack of room ------------------------------------------------------

  /** Session `h` is opened by event `i`. */
  predicate OpenedAt(events: seq<Event>, i: nat, h: Handle) {
    i < |events| && events[i].Open? && events[i].h == h
  }

  /** It is, but all entries of the table are taken. */
  predicate RefusedAt(links: seq<Link>, events: seq<Event>, i: nat, h: Handle) {
    OpenedAt(events, i, h) && i < |links| && Absent(links[i].table, 0)
  }

  /** Between events `i` and `j` nobody closes the session by its handle. */
  predicate NotClosed(events: seq<Event>, i: nat, j: nat, h: Handle) {
    forall k | i < k < j && k < |events| :: events[k] != Close(h, Ckr.OK)
  }

  /** From event `i` on, nobody else opens or closes a session with the handle `h`. */
  predicate LeftAlone(links: seq<Link>, events: seq<Event>, i: nat, h: Handle) {
    && |links| == |events| + 1
    && forall k {:trigger events[k]} | i < k < |events| && events[k].Others? :: h in links[k].open <==> h in links[k + 1].open
  }

  /** One event on a session that is open but not tracked: only a close by its handle changes that. */
  lemma LeakStep(l: Link, e: Event, l': Link, h: Handle)
    requires Inv(l) && Next(l, e, l') && h in l.open && h !in l.tracked
    requires e != Close(h, Ckr.OK) && (e.Others? ==> h in l'.open)
    ensures h in l'.open && h !in l'.tracked
  {
    hide Tracks, Balanced, Recorded, Forgotten, Swept, Conforming;
    if e.CloseSet? { SweepTracked(l, e, l', h); }
  }

  /** A sweep closes only tracked sessions. */
  lemma SweepTracked(l: Link, e: Event, l': Link, h: Handle)
    requires Inv(l) && e.CloseSet? && Next(l, e, l')
    ensures h in Handles(Hits(l.table[..e.m], e.w)) ==> h in l.tracked
  {
    SweptExactly(l, e, l');
    HitsIn(l.table, e.w, e.m, h);
  }

  /**
    A session refused for lack of room leaks: until it is closed by its handle it stays open in the module
    and outside the table, whatever sweeps run, the final one included.
   */
  lemma {:induction false} RefusedSessionLeaks(links: seq<Link>, events: seq<Event>, i: nat, j: nat, h: Handle)
    requires Run(links, events) && RefusedAt(links, events, i, h) && i < j < |links|
    requires NotClosed(events, i, j, h) && LeftAlone(links, events, i, h)
    ensures h in links[j].open && h !in links[j].tracked && Absent(links[j].table, h)
    decreases j
  {
    RunLength(links, events);
    hide Inv, Next, Run, Absent;
    RunKeeps(links, events, j - 1);
    RunKeeps(links, events, j);
    RunStep(links, events, j - 1);
    RunStep(links, events, i);
    RunKeeps(links, events, i);
    RefusedOpen(links[i], events[i], links[i + 1]);
    if j == i + 1 {
    } else {
      RefusedSessionLeaks(links, events, i, j - 1, h);
      LeakStep(links[j - 1], events[j - 1], links[j], h);
    }
    OutsideTable(links[j], h);
  }

  lemma RunLength(links: seq<Link>, events: seq<Event>)
    requires Run(links, events)
    ensures |links| == |events| + 1
  {
  }

  lemma RunStep(links: seq<Link>, events: seq<Event>, i: nat)
    requires Run(links, events) && i < |events|
    ensures Next(links[i], events[i], links[i + 1])
  {
    hide Next, Start;
  }

  lemma RefusedOpen(l: Link, e: Event, l': Link)
    requires Inv(l) && e.Open? && Next(l, e, l') && Absent(l.table, 0)
    ensures e.h != 0 && e.h in l'.open && e.h !in l'.tracked
  {
    hide Tracks, Balanced, Recorded;
  }

  lemma OutsideTable(l: Link, h: Handle)
    requires Inv(l) && h != 0 && h !in l.tracked
    ensures Absent(l.table, h)
  {
    hide Balanced;
  }

  /** A session opened here that is open but not tracked was refused, and not closed by its handle since. */
  ghost predicate Leaked(links: seq<Link>, events: seq<Event>, j: nat, h: Handle) {
    exists i: nat :: i < j && RefusedAt(links, events, i, h) && NotClosed(events, i, j, h)
  }

  lemma LeakedExactly(links: seq<Link>, events: seq<Event>, o: nat, j: nat, h: Handle)
    requires Run(links, events) && OpenedAt(events, o, h) && o < j < |links| && LeftAlone(links, events, o, h)
    requires forall i | 0 <= i < o :: !OpenedAt(events, i, h)
    ensures h in links[j].open && h !in links[j].tracked <==> Leaked(links, events, j, h)
  {
    if Leaked(links, events, j, h) {
      var i: nat :| i < j && RefusedAt(links, events, i, h) && NotClosed(events, i, j, h);
      RefusedSessionLeaks(links, events, i, j, h);
    } else {
      NotLeaked(links, events, o, j, h);
    }
  }

  lemma {:induction false} NotLeaked(links: seq<Link>, events: seq<Event>, o: nat, j: nat, h: Handle)
    requires Run(links, events) && OpenedAt(events, o, h) && o < j < |links| && LeftAlone(links, events, o, h)
    requires forall i | 0 <= i < o :: !OpenedAt(events, i, h)
    requires !Leaked(links, events, j, h)
    ensures h in links[j].open ==> h in links[j].tracked
    decreases j
  {
    var e := events[j - 1];
    RunStep(links, events, j - 1);
    hide Run, Inv, Tracks, Recorded, Forgotten, Swept, Conforming;
    if OpenedAt(events, j - 1, h) {
      assert NotClosed(events, j - 1, j, h);
      assert !RefusedAt(links, events, j - 1, h);
    } else if e == Close(h, Ckr.OK) {
    } else {
      LeakedOn(links, events, j, h);
      NotLeaked(links, events, o, j - 1, h);
      RunKeeps(links, events, j - 1);
      KeepStep(links[j - 1], e, links[j], h);
    }
  }

  lemma LeakedOn(links: seq<Link>, events: seq<Event>, j: nat, h: Handle)
    requires 0 < j <= |events| && events[j - 1] != Close(h, Ckr.OK)
    ensures Leaked(links, events, j - 1, h) ==> Leaked(links, events, j, h)
  {
    hide RefusedAt;
    if Leaked(links, events, j - 1, h) {
      var i: nat :| i < j - 1 && RefusedAt(links, events, i, h) && NotClosed(events, i, j - 1, h);
      assert NotClosed(events, i, j, h);
    }
  }

  /** Any other event treats being open and being tracked alike. */
  lemma KeepStep(l: Link, e: Event, l': Link, h: Handle)
    requires Inv(l) && Next(l, e, l') && (h in l.open ==> h in l.tracked)
    requires !(e.Open? && e.h == h) && e != Close(h, Ckr.OK) && (e.Others? ==> (h in l.open <==> h in l'.open))
    ensures h in l'.open ==> h in l'.tracked
  {
    hide Tracks, Balanced, Recorded, Forgotten, Swept, Conforming;
  }

  /**
    When the final closes succeed, a session opened on this connection is still open in the module exactly
    if it was refused for lack of room and not closed by its handle since.
   */
  lemma LeaksIff(links: seq<Link>, events: seq<Event>, o: nat, h: Handle)
    requires Run(links, events) && events != []
    requires
      var last := events[|events| - 1];
      last.CloseSet? && last.w == Every && (last.rv == Ckr.OK || forall c <- last.calls :: c.rv == Ckr.OK)
    requires OpenedAt(events, o, h) && (forall i | 0 <= i < o :: !OpenedAt(events, i, h)) && LeftAlone(links, events, o, h)
    ensures h in links[|links| - 1].open <==> Leaked(links, events, |links| - 1, h)
  {
    Teardown(links, events);
    LeakedExactly(links, events, o, |links| - 1, h);
  }

  /** So every session opened here ends closed exactly if each one refused was closed by its handle. */
  lemma AllClosedIff(links: seq<Link>, events: seq<Event>)
    requires Run(links, events) && events != []
    requires
      var last := events[|events| - 1];
      last.CloseSet? && last.w == Every && (last.rv == Ckr.OK || forall c <- last.calls :: c.rv == Ckr.OK)
    requires forall o, h | OpenedAt(events, o, h) :: LeftAlone(links, events, o, h)
    ensures (forall o, h | OpenedAt(events, o, h) :: h !in links[|links| - 1].open)
       <==> (forall i, h | RefusedAt(links, events, i, h) :: !NotClosed(events, i, |events|, h))
  {
    var n := |links| - 1;
    forall o, h | OpenedAt(events, o, h)
      ensures h in links[n].open <==> Leaked(links, events, n, h)
    {
      var first := FirstOpen(events, o, h);
      LeaksIff(links, events, first, h);
    }
    if i, h :| RefusedAt(links, events, i, h) && NotClosed(events, i, |events|, h) {
      assert OpenedAt(events, i, h) && Leaked(links, events, n, h);
    }
  }

  lemma {:induction false} FirstOpen(events: seq<Event>, o: nat, h: Handle) returns (first: nat)
    requires OpenedAt(events, o, h)
    ensures OpenedAt(events, first, h) && first <= o && forall i | 0 <= i < first :: !OpenedAt(events, i, h)
    decreases o
  {
    if i: nat :| i < o && OpenedAt(events, i, h) {
      first := FirstOpen(events, i, h);
    } else {
      first := o;
    }
  }

  // ----- Many connections -------------------------------------------------------------------

  type Id = nat

  /** The tables of the live connections, and for every handle ever issued the connection it went to. */
  datatype World = World(tables: map<Id, seq<Entry>>, owner: map<Handle, Id>)

  datatype Act =
    | Accept(k: Id, table: seq<Entry>)
    | OpenBy(k: Id, slot: Slot, h: Handle)
    | CloseBy(k: Id, h: Handle)
    | SweepBy(k: Id, w: Sweep, calls: seq<CloseCall>, rv: Ulong, m: nat, ends: bool)

  /**
    A module that never reissues a handle. A client may ask to close any handle at all; C_CloseAllSessions
    and C_Finalize sweep its own connection's table, and so does the daemon when the connection ends.
   */
  ghost predicate Acts(v: World, a: Act, v': World) {
    match a
    case Accept(k, table) =>
      k !in v.tables && k !in v.owner.Values && Empty(table) && v' == v.(tables := v.tables[k := table])
    case OpenBy(k, slot, h) =>
      && k in v.tables && k in v'.tables && h != 0 && h !in v.owner
      && v' == World(v.tables[k := v'.tables[k]], v.owner[h := k])
      && exists rv :: Recorded(v.tables[k], v'.tables[k], h, slot, rv)
    case CloseBy(k, h) =>
      && k in v.tables && k in v'.tables && v' == v.(tables := v.tables[k := v'.tables[k]])
      && Forgotten(v.tables[k], v'.tables[k], h)
    case SweepBy(k, w, calls, rv, m, ends) =>
      && k in v.tables
      && exists t' :: Swept(v.tables[k], t', w, calls, rv, m)
                   && v' == v.(tables := if ends then v.tables - {k} else v.tables[k := t'])
  }

  /** Every entry of a table is a session issued to that connection. */
  ghost predicate Owned(v: World) {
    forall k, i | k in v.tables && 0 <= i < |v.tables[k]| && v.tables[k][i].id != 0 ::
      v.tables[k][i].id in v.owner && v.owner[v.tables[k][i].id] == k
  }

  /** No session is in two tables. */
  ghost predicate Disjoint(v: World) {
    forall j, k, a, b | j in v.tables && k in v.tables && j != k && 0 <= a < |v.tables[j]| && 0 <= b < |v.tables[k]| ::
      v.tables[j][a].id == 0 || v.tables[j][a].id != v.tables[k][b].id
  }

  lemma ActKeeps(v: World, a: Act, v': World)
    requires Owned(v) && Acts(v, a, v')
    ensures Owned(v')
  {
  }

  /** A sweep closes only sessions issued to the connection it runs on. */
  lemma SweepsOwn(v: World, a: Act, v': World, c: CloseCall)
    requires Owned(v) && Acts(v, a, v') && a.SweepBy? && c in a.calls
    ensures c.handle in v.owner && v.owner[c.handle] == a.k
  {
    var t := v.tables[a.k];
    var t' :| Swept(t, t', a.w, a.calls, a.rv, a.m);
    var i :| 0 <= i < |a.calls| && a.calls[i] == c;
    if a.rv == Ckr.OK {
      HitsWhere(t, a.w, c.handle);
    } else if i < |a.calls| - 1 {
      assert c.handle in Hits(t[..a.m], a.w);
      HitsIn(t, a.w, a.m, c.handle);
    }
  }

  ghost predicate WorldRun(vs: seq<World>, acts: seq<Act>) {
    && |vs| == |acts| + 1 && vs[0] == World(map[], map[])
    && forall i {:trigger acts[i]} | 0 <= i < |acts| :: Acts(vs[i], acts[i], vs[i + 1])
  }

  lemma {:induction false} WorldKeeps(vs: seq<World>, acts: seq<Act>, i: nat)
    requires WorldRun(vs, acts) && i < |vs|
    ensures Owned(vs[i])
  {
    if i == 0 {
    } else {
      WorldKeeps(vs, acts, i - 1);
      ActKeeps(vs[i - 1], acts[i - 1], vs[i]);
    }
  }

  /** Isolation: tables stay disjoint, and no sweep on one connection closes a session of another. */
  lemma Isolation(vs: seq<World>, acts: seq<Act>, i: nat)
    requires WorldRun(vs, acts) && i < |vs|
    ensures Disjoint(vs[i])
    ensures i < |acts| && acts[i].SweepBy? ==>
      forall c <- acts[i].calls :: c.handle in vs[i].owner && vs[i].owner[c.handle] == acts[i].k
  {
    WorldKeeps(vs, acts, i);
    if i < |acts| && acts[i].SweepBy? {
      forall c <- acts[i].calls ensures c.handle in vs[i].owner && vs[i].owner[c.handle] == acts[i].k {
        SweepsOwn(vs[i], acts[i], vs[i + 1], c);
      }
    }
  }
}
