/**
  A connection of the daemon from call_init to call_uninit: the calls on the session table, executed one
  after the other while other connections use the same module, make up a run of the abstract machine.
 */
module Connections {
  import opened Bytes
  import opened Sessions
  import opened SessionRuns
  import Ckr

  /** The requests that touch the session table. */
  datatype SessionCall = OpenOne(slot: Slot) | CloseOne(h: Handle) | CloseSlot(slot: Slot) | CloseEvery

  /** The abstract state shows the table and the module as they are. */
  ghost predicate Shows(l: Link, table: SessionTable, mod: Module)
    reads table.sessions, mod
  {
    l.table == table.sessions[..] && l.open == mod.open
  }

  /** Others open and close sessions of their own. */
  method Meanwhile(table: SessionTable, mod: Module, ghost l: Link) returns (ghost l': Link)
    requires Inv(l) && Shows(l, table, mod)
    modifies mod`open
    ensures Next(l, Others, l') && Shows(l', table, mod)
  {
    var others: set<Handle> := *;
    var mine := set i | 0 <= i < table.sessions.Length && table.sessions[i].id in mod.open :: table.sessions[i].id;
    forall h | h in l.tracked ensures h in mine {
      var i :| 0 <= i < |l.table| && l.table[i].id == h;
      assert table.sessions[i] == l.table[i];
    }
    mod.open := others + mine;
    l' := l.(open := mod.open);
  }

  /** The closes of a sweep answer to the table and the module as they were before it. */
  lemma SweepConforms(l: Link, t': seq<Entry>, e: Event, open': set<Handle>)
    requires Inv(l) && e.CloseSet? && Swept(l.table, t', e.w, e.calls, e.rv, e.m)
    requires Answers(l.table, e.w, l.open, open', e.rv, e.m)
    ensures Conforming(l.open, e.calls)
  {
    var hs := Hits(l.table[..e.m], e.w);
    assert e.rv == Ckr.OK ==> l.table[..e.m] == l.table;
    if e.rv != Ckr.OK { HitsIn(l.table, e.w, e.m, l.table[e.m].id); }
    forall i | 0 <= i < |e.calls| && e.calls[i].rv == Ckr.OK ensures e.calls[i].handle in l.open {
      assert hs[i] in Handles(hs);
    }
  }

  lemma SweepNext(l: Link, t': seq<Entry>, e: Event, open': set<Handle>) returns (l': Link)
    requires Inv(l) && e.CloseSet? && Swept(l.table, t', e.w, e.calls, e.rv, e.m)
    requires Answers(l.table, e.w, l.open, open', e.rv, e.m)
    ensures Next(l, e, l') && l'.table == t' && l'.open == open'
  {
    SweepConforms(l, t', e, open');
    hide Swept, Conforming;
    var hs := Hits(l.table[..e.m], e.w);
    l' := Link(t', open', l.tracked - Handles(hs), l.entered, l.closed + multiset(hs));
  }

  /** What a request gets: its code, the handle if it opens a session, and what the module was asked but for closes. */
  datatype Answer = Answer(rv: Ulong, handle: Handle, asked: seq<Ask>)

  /** The step of the machine that a request asks for, with the codes spelled out. */
  ghost predicate Does(call: SessionCall, a: Answer, l: Link, e: Event, l': Link) {
    match call
    case OpenOne(slot) =>
      && |a.asked| == 1 && a.asked[0].OpenAsk? && a.asked[0].slot == slot && a.asked[0].handle == a.handle
      && if a.asked[0].rv == 0 then e == Open(slot, a.handle) && a.rv == if Absent(l.table, 0) then 0xb1 else 0
         else a.rv == a.asked[0].rv && e == Others && l' == l
    case CloseOne(h) => a.asked == [] && e == Close(h, a.rv)
    case CloseSlot(slot) =>
      && |a.asked| == 1 && a.asked[0].SlotAsk? && a.asked[0].slot == slot
      && if a.asked[0].rv == 0 then e.CloseSet? && e.w == OfSlot(slot) && e.rv == a.rv
         else a.rv == a.asked[0].rv && e == Others && l' == l
    case CloseEvery => a.asked == [] && e.CloseSet? && e.w == Every && e.rv == a.rv
  }

  method ServeOpen(table: SessionTable, mod: Module, slot: Slot, ghost l: Link)
    returns (rv: Ulong, h: Handle, ghost e: Event, ghost l': Link)
    requires Inv(l) && Shows(l, table, mod)
    modifies mod`open, mod`asked, table.sessions
    ensures Next(l, e, l') && Shows(l', table, mod) && CallsOf(e) == []
    ensures |mod.asked| >= |old(mod.asked)| && mod.asked[..|old(mod.asked)|] == old(mod.asked)
    ensures Does(OpenOne(slot), Answer(rv, h, mod.asked[|old(mod.asked)|..]), l, e, l')
  {
    hide Recorded, Tracks, Balanced;
    rv, h := table.OpenSession(mod, slot);
    if mod.open == l.open {
      e, l' := Others, l;
    } else {
      e := Open(slot, h);
      l' := l.(table := table.sessions[..], open := mod.open);
      RecordedCode(l.table, l'.table, h, slot, rv);
      if !Absent(l.table, 0) { l' := l'.(tracked := l.tracked[h := slot], entered := l.entered + multiset{h}); }
    }
  }

  lemma RecordedCode(t: seq<Entry>, t': seq<Entry>, h: Handle, slot: Slot, rv: Ulong)
    requires Recorded(t, t', h, slot, rv)
    ensures rv == if Absent(t, 0) then Ckr.SESSION_COUNT else Ckr.OK
  {
  }

  method ServeClose(table: SessionTable, mod: Module, h: Handle, ghost l: Link)
    returns (rv: Ulong, ghost e: Event, ghost l': Link)
    requires Inv(l) && Shows(l, table, mod)
    modifies mod`open, mod`closes, table.sessions
    ensures Next(l, e, l') && Shows(l', table, mod) && mod.closes == old(mod.closes) + CallsOf(e)
    ensures e == Close(h, rv)
  {
    hide Forgotten, Tracks, Balanced;
    rv := table.CloseSession(mod, h);
    e, l' := Close(h, rv), l;
    if rv == Ckr.OK {
      l' := Link(table.sessions[..], mod.open, l.tracked - {h}, l.entered,
                 l.closed + if h in l.tracked then multiset{h} else multiset{});
    }
  }

  /** C_CloseAllSessions or C_Finalize. */
  method ServeSweep(table: SessionTable, mod: Module, w: Sweep, ghost l: Link)
    returns (rv: Ulong, ghost e: Event, ghost l': Link)
    requires Inv(l) && Shows(l, table, mod)
    modifies mod`open, mod`closes, mod`asked, table.sessions
    ensures Next(l, e, l') && Shows(l', table, mod) && mod.closes == old(mod.closes) + CallsOf(e)
    ensures |mod.asked| >= |old(mod.asked)| && mod.asked[..|old(mod.asked)|] == old(mod.asked)
    ensures
      var call := if w.OfSlot? then CloseSlot(w.slot) else CloseEvery;
      Does(call, Answer(rv, 0, mod.asked[|old(mod.asked)|..]), l, e, l')
  {
    hide Swept, Answers, Tracks, Balanced, Conforming;
    ghost var before := |mod.closes|;
    if w.OfSlot? {
      var asks := |mod.asked|;
      rv := table.CloseAllSessions(mod, w.slot);
      if mod.asked[asks].rv != Ckr.OK { return rv, Others, l; }
    } else {
      rv := table.Finalize(mod);
    }
    ghost var calls := mod.closes[before..];
    ghost var m: nat :| Swept(l.table, table.sessions[..], w, calls, rv, m) && Answers(l.table, w, l.open, mod.open, rv, m);
    e := CloseSet(w, calls, rv, m);
    l' := SweepNext(l, table.sessions[..], e, mod.open);
  }

  /** One request: the step it asks for, and no other. */
  method Serve(table: SessionTable, mod: Module, call: SessionCall, ghost l: Link)
    returns (rv: Ulong, h: Handle, ghost e: Event, ghost l': Link)
    requires Inv(l) && Shows(l, table, mod)
    modifies mod, table.sessions
    ensures Next(l, e, l') && Shows(l', table, mod) && mod.closes == old(mod.closes) + CallsOf(e)
    ensures |mod.asked| >= |old(mod.asked)| && mod.asked[..|old(mod.asked)|] == old(mod.asked)
    ensures Does(call, Answer(rv, h, mod.asked[|old(mod.asked)|..]), l, e, l')
  {
    hide Next, Inv;
    h := 0;
    match call
    case OpenOne(slot) => rv, h, e, l' := ServeOpen(table, mod, slot, l);
    case CloseOne(g) => rv, e, l' := ServeClose(table, mod, g, l);
    case CloseSlot(slot) => rv, e, l' := ServeSweep(table, mod, OfSlot(slot), l);
    case CloseEvery => rv, e, l' := ServeSweep(table, mod, Every, l);
  }

  lemma RunStart(l: Link)
    requires Start(l)
    ensures Run([l], []) && Inv(l)
  {
    hide Inv, Start;
    RunKeeps([l], [], 0);
  }

  /** One more step of a run. */
  lemma RunOn(links: seq<Link>, events: seq<Event>, e: Event, l: Link)
    requires Run(links, events) && Next(links[|links| - 1], e, l)
    ensures Run(links + [l], events + [e]) && Inv(l)
  {
    hide Next, Start, Inv;
    RunKeeps(links, events, |links| - 1);
    StepKeeps(links[|links| - 1], e, l);
  }

  lemma CallsOn(events: seq<Event>, e: Event)
    ensures AllCalls(events + [e]) == AllCalls(events) + CallsOf(e)
  {
    assert (events + [e])[..|events|] == events;
  }

  /** No session `h` outside the table is closed by its handle. */
  ghost predicate OwnCloses(links: seq<Link>, events: seq<Event>, h: Handle) {
    |links| == |events| + 1 && forall k | 0 <= k < |events| && events[k] == Close(h, Ckr.OK) :: h in links[k].tracked
  }

  /** A run that shows the table and the module as they are, and all the closes since the log was `before`. */
  ghost predicate Current(links: seq<Link>, events: seq<Event>, table: SessionTable, mod: Module, before: seq<CloseCall>)
    reads table.sessions, mod
  {
    Run(links, events) && Shows(links[|links| - 1], table, mod) && mod.closes == before + AllCalls(events)
  }

  /** One more step of a run that is up to date. */
  lemma CurrentOn(links: seq<Link>, events: seq<Event>, e: Event, l: Link, calls: seq<CloseCall>, before: seq<CloseCall>)
    requires Run(links, events) && Next(links[|links| - 1], e, l) && calls == before + AllCalls(events) + CallsOf(e)
    ensures Run(links + [l], events + [e]) && Inv(l) && calls == before + AllCalls(events + [e])
  {
    hide Run, Next, Inv, AllCalls, CallsOf;
    RunOn(links, events, e, l);
    CallsOn(events, e);
  }

  /** Everything the module was asked but for closes. */
  function AllAsked(answers: seq<Answer>): seq<Ask> {
    if answers == [] then [] else AllAsked(answers[..|answers| - 1]) + answers[|answers| - 1].asked
  }

  lemma AskedOn(answers: seq<Answer>, a: Answer)
    ensures AllAsked(answers + [a]) == AllAsked(answers) + a.asked
  {
    assert (answers + [a])[..|answers|] == answers;
  }

  /** The requests so far: each is a step of others and the step it asks for. */
  ghost predicate Served(calls: seq<SessionCall>, answers: seq<Answer>, links: seq<Link>, events: seq<Event>) {
    && |events| >= 2 * |calls| && |links| == |events| + 1 && |answers| == |calls|
    && forall i | 0 <= i < |calls| ::
         events[2 * i] == Others && Does(calls[i], answers[i], links[2 * i + 1], events[2 * i + 1], links[2 * i + 2])
  }

  lemma ServedOn(calls: seq<SessionCall>, answers: seq<Answer>, links: seq<Link>, events: seq<Event>,
                 call: SessionCall, a: Answer, l1: Link, e: Event, l2: Link)
    requires Served(calls, answers, links, events) && |events| == 2 * |calls| && Does(call, a, l1, e, l2)
    ensures Served(calls + [call], answers + [a], links + [l1] + [l2], events + [Others] + [e])
  {
    hide Does;
  }

  lemma NoRequests(start: Link)
    requires Start(start)
    ensures Run([start], []) && Inv(start) && Served([], [], [start], []) && AllCalls([]) == [] && AllAsked([]) == []
  {
    RunStart(start);
    hide Start, Inv;
  }

  /** One request, after whatever others did in the meantime: two steps of the run. */
  method OneMore(table: SessionTable, mod: Module, call: SessionCall, ghost links: seq<Link>, ghost events: seq<Event>, ghost before: seq<CloseCall>)
    returns (rv: Ulong, h: Handle, ghost l1: Link, ghost e: Event, ghost l2: Link)
    requires Current(links, events, table, mod, before) && Inv(links[|links| - 1])
    modifies mod, table.sessions
    ensures Current(links + [l1] + [l2], events + [Others] + [e], table, mod, before) && Inv(l2)
    ensures |mod.asked| >= |old(mod.asked)| && mod.asked[..|old(mod.asked)|] == old(mod.asked)
    ensures Does(call, Answer(rv, h, mod.asked[|old(mod.asked)|..]), l1, e, l2)
  {
    hide Run, Next, Inv, AllCalls, Does;
    assert |links| > 0 && CallsOf(Others) == [] by { RunLength(links, events); }
    l1 := Meanwhile(table, mod, links[|links| - 1]);
    assert before + AllCalls(events) + [] == before + AllCalls(events);
    CurrentOn(links, events, Others, l1, mod.closes, before);
    rv, h, e, l2 := Serve(table, mod, call, l1);
    CurrentOn(links + [l1], events + [Others], e, l2, mod.closes, before);
  }

  /**
    The requests of a connection, in any number and order. Each takes the two steps it should, and the
    module is asked what they say.
   */
  method Requests(table: SessionTable, mod: Module, calls: seq<SessionCall>, ghost start: Link)
    returns (ghost answers: seq<Answer>, ghost links: seq<Link>, ghost events: seq<Event>)
    requires Start(start) && Shows(start, table, mod)
    modifies mod, table.sessions
    ensures Current(links, events, table, mod, old(mod.closes)) && Inv(links[|links| - 1])
    ensures |events| == 2 * |calls| && Served(calls, answers, links, events)
    ensures mod.asked == old(mod.asked) + AllAsked(answers)
  {
    hide Run, Next, Inv, AllCalls, AllAsked, Does, Start, Served;
    answers, links, events := [], [start], [];
    NoRequests(start);
    assert mod.closes + [] == mod.closes && mod.asked + [] == mod.asked && calls[..0] == [];
    var i := 0;
    while i < |calls|
      invariant 0 <= i <= |calls|
      invariant |links| == |events| + 1 && Current(links, events, table, mod, old(mod.closes)) && Inv(links[|links| - 1])
      invariant |events| == 2 * i && Served(calls[..i], answers, links, events)
      invariant mod.asked == old(mod.asked) + AllAsked(answers)
    {
      ghost var asks := mod.asked;
      var rv, h;
      ghost var l1, e, l2;
      rv, h, l1, e, l2 := OneMore(table, mod, calls[i], links, events, old(mod.closes));
      ghost var a := Answer(rv, h, mod.asked[|asks|..]);
      ServedOn(calls[..i], answers, links, events, calls[i], a, l1, e, l2);
      AskedOn(answers, a);
      assert calls[..i + 1] == calls[..i] + [calls[i]] && mod.asked == asks + a.asked;
      answers, links, events := answers + [a], links + [l1] + [l2], events + [Others] + [e];
      i := i + 1;
    }
    assert calls[..i] == calls;
  }

  /**
    The connection: its requests, in any number and order, and then call_uninit. What it does is a run, in
    which every request takes the step it asks for. In the module's own log each session, unless it was closed
    by its handle while it was outside the table, was closed as often as the run says; and if the last closes
    succeed that is once for each time it entered the table, which is empty.
   */
  method Connection(mod: Module, calls: seq<SessionCall>)
    returns (rv: Ulong, ghost answers: seq<Answer>, ghost links: seq<Link>, ghost events: seq<Event>)
    modifies mod
    ensures Run(links, events) && links[|links| - 1].open == mod.open
    ensures |events| == 2 * |calls| + 2 && Served(calls, answers, links, events)
    ensures events[2 * |calls|] == Others
    ensures Does(CloseEvery, Answer(rv, 0, []), links[2 * |calls| + 1], events[2 * |calls| + 1], links[2 * |calls| + 2])
    ensures mod.closes == old(mod.closes) + AllCalls(events) && mod.asked == old(mod.asked) + AllAsked(answers)
    ensures
      var l := links[|links| - 1];
      forall h | OwnCloses(links, events, h) :: multiset(AllCalls(events))[CloseCall(h, Ckr.OK)] == l.closed[h]
    ensures
      var l := links[|links| - 1];
      rv == Ckr.OK ==> Empty(l.table) && l.tracked == map[] && l.entered == l.closed
  {
    var table := new SessionTable();
    ghost var start := Link(table.sessions[..], mod.open, map[], multiset{}, multiset{});
    assert Start(start);
    hide Next, Inv, Run, Start, Empty, AllCalls, AllAsked, OwnCloses, Does;
    answers, links, events := Requests(table, mod, calls, start);
    var h;
    ghost var l1, e, l2;
    ghost var asks := mod.asked;
    rv, h, l1, e, l2 := OneMore(table, mod, CloseEvery, links, events, old(mod.closes));
    LastDoes(Answer(rv, h, mod.asked[|asks|..]), l1, e, l2);
    assert mod.asked == asks + mod.asked[|asks|..];
    ServedBy(calls, answers, links, events, l1, e, l2);
    links, events := links + [l1] + [l2], events + [Others] + [e];
    if rv == Ckr.OK { Teardown(links, events); }
    forall h | OwnCloses(links, events, h)
      ensures multiset(AllCalls(events))[CloseCall(h, Ckr.OK)] == links[|links| - 1].closed[h]
    {
      AllBooked(links, events, h);
    }
  }

  lemma LastDoes(a: Answer, l: Link, e: Event, l': Link)
    requires Does(CloseEvery, a, l, e, l')
    ensures a.asked == [] && e.CloseSet? && e.w == Every && e.rv == a.rv && Does(CloseEvery, Answer(a.rv, 0, []), l, e, l')
  {
  }

  lemma ServedBy(calls: seq<SessionCall>, answers: seq<Answer>, links: seq<Link>, events: seq<Event>, l1: Link, e: Event, l2: Link)
    requires Served(calls, answers, links, events)
    ensures Served(calls, answers, links + [l1] + [l2], events + [Others] + [e])
  {
    hide Does;
  }

  lemma AllBooked(links: seq<Link>, events: seq<Event>, h: Handle)
    requires Run(links, events) && OwnCloses(links, events, h)
    ensures multiset(AllCalls(events))[CloseCall(h, Ckr.OK)] == links[|links| - 1].closed[h]
  {
    hide Next, Start;
    ClosesBooked(links, events, |events|, h);
    assert events[..|events|] == events;
  }
}
