/** A connection that opens one session too many, and ends with it still open in the module. */
module SessionLeak {
  import opened Sessions
  import opened SessionRuns
  import opened Connections
  import Ckr

  /** The handles from 1 to n. */
  function Numbers(n: nat): (hs: seq<Handle>)
    requires n <= MAX_SESSION_COUNT
    ensures |hs| == n && forall i | 0 <= i < n :: hs[i] == i + 1
  {
    seq(n, i requires 0 <= i < n => (i + 1) as Handle)
  }

  /** After `n` sessions of slot 0 with these handles. */
  function Filled(n: nat): Link
    requires n <= MAX_SESSION_COUNT
  {
    Link(seq(MAX_SESSION_COUNT, i requires 0 <= i => if i < n then Entry(i + 1, 0) else Entry(0, 0)),
         Handles(Numbers(n)), map h | h in Numbers(n) :: 0, multiset(Numbers(n)), multiset{})
  }

  lemma FillStep(n: nat)
    requires n < MAX_SESSION_COUNT
    ensures Next(Filled(n), Open(0, n + 1), Filled(n + 1))
  {
    var l, l' := Filled(n), Filled(n + 1);
    assert Numbers(n + 1) == Numbers(n) + [n + 1];
    assert FirstWith(l.table, n, 0) && l'.table == l.table[n := Entry(n + 1, 0)];
    assert l.table[n].id == 0;
    assert l'.tracked == l.tracked[n + 1 := 0] && l'.open == l.open + {n + 1};
  }

  const TOO_MANY: Handle := 257

  /** The table is full, and one more session is open in the module. */
  function Refused(): Link {
    var l := Filled(MAX_SESSION_COUNT);
    l.(open := l.open + {TOO_MANY})
  }

  lemma RefusedStep()
    ensures Next(Filled(MAX_SESSION_COUNT), Open(0, TOO_MANY), Refused()) && Absent(Filled(MAX_SESSION_COUNT).table, 0)
  {
  }

  /** The opens of a run that fills the table and then opens one more. */
  lemma FullRun() returns (links: seq<Link>, events: seq<Event>)
    ensures Run(links, events) && |events| == MAX_SESSION_COUNT + 1 && links[|events|] == Refused()
    ensures RefusedAt(links, events, MAX_SESSION_COUNT, TOO_MANY) && forall e <- events :: e.Open?
  {
    links := seq(MAX_SESSION_COUNT + 1, n requires 0 <= n <= MAX_SESSION_COUNT => Filled(n)) + [Refused()];
    events := seq(MAX_SESSION_COUNT, n requires 0 <= n < MAX_SESSION_COUNT => Open(0, n + 1)) + [Open(0, TOO_MANY)];
    assert Start(links[0]) by { FilledStart(); }
    hide Filled, Refused, Next, Start;
    RefusedStep();
    forall n {:trigger events[n]} | 0 <= n < |events| ensures Next(links[n], events[n], links[n + 1]) {
      if n < MAX_SESSION_COUNT { FillStep(n); }
    }
  }

  lemma FilledStart()
    ensures Start(Filled(0))
  {
  }

  /** The final sweep of all slots, with every close successful. */
  lemma FinalSweep(l: Link) returns (e: Event, l': Link)
    requires Inv(l)
    ensures Next(l, e, l') && e.CloseSet? && e.w == Every && e.rv == Ckr.OK
  {
    hide Balanced;
    var t := l.table;
    var m := |t|;
    assert t[..m] == t;
    e := CloseSet(Every, Closed(Hits(t, Every)), Ckr.OK, m);
    forall h | h in Handles(Hits(t[..m], Every)) ensures h in l.open {
      HitsIn(t, Every, m, h);
    }
    l' := SweepNext(l, Cleared(t, Every, m), e, l.open - Handles(Hits(t, Every)));
  }

  /** Teardown succeeds, and a session opened on the connection is still open in the module. */
  lemma LeakingRun() returns (links: seq<Link>, events: seq<Event>)
    ensures Run(links, events) && |events| == MAX_SESSION_COUNT + 2
    ensures
      var last := events[|events| - 1];
      last.CloseSet? && last.w == Every && last.rv == Ckr.OK
    ensures OpenedAt(events, MAX_SESSION_COUNT, TOO_MANY) && TOO_MANY in links[|links| - 1].open
  {
    hide Run, Refused, Next, Inv;
    links, events := FullRun();
    RunLength(links, events);
    RunKeeps(links, events, |events|);
    var e, l := FinalSweep(links[|events|]);
    RunOn(links, events, e, l);
    var links', events' := links + [l], events + [e];
    RunLength(links', events');
    assert RefusedAt(links', events', MAX_SESSION_COUNT, TOO_MANY);
    assert NotClosed(events', MAX_SESSION_COUNT, |events'|, TOO_MANY);
    assert LeftAlone(links', events', MAX_SESSION_COUNT, TOO_MANY);
    RefusedSessionLeaks(links', events', MAX_SESSION_COUNT, |events'|, TOO_MANY);
    links, events := links', events';
  }
}
