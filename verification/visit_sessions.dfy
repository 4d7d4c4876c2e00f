/** Visits built beacon by beacon: an incremental table that always equals the batch definition,
    maximal runs of a visitor's page views with gaps below thirty minutes. */
module VisitSessions {
  import opened Wrappers

  const WINDOW_MS := 30 * 60 * 1000

  /** Where a page view came from, as the server sees it. */
  datatype Source = Source(referrer: Option<string>, country: Option<string>, device: string, isBot: bool)

  datatype Visit = Visit(
    visitor: string, startedAt: int, lastSeenAt: int, pageViews: nat, entryPath: string, exitPath: string, source: Source)

  /** A recorded page view; `visit` is the row it was counted in. */
  datatype Event = Event(id: string, visitor: string, path: string, time: int, source: Source, visit: nat)

  /** A delivered beacon. An excluded route has no path. */
  datatype Beacon = Beacon(id: string, visitor: string, path: Option<string>, source: Source, now: int)

  datatype Db = Db(visits: seq<Visit>, events: seq<Event>)

  // ---- one beacon ----

  predicate Recorded(events: seq<Event>, id: string) { exists i :: 0 <= i < |events| && events[i].id == id }

  predicate OpenVisit(v: Visit, visitor: string, now: int) { v.visitor == visitor && v.lastSeenAt > now - WINDOW_MS }

  /** The most recently seen visit of this visitor that is still open. */
  function FindOpen(visits: seq<Visit>, visitor: string, now: int): (r: Option<nat>)
    ensures r.Some? ==> r.value < |visits| && OpenVisit(visits[r.value], visitor, now)
    ensures forall j :: 0 <= j < |visits| && OpenVisit(visits[j], visitor, now) ==>
              r.Some? && visits[j].lastSeenAt <= visits[r.value].lastSeenAt
  {
    if visits == [] then None
    else
      var n := |visits| - 1;
      var front := FindOpen(visits[..n], visitor, now);
      if OpenVisit(visits[n], visitor, now) && (front.None? || visits[front.value].lastSeenAt <= visits[n].lastSeenAt)
      then Some(n) else front
  }

  /** The open visit after one more page view. */
  function Extended(v: Visit, path: string, now: int): Visit {
    v.(lastSeenAt := now, pageViews := v.pageViews + 1, exitPath := path)
  }

  function Started(b: Beacon): Visit
    requires b.path.Some?
  {
    Visit(b.visitor, b.now, b.now, 1, b.path.value, b.path.value, b.source)
  }

  function Record(b: Beacon, row: nat): Event
    requires b.path.Some?
  {
    Event(b.id, b.visitor, b.path.value, b.now, b.source, row)
  }

  function Ingest(db: Db, b: Beacon): Db {
    if b.path.None? || Recorded(db.events, b.id) then db
    else
      match FindOpen(db.visits, b.visitor, b.now)
      case Some(i) =>
        Db(db.visits[i := Extended(db.visits[i], b.path.value, b.now)], db.events + [Record(b, i)])
      case None =>
        Db(db.visits + [Started(b)], db.events + [Record(b, |db.visits|)])
  }

  function IngestAll(db: Db, bs: seq<Beacon>): Db {
    if bs == [] then db else Ingest(IngestAll(db, bs[..|bs| - 1]), bs[|bs| - 1])
  }

  /** Beacons arrive one at a time on a clock that never goes back. */
  predicate InClockOrder(bs: seq<Beacon>) {
    forall i, j :: 0 <= i < j < |bs| ==> bs[i].now <= bs[j].now
  }

  class VisitTable {
    var visits: seq<Visit>
    var events: seq<Event>

    function Tables(): Db
      reads this
    {
      Db(visits, events)
    }

    /** Dedupe by event id, extend the open visit or start one, record the event. */
    method IngestBeacon(b: Beacon) returns (recorded: bool)
      modifies this
      ensures Tables() == Ingest(old(Tables()), b)
      ensures recorded <==> Tables() != old(Tables())
    {
      if b.path.None? {
        return false;
      }
      var path := b.path.value;
      if exists i :: 0 <= i < |events| && events[i].id == b.id {
        return false;
      }
      var visitRow: nat := |visits|;
      var found := FindOpen(visits, b.visitor, b.now);
      if found.Some? {
        visitRow := found.value;
        var v := visits[visitRow];
        visits := visits[visitRow := v.(lastSeenAt := b.now, pageViews := v.pageViews + 1, exitPath := path)];
      } else {
        visits := visits + [Visit(b.visitor, b.now, b.now, 1, path, path, b.source)];
      }
      events := events + [Event(b.id, b.visitor, path, b.now, b.source, visitRow)];
      return true;
    }
  }

  // ---- the batch definition ----

  function EventsOf(events: seq<Event>, visitor: string): seq<Event> {
    if events == [] then []
    else
      var n := |events| - 1;
      EventsOf(events[..n], visitor) + if events[n].visitor == visitor then [events[n]] else []
  }

  function VisitsOf(visits: seq<Visit>, visitor: string): seq<Visit> {
    if visits == [] then []
    else
      var n := |visits| - 1;
      VisitsOf(visits[..n], visitor) + if visits[n].visitor == visitor then [visits[n]] else []
  }

  function Flatten(runs: seq<seq<Event>>): seq<Event> {
    if runs == [] then [] else Flatten(runs[..|runs| - 1]) + runs[|runs| - 1]
  }

  /** Consecutive events less than the window apart. */
  predicate Close(run: seq<Event>) {
    forall k :: 0 < k < |run| ==> run[k].time - run[k - 1].time < WINDOW_MS
  }

  predicate Apart(earlier: seq<Event>, later: seq<Event>)
    requires earlier != [] && later != []
  {
    later[0].time - earlier[|earlier| - 1].time >= WINDOW_MS
  }

  /** `es` cut into non-empty runs: close inside a run, a full window apart between runs. */
  predicate MaximalRuns(runs: seq<seq<Event>>, es: seq<Event>) {
    && Flatten(runs) == es
    && (forall r :: 0 <= r < |runs| ==> runs[r] != [])
    && (forall r :: 0 <= r < |runs| ==> Close(runs[r]))
    && (forall r :: 0 < r < |runs| ==> Apart(runs[r - 1], runs[r]))
  }

  /** What a visit row says about a run: its bounds, its size, its first and last page, its first source. */
  function Summary(run: seq<Event>): Visit
    requires run != []
  {
    var first, last := run[0], run[|run| - 1];
    Visit(first.visitor, first.time, last.time, |run|, first.path, last.path, first.source)
  }

  function Summaries(runs: seq<seq<Event>>): seq<Visit>
    requires forall r :: 0 <= r < |runs| ==> runs[r] != []
  {
    seq(|runs|, r requires 0 <= r < |runs| => Summary(runs[r]))
  }

  /** The runs of a sequence, built from its end. */
  function Runs(es: seq<Event>): (runs: seq<seq<Event>>)
    ensures es == [] <==> runs == []
    ensures forall r :: 0 <= r < |runs| ==> runs[r] != []
    ensures es != [] ==> var last := runs[|runs| - 1]; last[|last| - 1] == es[|es| - 1]
  {
    if es == [] then []
    else
      var n := |es| - 1;
      var front := Runs(es[..n]);
      if n > 0 && es[n].time - es[n - 1].time < WINDOW_MS
      then front[|front| - 1 := front[|front| - 1] + [es[n]]]
      else front + [[es[n]]]
  }

  lemma FlattenLast(runs: seq<seq<Event>>, run: seq<Event>)
    ensures Flatten(runs + [run]) == Flatten(runs) + run
  {
    assert (runs + [run])[..|runs|] == runs;
  }

  lemma CloseLast(run: seq<Event>, e: Event)
    requires run != []
    ensures Close(run + [e]) <==> Close(run) && e.time - run[|run| - 1].time < WINDOW_MS
  {
    var all := run + [e];
    assert forall k :: 0 <= k < |run| ==> all[k] == run[k];
    if Close(all) {
      assert all[|run|].time - all[|run| - 1].time < WINDOW_MS;
      assert forall k :: 0 < k < |run| ==> all[k].time - all[k - 1].time < WINDOW_MS;
    }
  }

  /** Adding one run at the end keeps the runs maximal exactly when it is close and apart from the one before. */
  lemma {:induction false} RunsLast(runs: seq<seq<Event>>, run: seq<Event>)
    requires run != []
    requires forall r :: 0 <= r < |runs| ==> runs[r] != []
    ensures MaximalRuns(runs + [run], Flatten(runs) + run)
            <==> MaximalRuns(runs, Flatten(runs)) && Close(run) && (runs == [] || Apart(runs[|runs| - 1], run))
  {
    hide Close;
    hide Apart;
    hide Flatten;
    var all := runs + [run];
    FlattenLast(runs, run);
    assert forall r :: 0 <= r < |runs| ==> all[r] == runs[r];
    assert all[|runs|] == run;
    if MaximalRuns(all, Flatten(runs) + run) {
      assert forall r :: 0 < r < |runs| ==> Apart(all[r - 1], all[r]);
      assert runs == [] || Apart(all[|runs| - 1], all[|runs|]);
    }
  }

  lemma {:induction false} RunsAreMaximal(es: seq<Event>)
    ensures MaximalRuns(Runs(es), es)
  {
    if es != [] {
      var n := |es| - 1;
      var front := Runs(es[..n]);
      RunsAreMaximal(es[..n]);
      assert es == es[..n] + [es[n]];
      if n > 0 && es[n].time - es[n - 1].time < WINDOW_MS {
        ExtendRun(front, es[..n], es[n]);
      } else {
        StartRun(front, es[..n], es[n]);
      }
    }
  }

  lemma ExtendRun(runs: seq<seq<Event>>, es: seq<Event>, e: Event)
    requires runs != [] && MaximalRuns(runs, es)
    requires var last := runs[|runs| - 1]; e.time - last[|last| - 1].time < WINDOW_MS
    ensures MaximalRuns(runs[|runs| - 1 := runs[|runs| - 1] + [e]], es + [e])
  {
    hide MaximalRuns;
    hide Close;
    var front, last := runs[..|runs| - 1], runs[|runs| - 1];
    assert runs == front + [last];
    FlattenLast(front, last);
    NonEmptyRuns(runs, es);
    RunsLast(front, last);
    CloseLast(last, e);
    RunsLast(front, last + [e]);
    assert runs[|runs| - 1 := last + [e]] == front + [last + [e]];
    assert Flatten(front) + (last + [e]) == es + [e];
  }

  lemma {:induction false} StartRun(runs: seq<seq<Event>>, es: seq<Event>, e: Event)
    requires MaximalRuns(runs, es)
    requires runs != [] ==> Apart(runs[|runs| - 1], [e])
    ensures MaximalRuns(runs + [[e]], es + [e])
  {
    RunsLast(runs, [e]);
  }

  lemma NonEmptyRuns(runs: seq<seq<Event>>, es: seq<Event>)
    requires MaximalRuns(runs, es)
    ensures Flatten(runs) == es
    ensures forall r :: 0 <= r < |runs| ==> runs[r] != []
  {
  }

  lemma ConcatLast(a: seq<Event>, b: seq<Event>)
    requires b != []
    ensures var c, n := a + b, |a + b| - 1;
            && c[n] == b[|b| - 1] && c[..n] == a + b[..|b| - 1]
            && b == b[..|b| - 1] + [b[|b| - 1]] && (|b| == 1 ==> c[..n] == a && b == [c[n]])
  {
  }

  /** A maximal cut without its last event: the last run disappears or gets shorter. */
  lemma {:induction false} WithoutLast(front: seq<seq<Event>>, last: seq<Event>)
    requires last != [] && (forall r :: 0 <= r < |front| ==> front[r] != [])
    requires MaximalRuns(front + [last], Flatten(front) + last)
    ensures |last| == 1 ==> MaximalRuns(front, Flatten(front)) && (front == [] || Apart(front[|front| - 1], last))
    ensures |last| > 1 ==>
              var m := |last| - 1;
              && MaximalRuns(front + [last[..m]], Flatten(front) + last[..m])
              && last[m].time - last[m - 1].time < WINDOW_MS
  {
    hide MaximalRuns;
    hide Close;
    hide Flatten;
    RunsLast(front, last);
    if |last| > 1 {
      var m := |last| - 1;
      ConcatLast([], last);
      CloseLast(last[..m], last[m]);
      RunsLast(front, last[..m]);
    }
  }

  /** There is only one way to cut a sequence into maximal runs. */
  lemma {:induction false} MaximalRunsUnique(runs: seq<seq<Event>>, es: seq<Event>)
    requires MaximalRuns(runs, es)
    ensures runs == Runs(es)
    decreases |es|
  {
    hide MaximalRuns;
    hide Close;
    hide Runs;
    NonEmptyRuns(runs, es);
    if runs != [] {
      var front, last := runs[..|runs| - 1], runs[|runs| - 1];
      var n, m := |es| - 1, |last| - 1;
      assert runs == front + [last];
      FlattenLast(front, last);
      WithoutLast(front, last);
      ConcatLast(Flatten(front), last);
      hide Flatten;
      if m == 0 {
        MaximalRunsUnique(front, es[..n]);
        NewRunLast(front, last[0], es);
      } else {
        MaximalRunsUnique(front + [last[..m]], es[..n]);
        LongerRunLast(front, last[..m], last[m], es);
      }
    }
  }

  lemma {:induction false} NewRunLast(front: seq<seq<Event>>, e: Event, es: seq<Event>)
    requires es != [] && front == Runs(es[..|es| - 1]) && e == es[|es| - 1]
    requires forall r :: 0 <= r < |front| ==> front[r] != []
    requires front == [] || Apart(front[|front| - 1], [e])
    ensures Runs(es) == front + [[e]]
  {
  }

  lemma {:induction false} LongerRunLast(front: seq<seq<Event>>, shorter: seq<Event>, e: Event, es: seq<Event>)
    requires es != [] && front + [shorter] == Runs(es[..|es| - 1]) && e == es[|es| - 1]
    requires shorter != [] && e.time - shorter[|shorter| - 1].time < WINDOW_MS
    ensures Runs(es) == front + [shorter + [e]]
  {
    assert (front + [shorter])[|front| := shorter + [e]] == front + [shorter + [e]];
  }
}
