/** The incremental visit table agrees with the batch definition after any serial run of beacons. */
module VisitTheorems {
  import opened Wrappers
  import opened VisitSessions

  const EMPTY := Db([], [])

  predicate InTimeOrder(es: seq<Event>) {
    forall i, j :: 0 <= i < j < |es| ==> es[i].time <= es[j].time
  }

  predicate Agree(db: Db, visitor: string) {
    VisitsOf(db.visits, visitor) == Summaries(Runs(EventsOf(db.events, visitor)))
  }

  /** For every visitor the rows are the summaries of the maximal runs of that visitor's events. */
  ghost predicate Refines(db: Db) {
    forall v :: Agree(db, v)
  }

  // ---- filtering by visitor ----

  lemma EventsOfLast(events: seq<Event>, e: Event, visitor: string)
    ensures EventsOf(events + [e], visitor) == if e.visitor == visitor then EventsOf(events, visitor) + [e] else EventsOf(events, visitor)
  {
    assert (events + [e])[..|events|] == events;
  }

  lemma VisitsOfLast(visits: seq<Visit>, v: Visit, visitor: string)
    ensures VisitsOf(visits + [v], visitor) == if v.visitor == visitor then VisitsOf(visits, visitor) + [v] else VisitsOf(visits, visitor)
  {
    assert (visits + [v])[..|visits|] == visits;
  }

  lemma {:induction false} EventsOfOrdered(events: seq<Event>, visitor: string)
    requires InTimeOrder(events)
    ensures InTimeOrder(EventsOf(events, visitor))
    ensures forall e <- EventsOf(events, visitor) :: e in events && e.visitor == visitor
  {
    if events != [] {
      EventsOfOrdered(events[..|events| - 1], visitor);
    }
  }

  /** The place of a visitor's row among the visitor's rows. */
  lemma {:induction false} VisitPosition(visits: seq<Visit>, visitor: string, i: nat)
    requires i < |visits| && visits[i].visitor == visitor
    ensures var p := |VisitsOf(visits[..i], visitor)|;
            p < |VisitsOf(visits, visitor)| && VisitsOf(visits, visitor)[p] == visits[i]
  {
    var n := |visits| - 1;
    if i < n {
      VisitPosition(visits[..n], visitor, i);
      assert visits[..n][..i] == visits[..i];
    }
  }

  lemma {:induction false} OtherRowsKept(visits: seq<Visit>, visitor: string, i: nat, v: Visit)
    requires i < |visits| && visits[i].visitor != visitor && v.visitor != visitor
    ensures VisitsOf(visits[i := v], visitor) == VisitsOf(visits, visitor)
  {
    var n := |visits| - 1;
    if i < n {
      OtherRowsKept(visits[..n], visitor, i, v);
      assert visits[i := v][..n] == visits[..n][i := v];
    } else {
      assert visits[i := v][..n] == visits[..n];
    }
  }

  lemma {:induction false} LastRowReplaced(visits: seq<Visit>, visitor: string, i: nat, v: Visit)
    requires i < |visits| && visits[i].visitor == v.visitor == visitor
    requires forall j :: i < j < |visits| ==> visits[j].visitor != visitor
    ensures var rows := VisitsOf(visits, visitor);
            && rows != [] && rows[|rows| - 1] == visits[i]
            && VisitsOf(visits[i := v], visitor) == rows[..|rows| - 1] + [v]
  {
    var n := |visits| - 1;
    if i < n {
      LastRowReplaced(visits[..n], visitor, i, v);
      assert visits[i := v][..n] == visits[..n][i := v];
    } else {
      assert visits[i := v][..n] == visits[..n];
    }
  }

  // ---- one beacon keeps the two forms equal ----

  /** Only the last run can still be open: every earlier one ended a full window before the last event. */
  lemma {:induction false} EarlierRunsEnded(es: seq<Event>, p: nat)
    requires InTimeOrder(es) && p < |Runs(es)| - 1
    ensures Summary(Runs(es)[p]).lastSeenAt <= es[|es| - 1].time - WINDOW_MS
  {
    var n := |es| - 1;
    var front := Runs(es[..n]);
    if p < |front| - 1 {
      EarlierRunsEnded(es[..n], p);
      assert es[..n][n - 1] == es[n - 1];
    }
  }

  lemma RunsSnoc(es: seq<Event>, e: Event)
    ensures var front := Runs(es);
            Runs(es + [e]) == if es != [] && e.time - es[|es| - 1].time < WINDOW_MS
                              then front[|front| - 1 := front[|front| - 1] + [e]] else front + [[e]]
  {
    assert (es + [e])[..|es|] == es;
  }

  lemma SummariesExtended(runs: seq<seq<Event>>, e: Event)
    requires runs != [] && (forall r :: 0 <= r < |runs| ==> runs[r] != [])
    ensures var k := |runs| - 1;
            Summaries(runs[k := runs[k] + [e]])
            == Summaries(runs)[..k] + [Extended(Summary(runs[k]), e.path, e.time)]
  {
  }

  lemma SummariesStarted(runs: seq<seq<Event>>, e: Event)
    requires forall r :: 0 <= r < |runs| ==> runs[r] != []
    ensures Summaries(runs + [[e]])
            == Summaries(runs) + [Visit(e.visitor, e.time, e.time, 1, e.path, e.path, e.source)]
  {
  }

  /** The last row of a visitor was last seen at the visitor's last event. */
  lemma LastRowSeen(db: Db, visitor: string)
    requires Refines(db)
    ensures var es, vs := EventsOf(db.events, visitor), VisitsOf(db.visits, visitor);
            (es == [] <==> vs == []) && (es != [] ==> vs[|vs| - 1].lastSeenAt == es[|es| - 1].time)
  {
    var runs := Runs(EventsOf(db.events, visitor));
    assert Agree(db, visitor);
  }

  /** Of two rows of one visitor the earlier is no longer open. */
  lemma EarlierRowEnded(db: Db, now: int, i: nat, j: nat)
    requires Refines(db) && InTimeOrder(db.events) && (forall e <- db.events :: e.time <= now)
    requires i < j < |db.visits| && db.visits[i].visitor == db.visits[j].visitor
    ensures db.visits[i].lastSeenAt <= now - WINDOW_MS
  {
    var visitor := db.visits[i].visitor;
    var es := EventsOf(db.events, visitor);
    var runs := Runs(es);
    EventsOfOrdered(db.events, visitor);
    assert Agree(db, visitor);
    VisitPosition(db.visits, visitor, i);
    VisitPosition(db.visits, visitor, j);
    VisitPosition(db.visits[..j], visitor, i);
    assert db.visits[..j][..i] == db.visits[..i];
    EarlierRunsEnded(es, |VisitsOf(db.visits[..i], visitor)|);
    assert es[|es| - 1] in es;
  }

  /** An open visit is the visitor's last row. */
  lemma OpenIsLast(db: Db, visitor: string, now: int, i: nat)
    requires Refines(db) && InTimeOrder(db.events) && (forall e <- db.events :: e.time <= now)
    requires i < |db.visits| && OpenVisit(db.visits[i], visitor, now)
    ensures forall j :: i < j < |db.visits| ==> db.visits[j].visitor != visitor
  {
    forall j | i < j < |db.visits| && db.visits[j].visitor == visitor
      ensures false
    {
      EarlierRowEnded(db, now, i, j);
    }
  }

  lemma {:induction false} OtherVisitorAgrees(db: Db, b: Beacon, u: string)
    requires Agree(db, u) && u != b.visitor
    ensures Agree(Ingest(db, b), u)
  {
    if b.path.Some? && !Recorded(db.events, b.id) {
      match FindOpen(db.visits, b.visitor, b.now)
      case Some(i) =>
        EventsOfLast(db.events, Record(b, i), u);
        OtherRowsKept(db.visits, u, i, Extended(db.visits[i], b.path.value, b.now));
      case None =>
        EventsOfLast(db.events, Record(b, |db.visits|), u);
        VisitsOfLast(db.visits, Started(b), u);
    }
  }

  lemma ExtendedAgrees(db: Db, b: Beacon, i: nat)
    requires Refines(db) && InTimeOrder(db.events) && (forall e <- db.events :: e.time <= b.now)
    requires b.path.Some? && !Recorded(db.events, b.id) && FindOpen(db.visits, b.visitor, b.now) == Some(i)
    ensures Agree(Ingest(db, b), b.visitor)
  {
    hide Runs;
    hide EventsOf;
    hide VisitsOf;
    var u := b.visitor;
    var w := Extended(db.visits[i], b.path.value, b.now);
    var e := Record(b, i);
    var es := EventsOf(db.events, u);
    OpenIsLast(db, u, b.now, i);
    LastRowReplaced(db.visits, u, i, w);
    LastRowSeen(db, u);
    EventsOfLast(db.events, e, u);
    RunsSnoc(es, e);
    SummariesExtended(Runs(es), e);
    assert Agree(db, u);
  }

  lemma StartedAgrees(db: Db, b: Beacon)
    requires Refines(db)
    requires b.path.Some? && !Recorded(db.events, b.id) && FindOpen(db.visits, b.visitor, b.now) == None
    ensures Agree(Ingest(db, b), b.visitor)
  {
    hide Runs;
    hide EventsOf;
    hide VisitsOf;
    var u := b.visitor;
    var es := EventsOf(db.events, u);
    NoneOpen(db, b);
    EventsOfLast(db.events, Record(b, |db.visits|), u);
    VisitsOfLast(db.visits, Started(b), u);
    RunsSnoc(es, Record(b, |db.visits|));
    SummariesStarted(Runs(es), Record(b, |db.visits|));
    assert Agree(db, u);
  }

  /** Without an open visit the visitor's last event is a full window back. */
  lemma NoneOpen(db: Db, b: Beacon)
    requires Refines(db) && FindOpen(db.visits, b.visitor, b.now) == None
    ensures var es := EventsOf(db.events, b.visitor);
            es != [] ==> b.now - es[|es| - 1].time >= WINDOW_MS
  {
    var vs := VisitsOf(db.visits, b.visitor);
    LastRowSeen(db, b.visitor);
    if vs != [] {
      VisitsOfAreRows(db.visits, b.visitor);
      var last := vs[|vs| - 1];
      assert last in vs;
      assert !OpenVisit(last, b.visitor, b.now);
    }
  }

  lemma IngestRefines(db: Db, b: Beacon)
    requires Refines(db) && InTimeOrder(db.events) && (forall e <- db.events :: e.time <= b.now)
    ensures Refines(Ingest(db, b))
  {
    hide Ingest;
    forall u
      ensures Agree(Ingest(db, b), u)
    {
      assert Agree(db, u);
      if u != b.visitor {
        OtherVisitorAgrees(db, b, u);
      } else {
        SameVisitorAgrees(db, b);
      }
    }
  }

  lemma SameVisitorAgrees(db: Db, b: Beacon)
    requires Refines(db) && InTimeOrder(db.events) && (forall e <- db.events :: e.time <= b.now)
    ensures Agree(Ingest(db, b), b.visitor)
  {
    if b.path.Some? && !Recorded(db.events, b.id) {
      match FindOpen(db.visits, b.visitor, b.now)
      case Some(i) => ExtendedAgrees(db, b, i);
      case None => StartedAgrees(db, b);
    }
  }

  lemma {:induction false} VisitsOfAreRows(visits: seq<Visit>, visitor: string)
    ensures forall v <- VisitsOf(visits, visitor) :: v in visits && v.visitor == visitor
  {
    if visits != [] {
      VisitsOfAreRows(visits[..|visits| - 1], visitor);
    }
  }

  lemma IngestKeepsOrder(db: Db, b: Beacon)
    requires InTimeOrder(db.events) && (forall e <- db.events :: e.time <= b.now)
    ensures InTimeOrder(Ingest(db, b).events) && (forall e <- Ingest(db, b).events :: e.time <= b.now)
  {
  }

  lemma {:induction false} RunKeepsOrder(bs: seq<Beacon>, now: int)
    requires InClockOrder(bs) && (forall b <- bs :: b.now <= now)
    ensures InTimeOrder(IngestAll(EMPTY, bs).events)
    ensures forall e <- IngestAll(EMPTY, bs).events :: e.time <= now
  {
    if bs != [] {
      var n := |bs| - 1;
      RunKeepsOrder(bs[..n], bs[n].now);
      IngestKeepsOrder(IngestAll(EMPTY, bs[..n]), bs[n]);
    }
  }

  lemma {:induction false} RunRefines(bs: seq<Beacon>)
    requires InClockOrder(bs)
    ensures Refines(IngestAll(EMPTY, bs))
  {
    if bs == [] {
      assert forall v :: EventsOf([], v) == [] && VisitsOf([], v) == [];
    } else {
      var n := |bs| - 1;
      var db, b := IngestAll(EMPTY, bs[..n]), bs[n];
      RunRefines(bs[..n]);
      RunKeepsOrder(bs[..n], b.now);
      IngestRefines(db, b);
    }
  }

  /** After any serial run of beacons, however a visitor's recorded events are cut into runs with less than
      thirty minutes between neighbours inside a run and at least thirty minutes between runs, the visitor's
      rows are these runs in order: first and last time, number of page views, first and last page, and the
      source of the first page view. */
  lemma {:induction false} VisitsAreTheMaximalRuns(bs: seq<Beacon>, visitor: string, runs: seq<seq<Event>>)
    requires InClockOrder(bs)
    requires Flatten(runs) == EventsOf(IngestAll(EMPTY, bs).events, visitor)
    requires forall r :: 0 <= r < |runs| ==> runs[r] != []
    requires forall r :: 0 <= r < |runs| ==> forall k :: 0 < k < |runs[r]| ==> runs[r][k].time - runs[r][k - 1].time < 1800000
    requires forall r :: 0 < r < |runs| ==> runs[r][0].time - runs[r - 1][|runs[r - 1]| - 1].time >= 1800000
    ensures var rows := VisitsOf(IngestAll(EMPTY, bs).visits, visitor);
            && |rows| == |runs|
            && forall r :: 0 <= r < |runs| ==>
                 var run := runs[r];
                 rows[r] == Visit(run[0].visitor, run[0].time, run[|run| - 1].time, |run|,
                                  run[0].path, run[|run| - 1].path, run[0].source)
  {
    var db := IngestAll(EMPTY, bs);
    RunRefines(bs);
    assert Agree(db, visitor);
    hide IngestAll, EventsOf, VisitsOf, Flatten, Refines, Runs, MaximalRuns;
    RunsAsDefined(runs, EventsOf(db.events, visitor));
    MaximalRunsUnique(runs, EventsOf(db.events, visitor));
  }

  /** The cut in so many words is a cut into maximal runs. */
  lemma RunsAsDefined(runs: seq<seq<Event>>, es: seq<Event>)
    requires Flatten(runs) == es
    requires forall r :: 0 <= r < |runs| ==> runs[r] != []
    requires forall r :: 0 <= r < |runs| ==> forall k :: 0 < k < |runs[r]| ==> runs[r][k].time - runs[r][k - 1].time < 1800000
    requires forall r :: 0 < r < |runs| ==> runs[r][0].time - runs[r - 1][|runs[r - 1]| - 1].time >= 1800000
    ensures MaximalRuns(runs, es)
  {
    hide Flatten;
    forall r | 0 <= r < |runs| ensures Close(runs[r]) {}
    forall r | 0 < r < |runs| ensures Apart(runs[r - 1], runs[r]) {}
  }

  /** At any later moment, a row last seen less than thirty minutes ago is the visitor's last row. */
  lemma OpenVisitIsLast(bs: seq<Beacon>, now: int, i: nat, j: nat)
    requires InClockOrder(bs) && (forall b <- bs :: b.now <= now)
    requires i < j < |IngestAll(EMPTY, bs).visits|
    ensures var rows := IngestAll(EMPTY, bs).visits;
            rows[i].visitor == rows[j].visitor ==> now - rows[i].lastSeenAt >= 1800000
  {
    RunRefines(bs);
    RunKeepsOrder(bs, now);
    var db := IngestAll(EMPTY, bs);
    if db.visits[i].visitor == db.visits[j].visitor {
      EarlierRowEnded(db, now, i, j);
    }
  }

  // ---- redelivered events ----

  /** Some earlier delivery on a tracked route carried this id. */
  predicate Repeated(bs: seq<Beacon>, id: string) {
    exists j :: 0 <= j < |bs| && bs[j].path.Some? && bs[j].id == id
  }

  /** The deliveries that count: first of their id among those on a tracked route. */
  function FirstDeliveries(bs: seq<Beacon>): seq<Beacon> {
    if bs == [] then []
    else
      var n := |bs| - 1;
      var front := FirstDeliveries(bs[..n]);
      if bs[n].path.None? || Repeated(bs[..n], bs[n].id) then front
      else front + [bs[n]]
  }

  /** What is recorded of a delivery, apart from the row it was counted in. */
  predicate Records(e: Event, b: Beacon) {
    && b.path == Some(e.path)
    && e.id == b.id && e.visitor == b.visitor && e.time == b.now && e.source == b.source
  }

  ghost predicate RecordsAll(events: seq<Event>, bs: seq<Beacon>) {
    |events| == |bs| && forall k :: 0 <= k < |bs| ==> Records(events[k], bs[k])
  }

  lemma {:induction false} RecordedAre(bs: seq<Beacon>)
    ensures forall id :: Recorded(IngestAll(EMPTY, bs).events, id) <==> Repeated(bs, id)
  {
    if bs != [] {
      var n := |bs| - 1;
      RecordedAre(bs[..n]);
      assert bs == bs[..n] + [bs[n]];
      forall id
        ensures Recorded(IngestAll(EMPTY, bs).events, id) <==> Repeated(bs, id)
      {
        RecordedStep(IngestAll(EMPTY, bs[..n]), bs[n], id);
        RepeatedStep(bs[..n], bs[n], id);
      }
    }
  }

  lemma RepeatedStep(bs: seq<Beacon>, b: Beacon, id: string)
    ensures Repeated(bs + [b], id) <==> Repeated(bs, id) || (b.path.Some? && b.id == id)
  {
    var all := bs + [b];
    assert all[|bs|] == b;
    assert forall j :: 0 <= j < |bs| ==> all[j] == bs[j];
  }

  lemma RecordedStep(db: Db, b: Beacon, id: string)
    ensures Recorded(Ingest(db, b).events, id) <==> Recorded(db.events, id) || (b.path.Some? && b.id == id)
  {
    var after := Ingest(db, b);
    if after != db {
      assert after.events[..|db.events|] == db.events;
      assert after.events[|db.events|].id == b.id;
      if i :| 0 <= i < |db.events| && db.events[i].id == id {
        assert after.events[i].id == id;
      }
    }
  }

  lemma IngestEffect(db: Db, b: Beacon, front: seq<Beacon>)
    requires RecordsAll(db.events, front)
    ensures b.path.None? || Recorded(db.events, b.id) ==> Ingest(db, b) == db
    ensures b.path.Some? && !Recorded(db.events, b.id) ==> RecordsAll(Ingest(db, b).events, front + [b])
  {
    if b.path.Some? && !Recorded(db.events, b.id) {
      var after := Ingest(db, b).events;
      assert |after| == |db.events| + 1 && Records(after[|db.events|], b);
      forall k | 0 <= k < |front|
        ensures Records(after[k], (front + [b])[k])
      {
        assert after[k] == db.events[k];
      }
    }
  }

  /** Redelivered and excluded beacons change nothing: a run equals the run of its first deliveries,
      each of which is recorded once and as sent. */
  lemma {:induction false} RedeliveryChangesNothing(bs: seq<Beacon>)
    ensures IngestAll(EMPTY, bs) == IngestAll(EMPTY, FirstDeliveries(bs))
    ensures RecordsAll(IngestAll(EMPTY, bs).events, FirstDeliveries(bs))
  {
    if bs != [] {
      hide Ingest;
      hide RecordsAll;
      var n := |bs| - 1;
      var db, b, front := IngestAll(EMPTY, bs[..n]), bs[n], FirstDeliveries(bs[..n]);
      RedeliveryChangesNothing(bs[..n]);
      RecordedAre(bs[..n]);
      IngestEffect(db, b, front);
      assert (front + [b])[..|front|] == front;
    }
  }

  /** No event id is recorded twice. */
  lemma {:induction false} EventIdsDistinct(bs: seq<Beacon>)
    ensures DistinctIds(IngestAll(EMPTY, bs).events)
  {
    if bs != [] {
      var db, b := IngestAll(EMPTY, bs[..|bs| - 1]), bs[|bs| - 1];
      EventIdsDistinct(bs[..|bs| - 1]);
      IdsStayDistinct(db, b);
    }
  }

  ghost predicate DistinctIds(events: seq<Event>) {
    forall i, j :: 0 <= i < j < |events| ==> events[i].id != events[j].id
  }

  lemma IdsStayDistinct(db: Db, b: Beacon)
    requires DistinctIds(db.events)
    ensures DistinctIds(Ingest(db, b).events)
  {
    if b.path.Some? && !Recorded(db.events, b.id) {
      var after := Ingest(db, b).events;
      assert forall i :: 0 <= i < |db.events| ==> after[i] == db.events[i];
      assert after[|db.events|].id == b.id;
    }
  }

  // ---- the row an event is counted in ----

  function EventsIn(events: seq<Event>, row: nat): seq<Event> {
    if events == [] then []
    else
      var n := |events| - 1;
      var front := EventsIn(events[..n], row);
      if events[n].visit == row then front + [events[n]] else front
  }

  ghost predicate RowMatches(db: Db, row: nat)
    requires row < |db.visits|
  {
    var run := EventsIn(db.events, row);
    && run != []
    && db.visits[row] == Visit(run[0].visitor, run[0].time, run[|run| - 1].time, |run|,
                               run[0].path, run[|run| - 1].path, run[0].source)
  }

  /** Every event is counted in a row of its own visitor, and every row summarises exactly its events. */
  ghost predicate RowsMatch(db: Db) {
    && (forall e <- db.events :: e.visit < |db.visits| && db.visits[e.visit].visitor == e.visitor)
    && (forall row :: 0 <= row < |db.visits| ==> RowMatches(db, row))
  }

  lemma EventsInLast(events: seq<Event>, e: Event, row: nat)
    ensures EventsIn(events + [e], row)
            == if e.visit == row then EventsIn(events, row) + [e] else EventsIn(events, row)
  {
    assert (events + [e])[..|events|] == events;
  }

  lemma {:induction false} NoEventsIn(events: seq<Event>, row: nat)
    requires forall e <- events :: e.visit < row
    ensures EventsIn(events, row) == []
  {
    if events != [] {
      NoEventsIn(events[..|events| - 1], row);
      assert events[|events| - 1] in events;
    }
  }

  lemma SummaryExtended(run: seq<Event>, e: Event)
    requires run != []
    ensures Summary(run + [e]) == Extended(Summary(run), e.path, e.time)
  {
  }

  /** One recorded beacon leaves every other row alone and adds its event to its own row. */
  lemma IngestRow(db: Db, b: Beacon, row: nat, j: nat)
    requires RowsMatch(db) && b.path.Some? && !Recorded(db.events, b.id)
    requires row == (match FindOpen(db.visits, b.visitor, b.now) case Some(i) => i case None => |db.visits|)
    requires j < |Ingest(db, b).visits|
    ensures RowMatches(Ingest(db, b), j)
  {
    var e := Record(b, row);
    EventsInLast(db.events, e, j);
    NoEventsIn(db.events, |db.visits|);
    if j < |db.visits| {
      assert RowMatches(db, j);
      SummaryExtended(EventsIn(db.events, j), e);
    }
    hide EventsIn;
    hide FindOpen;
  }

  lemma IngestRowsMatch(db: Db, b: Beacon)
    requires RowsMatch(db)
    ensures RowsMatch(Ingest(db, b))
  {
    hide RowMatches;
    if b.path.Some? && !Recorded(db.events, b.id) {
      var after := Ingest(db, b);
      var row := match FindOpen(db.visits, b.visitor, b.now) case Some(i) => i case None => |db.visits|;
      forall j | 0 <= j < |after.visits|
        ensures RowMatches(after, j)
      {
        IngestRow(db, b, row, j);
      }
      forall e <- after.events
        ensures e.visit < |after.visits| && after.visits[e.visit].visitor == e.visitor
      {
        assert e in db.events || e == Record(b, row);
      }
    }
  }

  lemma {:induction false} RunRowsMatch(bs: seq<Beacon>)
    ensures RowsMatch(IngestAll(EMPTY, bs))
  {
    if bs != [] {
      RunRowsMatch(bs[..|bs| - 1]);
      IngestRowsMatch(IngestAll(EMPTY, bs[..|bs| - 1]), bs[|bs| - 1]);
    }
  }
}
