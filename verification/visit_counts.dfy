/** The daily table counted straight from the raw rows: which visits and page views stand behind every row. */
module VisitCounts {
  import opened Sums
  import opened VisitSessions
  import opened VisitTheorems
  import opened VisitRollup

  // ---- the raw rows behind a row of the table, by their positions ----

  /** Human visits that started on the day. */
  function HumanVisits(db: Db, day: int): set<nat> {
    set i: nat | i < |db.visits| && day <= db.visits[i].startedAt < day + 86400000 && !db.visits[i].source.isBot
  }

  function CountryVisits(db: Db, day: int, country: string): set<nat> {
    set i: nat | i < |db.visits| && day <= db.visits[i].startedAt < day + 86400000 && !db.visits[i].source.isBot
      && (if db.visits[i].source.country.Some? then db.visits[i].source.country.value else "Unknown") == country
  }

  function ReferrerVisits(db: Db, day: int, referrer: string): set<nat> {
    set i: nat | i < |db.visits| && day <= db.visits[i].startedAt < day + 86400000 && !db.visits[i].source.isBot
      && (if db.visits[i].source.referrer.Some? then db.visits[i].source.referrer.value else "Direct / none") == referrer
  }

  function DeviceVisits(db: Db, day: int, device: string): set<nat> {
    set i: nat | i < |db.visits| && day <= db.visits[i].startedAt < day + 86400000 && !db.visits[i].source.isBot
      && db.visits[i].source.device == device
  }

  /** Human page views of the day. */
  function HumanViews(db: Db, day: int): set<nat> {
    set i: nat | i < |db.events| && day <= db.events[i].time < day + 86400000 && !db.events[i].source.isBot
  }

  /** Those of one path whose visit row still exists. */
  function RouteViews(db: Db, day: int, path: string): set<nat> {
    set i: nat | i < |db.events| && day <= db.events[i].time < day + 86400000 && !db.events[i].source.isBot
      && db.events[i].path == path && db.events[i].visit < |db.visits|
  }

  /** Page views of the visits at these positions, added up. */
  function ViewsAmong(visits: seq<Visit>, at: set<nat>): nat {
    if visits == [] then 0
    else
      var n := |visits| - 1;
      ViewsAmong(visits[..n], at - {n}) + if n in at then visits[n].pageViews else 0
  }

  /** The row counts the visits at these positions; without any there is no row. */
  ghost predicate CountsVisits(table: Table, key: Key, db: Db, at: set<nat>)
    requires forall i <- at :: i < |db.visits|
  {
    if at == {} then key !in table
    else
      key in table && table[key] == Figures(
        |at|, ViewsAmong(db.visits, at), |set i | i in at && db.visits[i].pageViews == 1|, |set i | i in at :: db.visits[i].visitor|)
  }

  ghost predicate CountsViews(table: Table, key: Key, db: Db, at: set<nat>)
    requires forall i <- at :: i < |db.events| && db.events[i].visit < |db.visits|
  {
    if at == {} then key !in table
    else
      key in table && table[key] == Figures(
        |set i | i in at :: db.events[i].visit|, |at|,
        |set i | i in at && db.visits[db.events[i].visit].pageViews == 1 :: db.events[i].visit|,
        |set i | i in at :: db.events[i].visitor|)
  }

  /** Every row the table has for the day, and every row it does not have. */
  ghost predicate DayCounted(table: Table, db: Db, day: int) {
    && (forall c: string :: CountsVisits(table, Key(day, Country, c), db, CountryVisits(db, day, c)))
    && (forall r: string :: CountsVisits(table, Key(day, Referrer, r), db, ReferrerVisits(db, day, r)))
    && (forall d: string :: CountsVisits(table, Key(day, Device, d), db, DeviceVisits(db, day, d)))
    && (forall p: string :: CountsViews(table, Key(day, Route, p), db, RouteViews(db, day, p)))
    && Key(day, All, "*") in table
    && table[Key(day, All, "*")] == Figures(
         |HumanVisits(db, day)|, |HumanViews(db, day)|,
         |set i | i in HumanVisits(db, day) && db.visits[i].pageViews == 1|,
         |set i | i in HumanViews(db, day) :: db.events[i].visitor|)
    && (forall key <- table :: key.date == day && key.dimension == All ==> key.value == "*")
  }

  // ---- the rows at given positions, in order ----

  function Chosen<T>(xs: seq<T>, at: set<nat>): seq<T> {
    if xs == [] then []
    else
      var n := |xs| - 1;
      Chosen(xs[..n], at - {n}) + if n in at then [xs[n]] else []
  }

  lemma {:induction false} ChosenSize<T>(xs: seq<T>, at: set<nat>)
    requires forall i <- at :: i < |xs|
    ensures |Chosen(xs, at)| == |at|
  {
    if xs == [] {
      assert at == {};
    } else {
      var n := |xs| - 1;
      ChosenSize(xs[..n], at - {n});
      assert at == if n in at then (at - {n}) + {n} else at - {n};
    }
  }

  lemma {:induction false} ChosenRows<T>(xs: seq<T>, at: set<nat>)
    requires forall i <- at :: i < |xs|
    ensures forall i <- at :: xs[i] in Chosen(xs, at)
    ensures forall x <- Chosen(xs, at) :: exists i :: i in at && xs[i] == x
  {
    if xs != [] {
      var n := |xs| - 1;
      var front := Chosen(xs[..n], at - {n});
      ChosenRows(xs[..n], at - {n});
      forall i | i in at ensures xs[i] in Chosen(xs, at) {
        assert i != n ==> xs[..n][i] in front;
      }
      forall x | x in Chosen(xs, at) ensures exists i :: i in at && xs[i] == x {
        if x in front {
          var i :| i in at - {n} && xs[..n][i] == x;
          assert xs[i] == x;
        }
      }
    }
  }

  // ---- what the figures count ----

  lemma TallyChosen(visits: seq<Visit>, at: set<nat>, m: Measure)
    requires visits != []
    ensures var n := |visits| - 1;
            Tally(m, Chosen(visits, at))
            == Tally(m, Chosen(visits[..n], at - {n})) + if n in at then Weight(m, visits[n]) else 0
  {
    var n := |visits| - 1;
    var front := Chosen(visits[..n], at - {n});
    TallyLast(m, front, visits[n]);
    assert front + [] == front;
  }

  lemma {:induction false} TallyVisits(visits: seq<Visit>, at: set<nat>)
    requires forall i <- at :: i < |visits|
    ensures Tally(Visits, Chosen(visits, at)) == |at|
  {
    if visits == [] {
      assert at == {};
    } else {
      var n := |visits| - 1;
      TallyVisits(visits[..n], at - {n});
      TallyChosen(visits, at, Visits);
      assert at == if n in at then (at - {n}) + {n} else at - {n};
    }
  }

  lemma {:induction false} TallyViews(visits: seq<Visit>, at: set<nat>)
    ensures Tally(PageViews, Chosen(visits, at)) == ViewsAmong(visits, at)
  {
    if visits != [] {
      var n := |visits| - 1;
      TallyViews(visits[..n], at - {n});
      TallyChosen(visits, at, PageViews);
    }
  }

  function BouncedAt(visits: seq<Visit>, at: set<nat>): set<nat> {
    set i | i in at && i < |visits| && visits[i].pageViews == 1
  }

  lemma {:induction false} TallyBounces(visits: seq<Visit>, at: set<nat>)
    ensures Tally(Bounces, Chosen(visits, at)) == |BouncedAt(visits, at)|
  {
    if visits == [] {
      assert BouncedAt(visits, at) == {};
    } else {
      var n := |visits| - 1;
      TallyBounces(visits[..n], at - {n});
      TallyChosen(visits, at, Bounces);
      hide Tally, Chosen;
      BouncedLast(visits, at);
      hide BouncedAt;
    }
  }

  lemma BouncedLast(visits: seq<Visit>, at: set<nat>)
    requires visits != []
    ensures var n := |visits| - 1;
            |BouncedAt(visits, at)|
            == |BouncedAt(visits[..n], at - {n})| + if n in at && visits[n].pageViews == 1 then 1 else 0
  {
    var n := |visits| - 1;
    var all, bounced := BouncedAt(visits, at), BouncedAt(visits[..n], at - {n});
    if n in at && visits[n].pageViews == 1 {
      assert all == bounced + {n};
    } else {
      assert all == bounced;
    }
  }

  lemma VisitTallies(visits: seq<Visit>, at: set<nat>)
    requires forall i <- at :: i < |visits|
    ensures Tally(Visits, Chosen(visits, at)) == |at|
    ensures Tally(PageViews, Chosen(visits, at)) == ViewsAmong(visits, at)
    ensures Tally(Bounces, Chosen(visits, at)) == |set i | i in at && visits[i].pageViews == 1|
  {
    TallyVisits(visits, at);
    TallyViews(visits, at);
    TallyBounces(visits, at);
    assert BouncedAt(visits, at) == set i | i in at && visits[i].pageViews == 1;
  }

  lemma VisitsCounted(visits: seq<Visit>, at: set<nat>)
    requires forall i <- at :: i < |visits|
    ensures VisitFigures(Chosen(visits, at)) == Figures(
              |at|, ViewsAmong(visits, at), |set i | i in at && visits[i].pageViews == 1|, |set i | i in at :: visits[i].visitor|)
  {
    VisitTallies(visits, at);
    ChosenRows(visits, at);
    hide Chosen, Tally, ViewsAmong;
    assert (set v <- Chosen(visits, at) :: v.visitor) == set i | i in at :: visits[i].visitor;
  }

  lemma ViewsCounted(events: seq<Event>, visits: seq<Visit>, at: set<nat>)
    requires forall i <- at :: i < |events| && events[i].visit < |visits|
    ensures RouteFigures(Chosen(events, at), visits) == Figures(
              |set i | i in at :: events[i].visit|, |at|,
              |set i | i in at && visits[events[i].visit].pageViews == 1 :: events[i].visit|,
              |set i | i in at :: events[i].visitor|)
  {
    ChosenSize(events, at);
    ChosenRows(events, at);
    hide Chosen;
    var es := Chosen(events, at);
    assert (set e <- es :: e.visit) == set i | i in at :: events[i].visit;
    assert (set e <- es | e.visit < |visits| && visits[e.visit].pageViews == 1 :: e.visit)
        == set i | i in at && visits[events[i].visit].pageViews == 1 :: events[i].visit;
    assert (set e <- es :: e.visitor) == set i | i in at :: events[i].visitor;
  }

  // ---- which rows each group of the rollup holds ----

  lemma {:induction false} DayVisitsAre(visits: seq<Visit>, day: int, at: set<nat>)
    requires forall i: nat :: i in at <==> i < |visits| && OnDay(day, visits[i].startedAt) && !visits[i].source.isBot
    ensures DayVisits(visits, day) == Chosen(visits, at)
  {
    if visits != [] {
      DayVisitsAre(visits[..|visits| - 1], day, at - {|visits| - 1});
    }
  }

  lemma {:induction false} DayEventsAre(events: seq<Event>, day: int, at: set<nat>)
    requires forall i: nat :: i in at <==> i < |events| && OnDay(day, events[i].time) && !events[i].source.isBot
    ensures DayEvents(events, day) == Chosen(events, at)
  {
    if events != [] {
      DayEventsAre(events[..|events| - 1], day, at - {|events| - 1});
    }
  }

  lemma GroupPush(vs: seq<Visit>, v: Visit, dim: Dimension, value: string)
    ensures Group(vs + [v], dim, value) == Group(vs, dim, value) + if ValueOf(dim, v) == value then [v] else []
  {
    assert (vs + [v])[..|vs|] == vs;
  }

  lemma {:induction false} GroupIs(visits: seq<Visit>, day: int, dim: Dimension, value: string, at: set<nat>)
    requires forall i: nat :: i in at <==>
               i < |visits| && OnDay(day, visits[i].startedAt) && !visits[i].source.isBot && ValueOf(dim, visits[i]) == value
    ensures Group(DayVisits(visits, day), dim, value) == Chosen(visits, at)
  {
    if visits != [] {
      var n := |visits| - 1;
      GroupStep(visits, day, dim, value);
      hide Group, DayVisits, ValueOf, OnDay;
      GroupIs(visits[..n], day, dim, value, at - {n});
    }
  }

  lemma GroupStep(visits: seq<Visit>, day: int, dim: Dimension, value: string)
    requires visits != []
    ensures var n := |visits| - 1;
            var front := Group(DayVisits(visits[..n], day), dim, value);
            Group(DayVisits(visits, day), dim, value)
            == if OnDay(day, visits[n].startedAt) && !visits[n].source.isBot && ValueOf(dim, visits[n]) == value
               then front + [visits[n]] else front + []
  {
    var n := |visits| - 1;
    hide Group, ValueOf;
    GroupPush(DayVisits(visits[..n], day), visits[n], dim, value);
    var front := Group(DayVisits(visits[..n], day), dim, value);
    assert front + [] == front;
  }

  lemma PathPush(es: seq<Event>, e: Event, visits: seq<Visit>, path: string)
    ensures OnPath(Joined(es + [e], visits), path)
         == OnPath(Joined(es, visits), path) + if e.visit < |visits| && e.path == path then [e] else []
  {
    assert (es + [e])[..|es|] == es;
    var joined := Joined(es, visits);
    assert (joined + [e])[..|joined|] == joined;
  }

  lemma {:induction false} RouteIs(events: seq<Event>, visits: seq<Visit>, day: int, path: string, at: set<nat>)
    requires forall i: nat :: i in at <==>
               i < |events| && OnDay(day, events[i].time) && !events[i].source.isBot
               && events[i].path == path && events[i].visit < |visits|
    ensures OnPath(Joined(DayEvents(events, day), visits), path) == Chosen(events, at)
  {
    if events != [] {
      var n := |events| - 1;
      RouteStep(events, visits, day, path);
      hide OnPath, Joined, DayEvents, OnDay;
      RouteIs(events[..n], visits, day, path, at - {n});
    }
  }

  lemma RouteStep(events: seq<Event>, visits: seq<Visit>, day: int, path: string)
    requires events != []
    ensures var n := |events| - 1;
            var front := OnPath(Joined(DayEvents(events[..n], day), visits), path);
            OnPath(Joined(DayEvents(events, day), visits), path)
            == if OnDay(day, events[n].time) && !events[n].source.isBot && events[n].path == path && events[n].visit < |visits|
               then front + [events[n]] else front + []
  {
    var n := |events| - 1;
    hide OnPath, Joined;
    PathPush(DayEvents(events[..n], day), events[n], visits, path);
    var front := OnPath(Joined(DayEvents(events[..n], day), visits), path);
    assert front + [] == front;
  }

  lemma {:induction false} GroupEmpty(vs: seq<Visit>, day: int, dim: Dimension, value: string)
    ensures Group(vs, dim, value) == [] <==> Key(day, dim, value) !in VisitKeys(vs, day, dim)
  {
    hide ValueOf;
    if vs != [] {
      var n := |vs| - 1;
      GroupEmpty(vs[..n], day, dim, value);
      assert vs == vs[..n] + [vs[n]];
      assert VisitKeys(vs, day, dim) == VisitKeys(vs[..n], day, dim) + {Key(day, dim, ValueOf(dim, vs[n]))};
    }
  }

  lemma {:induction false} PathEmpty(es: seq<Event>, day: int, path: string)
    ensures OnPath(es, path) == [] <==> Key(day, Route, path) !in RouteKeys(es, day)
  {
    if es != [] {
      var n := |es| - 1;
      PathEmpty(es[..n], day, path);
      assert es == es[..n] + [es[n]];
      assert RouteKeys(es, day) == RouteKeys(es[..n], day) + {Key(day, Route, es[n].path)};
    }
  }

  // ---- the rows of a rollup ----

  /** A row of the rollup comes from the table of its dimension. */
  lemma {:induction false} RowFrom(db: Db, day: int, key: Key)
    ensures var vs, es := DayVisits(db.visits, day), DayEvents(db.events, day);
            SameRow(RollupRows(db, day),
                    match key.dimension
                    case All => map[Key(day, All, "*") := DayFigures(vs, es)]
                    case Country => VisitRows(vs, day, Country)
                    case Referrer => VisitRows(vs, day, Referrer)
                    case Device => VisitRows(vs, day, Device)
                    case Route => RouteRows(Joined(es, db.visits), db.visits, day), key)
  {
    var vs, es := DayVisits(db.visits, day), DayEvents(db.events, day);
    RowsWithin(vs, Joined(es, db.visits), db.visits, day, Country);
    RowsWithin(vs, es, db.visits, day, Referrer);
    RowsWithin(vs, es, db.visits, day, Device);
    hide VisitRows, RouteRows, DayFigures, DayVisits, DayEvents, Joined;
  }

  lemma {:induction false} VisitRowAt(db: Db, day: int, dim: Dimension, value: string)
    requires dim in VISIT_DIMENSIONS
    ensures var rows, key, group := RollupRows(db, day), Key(day, dim, value), Group(DayVisits(db.visits, day), dim, value);
            && (key in rows <==> group != [])
            && (key in rows ==> rows[key] == VisitFigures(group))
  {
    hide RollupRows, Group, VisitFigures, DayVisits, RouteRows, DayFigures, Joined, DayEvents, VisitKeys;
    RowFrom(db, day, Key(day, dim, value));
    GroupEmpty(DayVisits(db.visits, day), day, dim, value);
  }

  lemma {:induction false} VisitRowCounted(db: Db, day: int, dim: Dimension, value: string, at: set<nat>)
    requires dim in VISIT_DIMENSIONS
    requires forall i: nat :: i in at <==>
               i < |db.visits| && OnDay(day, db.visits[i].startedAt) && !db.visits[i].source.isBot
               && ValueOf(dim, db.visits[i]) == value
    ensures CountsVisits(RollupRows(db, day), Key(day, dim, value), db, at)
  {
    hide RollupRows, VisitFigures, Group, Chosen, DayVisits, ViewsAmong, ValueOf;
    VisitRowAt(db, day, dim, value);
    GroupIs(db.visits, day, dim, value, at);
    ChosenSize(db.visits, at);
    VisitsCounted(db.visits, at);
    assert at == {} <==> |at| == 0;
  }

  lemma {:induction false} RouteRowAt(db: Db, day: int, path: string)
    ensures var rows, key := RollupRows(db, day), Key(day, Route, path);
            var group := OnPath(Joined(DayEvents(db.events, day), db.visits), path);
            && (key in rows <==> group != [])
            && (key in rows ==> rows[key] == RouteFigures(group, db.visits))
  {
    hide RollupRows, OnPath, RouteFigures, DayVisits, VisitRows, DayFigures, Joined, DayEvents, RouteKeys;
    RowFrom(db, day, Key(day, Route, path));
    PathEmpty(Joined(DayEvents(db.events, day), db.visits), day, path);
  }

  lemma {:induction false} RouteRowCounted(db: Db, day: int, path: string, at: set<nat>)
    requires forall i: nat :: i in at <==>
               i < |db.events| && OnDay(day, db.events[i].time) && !db.events[i].source.isBot
               && db.events[i].path == path && db.events[i].visit < |db.visits|
    ensures CountsViews(RollupRows(db, day), Key(day, Route, path), db, at)
  {
    hide RollupRows, RouteFigures, OnPath, Chosen, DayEvents, Joined;
    RouteRowAt(db, day, path);
    RouteIs(db.events, db.visits, day, path, at);
    ChosenSize(db.events, at);
    ViewsCounted(db.events, db.visits, at);
    assert at == {} <==> |at| == 0;
  }

  lemma {:induction false} HeadlineCounted(db: Db, day: int)
    ensures var table := RollupRows(db, day);
            && Key(day, All, "*") in table
            && table[Key(day, All, "*")] == Figures(
                 |HumanVisits(db, day)|, |HumanViews(db, day)|,
                 |set i | i in HumanVisits(db, day) && db.visits[i].pageViews == 1|,
                 |set i | i in HumanViews(db, day) :: db.events[i].visitor|)
            && (forall key <- table :: key.date == day && key.dimension == All ==> key.value == "*")
  {
    var vs, es := HumanVisits(db, day), HumanViews(db, day);
    DayVisitsAre(db.visits, day, vs);
    DayEventsAre(db.events, day, es);
    VisitTallies(db.visits, vs);
    ChosenSize(db.events, es);
    ChosenRows(db.events, es);
    hide Chosen, Tally, ViewsAmong, DayVisits, DayEvents;
    assert (set e <- Chosen(db.events, es) :: e.visitor) == set i | i in es :: db.events[i].visitor;
    hide RollupRows;
    forall key: Key | key in RollupRows(db, day) && key.dimension == All ensures key == Key(day, All, "*") {
      RowFrom(db, day, key);
    }
    RowFrom(db, day, Key(day, All, "*"));
  }

  lemma {:induction false} RollupCounted(db: Db, day: int)
    ensures DayCounted(RollupRows(db, day), db, day)
  {
    hide RollupRows;
    forall c: string ensures CountsVisits(RollupRows(db, day), Key(day, Country, c), db, CountryVisits(db, day, c)) {
      VisitRowCounted(db, day, Country, c, CountryVisits(db, day, c));
    }
    forall r: string ensures CountsVisits(RollupRows(db, day), Key(day, Referrer, r), db, ReferrerVisits(db, day, r)) {
      VisitRowCounted(db, day, Referrer, r, ReferrerVisits(db, day, r));
    }
    forall d: string ensures CountsVisits(RollupRows(db, day), Key(day, Device, d), db, DeviceVisits(db, day, d)) {
      VisitRowCounted(db, day, Device, d, DeviceVisits(db, day, d));
    }
    forall p: string ensures CountsViews(RollupRows(db, day), Key(day, Route, p), db, RouteViews(db, day, p)) {
      RouteRowCounted(db, day, p, RouteViews(db, day, p));
    }
    HeadlineCounted(db, day);
  }

  /** What is counted for a day depends on the rows of that day alone. */
  lemma CountedKept(a: Table, b: Table, db: Db, day: int)
    requires DayCounted(a, db, day) && forall key: Key :: key.date == day ==> SameRow(b, a, key)
    ensures DayCounted(b, db, day)
  {
    hide CountryVisits, ReferrerVisits, DeviceVisits, RouteViews, HumanVisits, HumanViews;
    forall key: Key | key.date == day ensures SameRow(b, a, key) {}
  }

  /** Visits, bounces and page views summed over countries, over referrers or over devices are those of all
      human visits of the day; page views summed over routes are all human page views of the day exactly when
      none of them has lost its visit row. */
  ghost predicate BreakdownsMatch(table: Table, db: Db, day: int) {
    && (forall dim :: dim == Country || dim == Referrer || dim == Device ==>
          && MapSum(Column(table, day, dim, Visits)) == |HumanVisits(db, day)|
          && MapSum(Column(table, day, dim, Bounces)) == |set i | i in HumanVisits(db, day) && db.visits[i].pageViews == 1|
          && MapSum(Column(table, day, dim, PageViews)) == ViewsAmong(db.visits, HumanVisits(db, day)))
    && (MapSum(Column(table, day, Route, PageViews)) == |HumanViews(db, day)|
        <==> forall i <- HumanViews(db, day) :: db.events[i].visit < |db.visits|)
  }

  lemma {:induction false} VisitSums(table: Table, db: Db, day: int, dim: Dimension)
    requires dim == Country || dim == Referrer || dim == Device
    ensures var after := Rebuilt(table, db, day);
            && MapSum(Column(after, day, dim, Visits)) == |HumanVisits(db, day)|
            && MapSum(Column(after, day, dim, Bounces)) == |set i | i in HumanVisits(db, day) && db.visits[i].pageViews == 1|
            && MapSum(Column(after, day, dim, PageViews)) == ViewsAmong(db.visits, HumanVisits(db, day))
  {
    DayVisitsAre(db.visits, day, HumanVisits(db, day));
    hide Rebuilt, Column, MapSum, Tally, Chosen, DayVisits, ViewsAmong;
    VisitTallies(db.visits, HumanVisits(db, day));
    VisitColumnTotal(table, db, day, dim, Visits);
    VisitColumnTotal(table, db, day, dim, Bounces);
    VisitColumnTotal(table, db, day, dim, PageViews);
  }

  lemma {:induction false} RouteSums(table: Table, db: Db, day: int)
    ensures MapSum(Column(Rebuilt(table, db, day), day, Route, PageViews)) == |HumanViews(db, day)|
            <==> forall i <- HumanViews(db, day) :: db.events[i].visit < |db.visits|
  {
    var at := HumanViews(db, day);
    DayEventsAre(db.events, day, at);
    ChosenSize(db.events, at);
    ChosenRows(db.events, at);
    hide Rebuilt, Column, MapSum, Chosen, DayEvents, DayVisits, Tally;
    RoutesAddUp(table, db, day);
    RebuiltHeadline(table, db, day);
    assert (forall e <- Chosen(db.events, at) :: e.visit < |db.visits|) <==> forall i <- at :: db.events[i].visit < |db.visits|;
  }

  /** What a rollup leaves of its day is counted from the raw rows, and its breakdowns add up. */
  lemma {:induction false} RebuiltMatches(table: Table, db: Db, day: int)
    ensures DayCounted(Rebuilt(table, db, day), db, day) && BreakdownsMatch(Rebuilt(table, db, day), db, day)
  {
    hide Rebuilt, RollupRows, Column, MapSum, DayCounted;
    RollupCounted(db, day);
    forall key: Key | key.date == day ensures SameRow(Rebuilt(table, db, day), RollupRows(db, day), key) {
      RebuiltRows(table, db, day, key);
    }
    CountedKept(RollupRows(db, day), Rebuilt(table, db, day), db, day);
    forall dim | dim == Country || dim == Referrer || dim == Device {
      VisitSums(table, db, day, dim);
    }
    RouteSums(table, db, day);
  }

  /** So routes always add up on the rows that serial ingest builds. */
  lemma {:induction false} RoutesAddUpAfterIngest(table: Table, bs: seq<Beacon>, day: int)
    ensures var db := IngestAll(EMPTY, bs);
            MapSum(Column(Rebuilt(table, db, day), day, Route, PageViews)) == |HumanViews(db, day)|
  {
    var db := IngestAll(EMPTY, bs);
    RunRowsMatch(bs);
    hide Rebuilt, Column, MapSum, IngestAll;
    RouteSums(table, db, day);
    forall i | i in HumanViews(db, day) ensures db.events[i].visit < |db.visits| {
      assert db.events[i] in db.events;
    }
  }

  class DailyVisits {
    var daily: Table

    /** Delete the rows of the day, then insert what the raw rows give. Other days keep their rows, no old row
        of the day survives, and what the table says of the day adds up. */
    method RollupOneDay(db: Db, day: int)
      modifies this
      ensures forall key: Key :: key.date != day ==> SameRow(daily, old(daily), key)
      ensures forall key: Key :: key.date == day ==> SameRow(daily, RollupRows(db, day), key)
      ensures DayCounted(daily, db, day) && BreakdownsMatch(daily, db, day)
    {
      ghost var before := daily;
      daily := map key | key in daily && key.date != day :: daily[key];
      var rows := RollupRows(db, day);
      daily := daily + rows;
      assert daily == Rebuilt(before, db, day);
      hide Rebuilt, RollupRows, BreakdownsMatch, DayCounted, SameRow;
      RebuiltMatches(before, db, day);
      forall key: Key
        ensures key.date != day ==> SameRow(daily, before, key)
        ensures key.date == day ==> SameRow(daily, RollupRows(db, day), key)
      {
        RebuiltRows(before, db, day, key);
      }
    }

    /** Today and the two days before it: each of these days is counted afresh, every other day is kept. */
    method RollupDailyVisits(db: Db, today: int)
      modifies this
      ensures daily == RebuiltDays(old(daily), db, today, 3)
      ensures DayCounted(daily, db, today) && DayCounted(daily, db, today - 86400000) && DayCounted(daily, db, today - 172800000)
      ensures forall key: Key :: key.date > today || key.date < today - 172800000 ==> SameRow(daily, old(daily), key)
    {
      hide BreakdownsMatch, RollupRows, Rebuilt, DayCounted, SameRow;
      for i := 0 to 3
        invariant daily == RebuiltDays(old(daily), db, today, i)
        invariant i >= 1 ==> DayCounted(daily, db, today)
        invariant i >= 2 ==> DayCounted(daily, db, today - 86400000)
        invariant i >= 3 ==> DayCounted(daily, db, today - 172800000)
      {
        ghost var before := daily;
        RollupOneDay(db, today - i * DAY_MS);
        RebuiltPointwise(before, daily, db, today - i * DAY_MS);
        if i >= 1 {
          CountedKept(before, daily, db, today);
        }
        if i >= 2 {
          CountedKept(before, daily, db, today - 86400000);
        }
      }
      forall key: Key | key.date > today || key.date < today - 172800000
        ensures SameRow(daily, old(daily), key)
      {
        OtherDaysKept(old(daily), db, today, 3, key);
      }
    }
  }
}
