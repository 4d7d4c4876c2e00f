/** The daily rollup: the figures of every breakdown add up to the figures of the day. */
module VisitRollup {
  import opened Sums
  import opened VisitSessions

  const DAY_MS := 24 * 60 * 60 * 1000

  datatype Dimension = All | Country | Referrer | Device | Route

  datatype Measure = Visits | PageViews | Bounces

  datatype Key = Key(date: int, dimension: Dimension, value: string)

  datatype Figures = Figures(visits: nat, pageViews: nat, bounces: nat, uniques: nat) {
    function Get(m: Measure): nat {
      match m case Visits => visits case PageViews => pageViews case Bounces => bounces
    }
  }

  type Table = map<Key, Figures>

  // ---- the raw rows of a day ----

  predicate OnDay(day: int, time: int) { day <= time < day + DAY_MS }

  function DayVisits(visits: seq<Visit>, day: int): seq<Visit> {
    if visits == [] then []
    else
      var n := |visits| - 1;
      var front := DayVisits(visits[..n], day);
      if OnDay(day, visits[n].startedAt) && !visits[n].source.isBot then front + [visits[n]] else front
  }

  function DayEvents(events: seq<Event>, day: int): seq<Event> {
    if events == [] then []
    else
      var n := |events| - 1;
      var front := DayEvents(events[..n], day);
      if OnDay(day, events[n].time) && !events[n].source.isBot then front + [events[n]] else front
  }

  /** The inner join with the visit rows drops an event whose row is gone. */
  function Joined(events: seq<Event>, visits: seq<Visit>): (r: seq<Event>)
    ensures |r| <= |events|
    ensures |r| == |events| <==> forall e <- events :: e.visit < |visits|
    ensures forall e <- r :: e.visit < |visits|
  {
    if events == [] then []
    else
      var n := |events| - 1;
      assert events == events[..n] + [events[n]];
      var front := Joined(events[..n], visits);
      if events[n].visit < |visits| then front + [events[n]] else front
  }

  // ---- grouping ----

  function ValueOf(dim: Dimension, v: Visit): string {
    match dim
    case Country => if v.source.country.Some? then v.source.country.value else "Unknown"
    case Referrer => if v.source.referrer.Some? then v.source.referrer.value else "Direct / none"
    case Device => v.source.device
    case _ => "*"
  }

  function Weight(m: Measure, v: Visit): nat {
    match m
    case Visits => 1
    case PageViews => v.pageViews
    case Bounces => if v.pageViews == 1 then 1 else 0
  }

  function Tally(m: Measure, vs: seq<Visit>): nat {
    if vs == [] then 0 else Tally(m, vs[..|vs| - 1]) + Weight(m, vs[|vs| - 1])
  }

  function Group(vs: seq<Visit>, dim: Dimension, value: string): seq<Visit> {
    if vs == [] then []
    else
      var n := |vs| - 1;
      var front := Group(vs[..n], dim, value);
      if ValueOf(dim, vs[n]) == value then front + [vs[n]] else front
  }

  function OnPath(es: seq<Event>, path: string): seq<Event> {
    if es == [] then []
    else
      var n := |es| - 1;
      var front := OnPath(es[..n], path);
      if es[n].path == path then front + [es[n]] else front
  }

  function VisitFigures(vs: seq<Visit>): Figures {
    Figures(Tally(Visits, vs), Tally(PageViews, vs), Tally(Bounces, vs), |set v <- vs :: v.visitor|)
  }

  function RouteFigures(es: seq<Event>, visits: seq<Visit>): Figures {
    Figures(|set e <- es :: e.visit|, |es|,
            |set e <- es | e.visit < |visits| && visits[e.visit].pageViews == 1 :: e.visit|,
            |set e <- es :: e.visitor|)
  }

  /** The headline row takes visits and bounces from the day's visits, page views and uniques from its events. */
  function DayFigures(vs: seq<Visit>, es: seq<Event>): Figures {
    Figures(Tally(Visits, vs), |es|, Tally(Bounces, vs), |set e <- es :: e.visitor|)
  }

  const VISIT_DIMENSIONS := {Country, Referrer, Device}

  function VisitKeys(vs: seq<Visit>, day: int, dim: Dimension): set<Key> { set v <- vs :: Key(day, dim, ValueOf(dim, v)) }

  function VisitRows(vs: seq<Visit>, day: int, dim: Dimension): Table {
    map key | key in VisitKeys(vs, day, dim) :: VisitFigures(Group(vs, dim, key.value))
  }

  function RouteKeys(es: seq<Event>, day: int): set<Key> { set e <- es :: Key(day, Route, e.path) }

  function RouteRows(es: seq<Event>, visits: seq<Visit>, day: int): Table {
    map key | key in RouteKeys(es, day) :: RouteFigures(OnPath(es, key.value), visits)
  }

  function RollupRows(db: Db, day: int): Table {
    var vs, es := DayVisits(db.visits, day), DayEvents(db.events, day);
    map[Key(day, All, "*") := DayFigures(vs, es)]
    + VisitRows(vs, day, Country) + VisitRows(vs, day, Referrer) + VisitRows(vs, day, Device)
    + RouteRows(Joined(es, db.visits), db.visits, day)
  }

  function Rebuilt(table: Table, db: Db, day: int): Table {
    (map key | key in table && key.date != day :: table[key]) + RollupRows(db, day)
  }

  function RebuiltDays(table: Table, db: Db, today: int, days: nat): Table {
    if days == 0 then table else Rebuilt(RebuiltDays(table, db, today, days - 1), db, today - (days - 1) * DAY_MS)
  }

  // ---- sums over groups ----

  datatype Item = Item(key: Key, weight: nat)

  function Total(items: seq<Item>): nat {
    if items == [] then 0 else Total(items[..|items| - 1]) + items[|items| - 1].weight
  }

  function Weigh(items: seq<Item>, key: Key): nat {
    if items == [] then 0
    else
      var last := items[|items| - 1];
      Weigh(items[..|items| - 1], key) + if last.key == key then last.weight else 0
  }

  function KeysOf(items: seq<Item>): set<Key> { set item <- items :: item.key }

  function Grouped(items: seq<Item>): map<Key, nat> {
    map key | key in KeysOf(items) :: Weigh(items, key)
  }

  lemma KeysLast(items: seq<Item>)
    requires items != []
    ensures KeysOf(items) == KeysOf(items[..|items| - 1]) + {items[|items| - 1].key}
  {
    var front, last := items[..|items| - 1], items[|items| - 1];
    assert items == front + [last];
    assert last in items;
  }

  lemma {:induction false} NothingForOthers(items: seq<Item>, key: Key)
    requires key !in KeysOf(items)
    ensures Weigh(items, key) == 0
  {
    if items != [] {
      KeysLast(items);
      NothingForOthers(items[..|items| - 1], key);
    }
  }

  lemma GroupedLast(items: seq<Item>)
    requires items != []
    ensures var front, last := items[..|items| - 1], items[|items| - 1];
            Grouped(items) == Grouped(front)[last.key := Weigh(front, last.key) + last.weight]
  {
    KeysLast(items);
  }

  /** The groups of a list share out its total. */
  lemma {:induction false} GroupsAddUp(items: seq<Item>)
    ensures MapSum(Grouped(items)) == Total(items)
  {
    if items != [] {
      var front, item := items[..|items| - 1], items[|items| - 1];
      var g, k := Grouped(front), item.key;
      GroupsAddUp(front);
      GroupedLast(items);
      MapSumWithout(Grouped(items), k);
      assert Grouped(items) - {k} == g - {k};
      if k in g {
        MapSumWithout(g, k);
      } else {
        NothingForOthers(front, k);
        assert g - {k} == g;
      }
    }
  }

  // ---- the rows of one dimension add up ----

  /** One figure of the rows of one day and dimension. */
  function Column(table: Table, day: int, dim: Dimension, m: Measure): map<Key, nat> {
    map key | key in table && key.date == day && key.dimension == dim :: table[key].Get(m)
  }

  function VisitItems(vs: seq<Visit>, day: int, dim: Dimension, m: Measure): seq<Item> {
    seq(|vs|, i requires 0 <= i < |vs| => Item(Key(day, dim, ValueOf(dim, vs[i])), Weight(m, vs[i])))
  }

  lemma {:induction false} VisitItemsTotal(vs: seq<Visit>, day: int, dim: Dimension, m: Measure)
    ensures Total(VisitItems(vs, day, dim, m)) == Tally(m, vs)
  {
    hide ValueOf;
    hide Weight;
    if vs != [] {
      var n := |vs| - 1;
      VisitItemsTotal(vs[..n], day, dim, m);
      assert VisitItems(vs, day, dim, m)[..n] == VisitItems(vs[..n], day, dim, m);
    }
  }

  lemma TallyLast(m: Measure, vs: seq<Visit>, v: Visit)
    ensures Tally(m, vs + [v]) == Tally(m, vs) + Weight(m, v)
  {
    assert (vs + [v])[..|vs|] == vs;
  }

  lemma {:induction false} VisitItemsMatch(vs: seq<Visit>, day: int, dim: Dimension, m: Measure, value: string)
    ensures Weigh(VisitItems(vs, day, dim, m), Key(day, dim, value)) == Tally(m, Group(vs, dim, value))
  {
    hide ValueOf;
    hide Weight;
    if vs != [] {
      var n := |vs| - 1;
      VisitItemsMatch(vs[..n], day, dim, m, value);
      assert VisitItems(vs, day, dim, m)[..n] == VisitItems(vs[..n], day, dim, m);
      TallyLast(m, Group(vs[..n], dim, value), vs[n]);
    }
  }

  /** All rows belong to one dimension of one day. */
  ghost predicate Within(rows: Table, day: int, dim: Dimension) {
    forall key <- rows :: key.date == day && key.dimension == dim
  }

  lemma RowsWithin(vs: seq<Visit>, es: seq<Event>, visits: seq<Visit>, day: int, dim: Dimension)
    ensures Within(VisitRows(vs, day, dim), day, dim)
    ensures Within(RouteRows(es, visits, day), day, Route)
    ensures Within(map[Key(day, All, "*") := DayFigures(vs, es)], day, All)
  {
  }

  lemma AddOther(rows: Table, more: Table, day: int, own: Dimension, dim: Dimension, m: Measure)
    requires Within(more, day, own) && own != dim
    ensures Column(rows + more, day, dim, m) == Column(rows, day, dim, m)
  {
    hide Figures.Get;
  }

  lemma AddOwn(rows: Table, more: Table, day: int, dim: Dimension, m: Measure)
    requires Within(more, day, dim) && Column(rows, day, dim, m) == map[]
    ensures Column(rows + more, day, dim, m) == Column(more, day, dim, m)
  {
    hide Figures.Get;
    assert forall key <- rows :: key in Column(rows, day, dim, m) || !(key.date == day && key.dimension == dim);
  }

  /** A union of one table per dimension has, in each dimension, the rows of its table. */
  lemma {:induction false} UnionColumns(
    headline: Table, cs: Table, rs: Table, ds: Table, routes: Table, day: int, dim: Dimension, m: Measure)
    requires Within(headline, day, All) && Within(cs, day, Country) && Within(rs, day, Referrer)
    requires Within(ds, day, Device) && Within(routes, day, Route)
    ensures Column(headline + cs + rs + ds + routes, day, dim, m)
            == Column(match dim case All => headline case Country => cs case Referrer => rs
                                case Device => ds case Route => routes, day, dim, m)
  {
    if dim != All {
      assert Column(headline, day, dim, m) == map[];
    }
    hide Column;
    hide Within;
    if dim == Country { AddOwn(headline, cs, day, dim, m); } else { AddOther(headline, cs, day, Country, dim, m); }
    var t := headline + cs;
    if dim == Referrer { AddOwn(t, rs, day, dim, m); } else { AddOther(t, rs, day, Referrer, dim, m); }
    t := t + rs;
    if dim == Device { AddOwn(t, ds, day, dim, m); } else { AddOther(t, ds, day, Device, dim, m); }
    t := t + ds;
    if dim == Route { AddOwn(t, routes, day, dim, m); } else { AddOther(t, routes, day, Route, dim, m); }
  }

  lemma {:induction false} RebuiltColumn(table: Table, db: Db, day: int, dim: Dimension, m: Measure)
    ensures Column(Rebuilt(table, db, day), day, dim, m) == Column(RollupRows(db, day), day, dim, m)
  {
    hide RollupRows;
    hide Figures.Get;
  }

  /** The rows of a dimension after a rollup are the ones just grouped. */
  lemma {:induction false} RebuiltColumns(table: Table, db: Db, day: int, dim: Dimension, m: Measure)
    ensures var after, vs, es := Rebuilt(table, db, day), DayVisits(db.visits, day), DayEvents(db.events, day);
            && (dim in VISIT_DIMENSIONS ==> Column(after, day, dim, m) == Column(VisitRows(vs, day, dim), day, dim, m))
            && (dim == Route ==>
                  Column(after, day, dim, m) == Column(RouteRows(Joined(es, db.visits), db.visits, day), day, dim, m))
  {
    var vs, es := DayVisits(db.visits, day), DayEvents(db.events, day);
    var joined := Joined(es, db.visits);
    RebuiltColumn(table, db, day, dim, m);
    RowsWithin(vs, es, db.visits, day, Country);
    RowsWithin(vs, es, db.visits, day, Referrer);
    RowsWithin(vs, joined, db.visits, day, Device);
    hide VisitRows;
    hide RouteRows;
    hide DayFigures;
    hide Joined;
    hide Rebuilt;
    hide Column;
    hide Within;
    UnionColumns(map[Key(day, All, "*") := DayFigures(vs, es)], VisitRows(vs, day, Country),
                 VisitRows(vs, day, Referrer), VisitRows(vs, day, Device),
                 RouteRows(joined, db.visits, day), day, dim, m);
  }

  lemma {:induction false} RebuiltHeadline(table: Table, db: Db, day: int)
    ensures var after := Rebuilt(table, db, day);
            && Key(day, All, "*") in after
            && after[Key(day, All, "*")] == DayFigures(DayVisits(db.visits, day), DayEvents(db.events, day))
  {
    var vs, es := DayVisits(db.visits, day), DayEvents(db.events, day);
    RowsWithin(vs, Joined(es, db.visits), db.visits, day, Country);
    RowsWithin(vs, es, db.visits, day, Referrer);
    RowsWithin(vs, es, db.visits, day, Device);
    hide VisitRows;
    hide RouteRows;
    hide DayFigures;
  }

  lemma VisitColumn(vs: seq<Visit>, day: int, dim: Dimension, m: Measure)
    ensures Column(VisitRows(vs, day, dim), day, dim, m) == Grouped(VisitItems(vs, day, dim, m))
  {
    hide Group;
    hide Tally;
    hide Weigh;
    VisitKeysMatch(vs, day, dim, m);
    forall key | key in VisitKeys(vs, day, dim)
      ensures Weigh(VisitItems(vs, day, dim, m), key) == VisitRows(vs, day, dim)[key].Get(m)
    {
      VisitItemsMatch(vs, day, dim, m, key.value);
    }
  }

  lemma VisitKeysMatch(vs: seq<Visit>, day: int, dim: Dimension, m: Measure)
    ensures KeysOf(VisitItems(vs, day, dim, m)) == VisitKeys(vs, day, dim)
  {
    hide ValueOf;
    var items := VisitItems(vs, day, dim, m);
    forall i | 0 <= i < |vs|
      ensures items[i].key in VisitKeys(vs, day, dim) && Key(day, dim, ValueOf(dim, vs[i])) in KeysOf(items)
    {
      assert vs[i] in vs && items[i] in items;
    }
  }

  lemma {:induction false} VisitColumnTotal(table: Table, db: Db, day: int, dim: Dimension, m: Measure)
    requires dim in VISIT_DIMENSIONS
    ensures MapSum(Column(Rebuilt(table, db, day), day, dim, m)) == Tally(m, DayVisits(db.visits, day))
  {
    var vs := DayVisits(db.visits, day);
    hide *;
    RebuiltColumns(table, db, day, dim, m);
    VisitColumn(vs, day, dim, m);
    GroupsAddUp(VisitItems(vs, day, dim, m));
    VisitItemsTotal(vs, day, dim, m);
  }

  function RouteItems(es: seq<Event>, day: int): seq<Item> {
    seq(|es|, i requires 0 <= i < |es| => Item(Key(day, Route, es[i].path), 1))
  }

  lemma {:induction false} RouteItemsMatch(es: seq<Event>, day: int, path: string)
    ensures Total(RouteItems(es, day)) == |es|
    ensures Weigh(RouteItems(es, day), Key(day, Route, path)) == |OnPath(es, path)|
  {
    if es != [] {
      var n := |es| - 1;
      RouteItemsMatch(es[..n], day, path);
      assert RouteItems(es, day)[..n] == RouteItems(es[..n], day);
    }
  }

  lemma {:induction false} RouteColumn(es: seq<Event>, visits: seq<Visit>, day: int)
    ensures Column(RouteRows(es, visits, day), day, Route, PageViews) == Grouped(RouteItems(es, day))
  {
    hide OnPath;
    hide Weigh;
    RouteKeysMatch(es, day);
    forall key | key in RouteKeys(es, day)
      ensures Weigh(RouteItems(es, day), key) == RouteRows(es, visits, day)[key].Get(PageViews)
    {
      RouteItemsMatch(es, day, key.value);
    }
  }

  lemma RouteKeysMatch(es: seq<Event>, day: int)
    ensures KeysOf(RouteItems(es, day)) == RouteKeys(es, day)
  {
    var items := RouteItems(es, day);
    forall i | 0 <= i < |es|
      ensures items[i].key in RouteKeys(es, day) && Key(day, Route, es[i].path) in KeysOf(items)
    {
      assert es[i] in es && items[i] in items;
    }
  }

  /** Page views summed over routes equal the headline page views exactly when no counted event of the day
      has lost its visit row. */
  lemma {:induction false} RoutesAddUp(table: Table, db: Db, day: int)
    ensures var after := Rebuilt(table, db, day);
            && Key(day, All, "*") in after
            && (MapSum(Column(after, day, Route, PageViews)) == after[Key(day, All, "*")].pageViews
                <==> forall e <- DayEvents(db.events, day) :: e.visit < |db.visits|)
  {
    hide Rebuilt;
    hide Column;
    hide MapSum;
    var es := Joined(DayEvents(db.events, day), db.visits);
    RebuiltColumns(table, db, day, Route, PageViews);
    RebuiltHeadline(table, db, day);
    RouteColumn(es, db.visits, day);
    GroupsAddUp(RouteItems(es, day));
    RouteItemsMatch(es, day, "");
  }

  lemma {:induction false} RowsAreOfDay(db: Db, day: int)
    ensures forall key <- RollupRows(db, day) :: key.date == day
  {
    var vs, es := DayVisits(db.visits, day), DayEvents(db.events, day);
    RowsWithin(vs, Joined(es, db.visits), db.visits, day, Country);
    RowsWithin(vs, es, db.visits, day, Referrer);
    RowsWithin(vs, es, db.visits, day, Device);
    hide VisitRows;
    hide RouteRows;
    hide DayFigures;
  }

  /** Rolling a day up again on the same raw rows changes nothing, whatever the table held for that day before. */
  lemma {:induction false} RollupIsIdempotent(table: Table, db: Db, day: int)
    ensures Rebuilt(Rebuilt(table, db, day), db, day) == Rebuilt(table, db, day)
    ensures Rebuilt(map key | key in table && key.date != day :: table[key], db, day) == Rebuilt(table, db, day)
  {
    RowsAreOfDay(db, day);
    hide RollupRows;
  }

  /** Different days can be rolled up in either order. */
  lemma {:induction false} RollupsCommute(table: Table, db: Db, day: int, other: int)
    requires other != day
    ensures Rebuilt(Rebuilt(table, db, day), db, other) == Rebuilt(Rebuilt(table, db, other), db, day)
  {
    RowsAreOfDay(db, day);
    RowsAreOfDay(db, other);
    hide RollupRows;
    forall key: Key
      ensures key in Rebuilt(Rebuilt(table, db, day), db, other) <==> key in Rebuilt(Rebuilt(table, db, other), db, day)
    {
    }
  }

  predicate SameRow(a: Table, b: Table, key: Key) { (key in a <==> key in b) && (key in a ==> a[key] == b[key]) }

  /** A rollup touches one day and leaves no old row of it. */
  lemma {:induction false} RebuiltRows(table: Table, db: Db, day: int, key: Key)
    ensures if key.date == day then SameRow(Rebuilt(table, db, day), RollupRows(db, day), key)
            else SameRow(Rebuilt(table, db, day), table, key)
  {
    RowsAreOfDay(db, day);
    hide RollupRows;
  }

  lemma {:induction false} OtherDaysKept(table: Table, db: Db, today: int, days: nat, key: Key)
    requires days <= 3 && (key.date > today || key.date < today - 2 * DAY_MS)
    ensures SameRow(RebuiltDays(table, db, today, days), table, key)
  {
    hide Rebuilt, RollupRows;
    if days > 0 {
      OtherDaysKept(table, db, today, days - 1, key);
      RebuiltRows(RebuiltDays(table, db, today, days - 1), db, today - (days - 1) * DAY_MS, key);
    }
  }

  /** What a rollup promises of every row determines the table. */
  lemma {:induction false} RebuiltPointwise(before: Table, after: Table, db: Db, day: int)
    requires forall key: Key :: key.date != day ==> SameRow(after, before, key)
    requires forall key: Key :: key.date == day ==> SameRow(after, RollupRows(db, day), key)
    ensures after == Rebuilt(before, db, day)
  {
    hide RollupRows;
    hide Rebuilt;
    forall key: Key
      ensures SameRow(after, Rebuilt(before, db, day), key)
    {
      RebuiltRows(before, db, day, key);
      assert key.date != day ==> SameRow(after, before, key);
      assert key.date == day ==> SameRow(after, RollupRows(db, day), key);
    }
    SameTables(after, Rebuilt(before, db, day));
  }

  lemma SameTables(a: Table, b: Table)
    requires forall key: Key :: SameRow(a, b, key)
    ensures a == b
  {
    assert forall key: Key :: key in a ==> SameRow(a, b, key);
    assert forall key: Key :: key in b ==> SameRow(a, b, key);
  }
}
