/** The cursor-paginated backfill of missing provider figures: bounded calls whose continuation cursor
    never skips and never revisits a deposit, and whose writes never overwrite a figure. */
module SettlementBackfill {
  import opened Wrappers
  import opened Sums

  /** The order of the listing: completion time, then id. */
  datatype Key = Key(time: int, id: nat)

  predicate Before(a: Key, b: Key) { a.time < b.time || (a.time == b.time && a.id < b.id) }

  datatype PaymentMethod = PayPal | PayMongo | OtherMethod

  datatype Deposit = Deposit(
    key: Key, payment: PaymentMethod, completed: bool, ref: Option<string>,
    fee: Option<int>, net: Option<int>, converted: Option<int>)

  /** What the provider answers for one deposit. */
  datatype Answer = Throws | Missing | Figures(fee: Option<int>, net: Option<int>, converted: Option<int>)

  const PAGE := 100
  const MAX_SCAN := 500

  predicate Eligible(d: Deposit) {
    && d.completed
    && match d.payment
       case PayPal => d.ref.Some? && (d.fee.None? || d.net.None? || d.converted.None?)
       case PayMongo => d.ref.Some? && "pay_" <= d.ref.value && (d.fee.None? || d.net.None?)
       case OtherMethod => false
  }

  /** A completed deposit the provider can tell more about: PayPal by its order, PayMongo by a payment
      reference, which never has a converted figure to wait for. */
  predicate Incomplete(d: Deposit) {
    && d.completed && d.ref.Some?
    && (|| (d.payment == PayPal && (d.fee == None || d.net == None || d.converted == None))
        || (d.payment == PayMongo && |d.ref.value| >= 4 && d.ref.value[..4] == "pay_" && (d.fee == None || d.net == None)))
  }

  /** Strictly after the cursor in the listing, newest first. */
  predicate Later(key: Key, cursor: Key) {
    key.time < cursor.time || (key.time == cursor.time && key.id < cursor.id)
  }

  predicate Below(d: Deposit, cursor: Option<Key>) { cursor.None? || Before(d.key, cursor.value) }

  /** Rows listed newest first; keys are unique because ids are. */
  predicate Listed(table: seq<Deposit>) {
    forall i, j :: 0 <= i < j < |table| ==> Before(table[j].key, table[i].key)
  }

  predicate FigureKept(a: Option<int>, b: Option<int>) { a.Some? ==> b == a }

  predicate RowFilled(a: Deposit, b: Deposit) {
    && b.key == a.key && b.payment == a.payment && b.completed == a.completed && b.ref == a.ref
    && FigureKept(a.fee, b.fee) && FigureKept(a.net, b.net) && FigureKept(a.converted, b.converted)
  }

  /** No row is added, removed or reordered, and no figure that was there is overwritten. */
  predicate Fills(a: seq<Deposit>, b: seq<Deposit>) {
    |a| == |b| && forall i :: 0 <= i < |a| ==> RowFilled(a[i], b[i])
  }

  predicate Ascending(ps: seq<nat>) { forall i, j :: 0 <= i < j < |ps| ==> ps[i] < ps[j] }

  predicate Wanted(table: seq<Deposit>, cursor: Option<Key>, p: nat) {
    p < |table| && Eligible(table[p]) && Below(table[p], cursor)
  }

  /** Positions of the rows the query matches, in listing order. */
  function Matches(table: seq<Deposit>, cursor: Option<Key>): (ps: seq<nat>)
    ensures Ascending(ps)
    ensures forall p: nat :: p in ps <==> Wanted(table, cursor, p)
  {
    if table == [] then []
    else
      var n := |table| - 1;
      var front := Matches(table[..n], cursor);
      assert forall p: nat :: Wanted(table, cursor, p) && p < n <==> Wanted(table[..n], cursor, p);
      assert forall k :: 0 <= k < |front| ==> front[k] in front;
      if Wanted(table, cursor, n) then front + [n] else front
  }

  /** The record of one call: the table before and after, the cursors, the positions examined in order, and
      the rows that overlapping runs filled meanwhile. */
  datatype Call = Call(
    before: seq<Deposit>, after: seq<Deposit>, cursor: Option<Key>, next: Option<Key>,
    examined: seq<nat>, others: set<nat>)

  function LastOf(ps: seq<nat>): nat
    requires ps != []
  {
    ps[|ps| - 1]
  }

  /** Everything still wanted under `cursor` was examined or lies below the last row examined. */
  ghost predicate Covered(table: seq<Deposit>, cursor: Option<Key>, examined: seq<nat>) {
    forall p: nat :: Wanted(table, cursor, p) ==> p in examined || (examined != [] ==> p > LastOf(examined))
  }

  /** What one call guarantees about coverage. */
  ghost predicate CallOk(c: Call) {
    && Fills(c.before, c.after)
    && Ascending(c.examined)
    && (forall p :: p in c.examined ==> Wanted(c.before, c.cursor, p))
    && (forall p :: 0 <= p < |c.before| && p !in c.examined && p !in c.others ==> c.after[p] == c.before[p])
    && Covered(c.after, c.cursor, c.examined)
    && (c.next.None? ==> forall p: nat :: Wanted(c.after, c.cursor, p) ==> p in c.examined)
    && (c.next.Some? ==> c.examined != [] && LastOf(c.examined) < |c.before| && c.next.value == c.before[LastOf(c.examined)].key)
  }

  /** A finished call has nothing left; an unfinished one hands on its last row. */
  lemma CallEnds(c: Call, finished: bool)
    requires Progress(c.before, c.after, c.cursor, c.examined, c.others)
    requires finished ==> c.next.None? && forall p: nat :: Wanted(c.after, c.cursor, p) ==> p in c.examined
    requires !finished ==> c.examined != [] && c.next == CursorAfter(c.before, c.cursor, c.examined)
    ensures CallOk(c)
  {
    if !finished {
      assert LastOf(c.examined) in c.examined;
    }
  }

  lemma FillsTransitive(a: seq<Deposit>, b: seq<Deposit>, c: seq<Deposit>)
    requires Fills(a, b) && Fills(b, c)
    ensures Fills(a, c)
  {
    forall i | 0 <= i < |a| ensures RowFilled(a[i], c[i]) {
      assert RowFilled(a[i], b[i]) && RowFilled(b[i], c[i]);
    }
  }

  /** Filling figures can only make rows ineligible. */
  lemma WantedShrinks(a: seq<Deposit>, b: seq<Deposit>, cursor: Option<Key>, p: nat)
    requires Fills(a, b) && Wanted(b, cursor, p)
    ensures Wanted(a, cursor, p)
  {
    assert RowFilled(a[p], b[p]);
  }

  function Fill(stored: Option<int>, known: Option<int>): Option<int> { if stored.None? then known else stored }

  /** A row after the provider's answer has been written into its missing figures. */
  function Answered(d: Deposit, a: Answer): Deposit {
    if a.Figures? then d.(fee := Fill(d.fee, a.fee), net := Fill(d.net, a.net), converted := Fill(d.converted, a.converted))
    else d
  }

  /** The examined rows the provider failed on. */
  function FailedOn(table: seq<Deposit>, examined: seq<nat>, provider: Key -> Answer): seq<Key> {
    if examined == [] then []
    else
      var p := LastOf(examined);
      FailedOn(table, examined[..|examined| - 1], provider) +
      if p < |table| && provider(table[p].key).Throws? then [table[p].key] else []
  }

  lemma {:induction false} FailedOnConcat(table: seq<Deposit>, xs: seq<nat>, ys: seq<nat>, provider: Key -> Answer)
    ensures FailedOn(table, xs + ys, provider) == FailedOn(table, xs, provider) + FailedOn(table, ys, provider)
  {
    if ys == [] {
      assert xs + ys == xs;
    } else {
      var n := |ys| - 1;
      assert (xs + ys)[..|xs + ys| - 1] == xs + ys[..n];
      FailedOnConcat(table, xs, ys[..n], provider);
    }
  }

  lemma {:induction false} FailedOnSameKeys(a: seq<Deposit>, b: seq<Deposit>, examined: seq<nat>, provider: Key -> Answer)
    requires Fills(a, b)
    ensures FailedOn(a, examined, provider) == FailedOn(b, examined, provider)
  {
    if examined != [] {
      FailedOnSameKeys(a, b, examined[..|examined| - 1], provider);
      assert LastOf(examined) < |a| ==> RowFilled(a[LastOf(examined)], b[LastOf(examined)]);
    }
  }

  /** Every examined row that no overlapping run touched holds the provider's answer. */
  ghost predicate Filled(before: seq<Deposit>, table: seq<Deposit>, examined: seq<nat>, others: set<nat>, provider: Key -> Answer) {
    |before| == |table| &&
    forall p :: p in examined && p !in others && p < |before| ==> table[p] == Answered(before[p], provider(before[p].key))
  }

  predicate SkippedAt(before: seq<Deposit>, examined: seq<nat>, provider: Key -> Answer, key: Key) {
    exists p :: p in examined && p < |before| && before[p].key == key && !provider(key).Throws?
  }

  /** The skipped keys: of examined rows the provider did not fail on, and, where no overlapping run wrote,
      exactly of those that kept all their figures. The other examined rows are failed or updated. */
  ghost predicate SkippedAre(before: seq<Deposit>, table: seq<Deposit>, examined: seq<nat>, others: set<nat>,
                             provider: Key -> Answer, skipped: seq<Key>)
  {
    && |before| == |table|
    && (forall key :: key in skipped ==> SkippedAt(before, examined, provider, key))
    && forall p :: p in examined && p !in others && p < |before| ==>
         (before[p].key in skipped <==> table[p] == before[p] && !provider(before[p].key).Throws?)
  }

  class Backfill {
    var table: seq<Deposit>
    /** Rows filled by overlapping runs since this one started. */
    ghost var others: set<nat>

    /** Overlapping runs may fill missing figures of any row at any time. */
    method Overlap()
      modifies this
      ensures Fills(old(table), table)
      ensures old(others) <= others
      ensures forall p :: 0 <= p < |table| && p !in others ==> table[p] == old(table)[p]
    {
      assert Fills(table, table);
      var filled :| Fills(table, filled);
      others := others + set p: nat | p < |table| && p < |filled| && filled[p] != table[p];
      table := filled;
    }

    /** Three conditional writes of one examined row: each needs the figure to have been missing when the
        row was read, the provider to know it, and the stored figure to be missing still. */
    method WriteMissing(p: nat, d: Deposit, a: Answer) returns (offered: nat, wrote: nat)
      requires p < |table| && RowFilled(d, table[p]) && d.completed && a.Figures?
      modifies this`table
      ensures Fills(old(table), table)
      ensures table == old(table)[p := table[p]]
      ensures table[p].fee == if d.fee == None && old(table)[p].fee == None then a.fee else old(table)[p].fee
      ensures table[p].net == if d.net == None && old(table)[p].net == None then a.net else old(table)[p].net
      ensures table[p].converted == if d.converted == None && old(table)[p].converted == None then a.converted else old(table)[p].converted
      ensures wrote > 0 <==> table[p] != old(table)[p]
      ensures wrote <= offered
    {
      offered, wrote := 0, 0;
      if d.fee.None? && a.fee.Some? {
        offered := offered + 1;
        if table[p].completed && table[p].ref == d.ref && table[p].fee.None? {
          table := table[p := table[p].(fee := a.fee)];
          wrote := wrote + 1;
        }
      }
      if d.net.None? && a.net.Some? {
        offered := offered + 1;
        if table[p].completed && table[p].ref == d.ref && table[p].net.None? {
          table := table[p := table[p].(net := a.net)];
          wrote := wrote + 1;
        }
      }
      if d.converted.None? && a.converted.Some? {
        offered := offered + 1;
        if table[p].completed && table[p].ref == d.ref && table[p].converted.None? {
          table := table[p := table[p].(converted := a.converted)];
          wrote := wrote + 1;
        }
      }
    }

    /** One examined row: ask the provider, then write what is missing. */
    method ExamineRow(p: nat, d: Deposit, provider: Key -> Answer) returns (didUpdate: bool, didFail: bool)
      requires p < |table| && RowFilled(d, table[p]) && d.completed
      modifies this
      ensures Fills(old(table), table) && old(others) <= others
      ensures forall q :: 0 <= q < |table| && q != p && q !in others ==> table[q] == old(table)[q]
      ensures p !in others && old(table)[p] == d ==> table[p] == Answered(d, provider(d.key))
      ensures !(didUpdate && didFail) && (didFail <==> provider(d.key).Throws?)
      ensures p !in others && old(table)[p] == d ==> (didUpdate <==> table[p] != d)
    {
      didUpdate, didFail := false, false;
      Overlap();
      ghost var before, prior := old(table), table;
      assert RowFilled(before[p], prior[p]);
      var a := provider(d.key);
      if a.Throws? {
        didFail := true;
      } else if a.Figures? {
        var offered, wrote := WriteMissing(p, d, a);
        FillsTransitive(before, prior, table);
        didUpdate := offered > 0 && wrote > 0;
      }
    }

    /** The inner loop: rows of one page, until a budget runs out. */
    method ExaminePage(rows: seq<nat>, scanned0: nat, updated0: nat, limit: int, provider: Key -> Answer)
      returns (k: nat, updated: nat, skipped: seq<Key>, failed: seq<Key>)
      requires rows != [] && (forall i :: 0 <= i < |rows| ==> rows[i] < |table| && table[rows[i]].completed)
      requires scanned0 < MAX_SCAN && updated0 < limit && Ascending(rows) && Listed(table)
      modifies this
      ensures 1 <= k <= |rows| && scanned0 + k <= MAX_SCAN && updated0 <= updated <= limit
      ensures k == updated - updated0 + |skipped| + |failed|
      ensures k == |rows| || updated == limit || scanned0 + k == MAX_SCAN
      ensures PageDone(old(table), table, rows[..k], others, provider) && old(others) <= others
      ensures failed == FailedOn(old(table), rows[..k], provider)
      ensures SkippedAre(old(table), table, rows[..k], others, provider, skipped)
    {
      hide PageDone, SkippedAre;
      var fetched := table;
      k, updated, skipped, failed := 0, updated0, [], [];
      PageStart(table, others, provider);
      while k < |rows| && updated < limit && scanned0 + k < MAX_SCAN
        invariant 0 <= k <= |rows| && scanned0 + k <= MAX_SCAN && updated0 <= updated <= limit
        invariant k == 0 ==> updated == updated0
        invariant k == updated - updated0 + |skipped| + |failed|
        invariant PageDone(fetched, table, rows[..k], others, provider) && old(others) <= others
        invariant failed == FailedOn(fetched, rows[..k], provider)
        invariant SkippedAre(fetched, table, rows[..k], others, provider, skipped)
      {
        var p := rows[k];
        var d := fetched[p];
        ghost var prior, priorOthers := table, others;
        RowPending(fetched, prior, rows, k, priorOthers, provider);
        var didUpdate, didFail := ExamineRow(p, d, provider);
        RowDone(fetched, prior, table, rows, k, priorOthers, others, provider);
        SkippedNext(fetched, prior, table, rows, k, priorOthers, others, provider, skipped, !didFail && !didUpdate);
        k := k + 1;
        if didFail {
          failed := failed + [d.key];
        } else if didUpdate {
          updated := updated + 1;
        } else {
          skipped := skipped + [d.key];
        }
      }
    }

    /** One turn of the outer loop: fetch the next page and examine it. `exhausted` is its two exits with
        nothing left; otherwise `next` is the row it stopped at. */
    method ScanPage(cursorCond: Option<Key>, scanned0: nat, updated0: nat, limit: int, provider: Key -> Answer,
                    ghost before: seq<Deposit>, ghost cursor: Option<Key>, ghost start: seq<nat>, ghost skippedSoFar: seq<Key>)
      returns (k: nat, updated: nat, skipped: seq<Key>, failed: seq<Key>, exhausted: bool, next: Option<Key>, ghost examined: seq<nat>)
      requires Progress(before, table, cursor, start, others) && Listed(table)
      requires cursorCond == CursorAfter(before, cursor, start) && scanned0 < MAX_SCAN && updated0 < limit
      requires Filled(before, table, start, others, provider) && Listed(before)
      requires SkippedAre(before, table, start, others, provider, skippedSoFar)
      modifies this
      ensures Filled(before, table, examined, others, provider)
      ensures SkippedAre(before, table, examined, others, provider, skippedSoFar + skipped)
      ensures FailedOn(before, examined, provider) == FailedOn(before, start, provider) + failed
      ensures Progress(before, table, cursor, examined, others) && Listed(table)
      ensures |examined| == |start| + k && scanned0 + k <= MAX_SCAN && updated0 <= updated <= limit
      ensures k == updated - updated0 + |skipped| + |failed|
      ensures exhausted ==> next.None? && forall p: nat :: Wanted(table, cursor, p) ==> p in examined
      ensures !exhausted ==> k > 0 && examined != [] && next == CursorAfter(before, cursor, examined)
    {
      hide SkippedAre, Filled, Progress, PageDone, PageOf, Wanted, Listed, Fills, Matches, FailedOn, CursorAfter;
      ghost var fetched, all, started := table, Matches(table, cursorCond), others;
      var rows := FetchPage(cursorCond);
      PageReady(before, table, cursor, start, others, rows);
      if |rows| == 0 {
        k, updated, skipped, failed, exhausted, next, examined := 0, updated0, [], [], true, None, start;
        assert skippedSoFar + [] == skippedSoFar;
        return;
      }
      k, updated, skipped, failed := ExaminePage(rows, scanned0, updated0, limit, provider);
      examined := start + rows[..k];
      var lastExamined := rows[k - 1];
      PageScanned(before, fetched, table, cursor, start, all, rows, k, started, others, provider);
      PageSkipped(before, fetched, table, cursor, start, all, rows, k, started, others, provider, skippedSoFar, skipped);
      exhausted := |rows| < PAGE && lastExamined == rows[|rows| - 1];
      next := if exhausted then None else Some(table[lastExamined].key);
    }

    /** One bounded call. A limit below one examines nothing and reports that nothing is left. */
    method Run(limit: int, cursor: Option<Key>, provider: Key -> Answer)
      returns (scanned: nat, updated: nat, skipped: seq<Key>, failed: seq<Key>, next: Option<Key>, ghost call: Call)
      requires Listed(table) && others == {}
      modifies this
      ensures Listed(table) && call.before == old(table) && call.after == table
      ensures call.cursor == cursor && call.next == next && call.others == others
      ensures scanned == |call.examined| <= MAX_SCAN && updated <= Max(0, limit)
      ensures scanned == updated + |skipped| + |failed|
      ensures limit >= 1 ==> CallOk(call)
      ensures limit < 1 ==> scanned == 0 && next.None?
      ensures Filled(call.before, table, call.examined, others, provider) && failed == FailedOn(call.before, call.examined, provider)
      ensures SkippedAre(call.before, table, call.examined, others, provider, skipped)
      ensures next.Some? ==> scanned == 500 || updated == limit
      ensures CallMeans(call, limit)
      ensures AnswersWritten(call, provider) && FailuresListed(call, provider, failed)
    {
      ghost var before := table;
      ghost var examined: seq<nat> := [];
      updated, scanned, skipped, failed, next := 0, 0, [], [], None;
      var exhausted := false;
      assert Fills(table, table);
      while scanned < MAX_SCAN && updated < limit && !exhausted
        invariant Progress(before, table, cursor, examined, others) && Listed(table)
        invariant scanned == |examined| == updated + |skipped| + |failed| && scanned <= MAX_SCAN && updated <= Max(0, limit)
        invariant !exhausted ==> next == if examined == [] then None else CursorAfter(before, cursor, examined)
        invariant exhausted ==> next.None? && forall p: nat :: Wanted(table, cursor, p) ==> p in examined
        invariant limit < 1 ==> examined == []
        invariant Filled(before, table, examined, others, provider) && failed == FailedOn(before, examined, provider)
        invariant SkippedAre(before, table, examined, others, provider, skipped)
        decreases !exhausted, MAX_SCAN - scanned
      {
        var cursorCond := if next.None? then cursor else next;
        var k, count, newlySkipped, newlyFailed, done, after, seen :=
          ScanPage(cursorCond, scanned, updated, limit, provider, before, cursor, examined, skipped);
        scanned, updated, skipped, failed := scanned + k, count, skipped + newlySkipped, failed + newlyFailed;
        exhausted, next, examined := done, after, seen;
      }
      call := Call(before, table, cursor, next, examined, others);
      if limit >= 1 {
        CallEnds(call, exhausted);
      }
      CallMeaning(call, limit);
      AnswersMeaning(call, provider);
      FailuresMeaning(call, provider, failed);
    }

    /** The ordered, limited query. */
    method FetchPage(cursor: Option<Key>) returns (rows: seq<nat>)
      ensures var all := Matches(table, cursor); rows == all[..Min(PAGE, |all|)]
    {
      var all := Matches(table, cursor);
      rows := all[..Min(PAGE, |all|)];
    }
  }

  /** What holds between pages of a call. */
  ghost predicate Progress(before: seq<Deposit>, table: seq<Deposit>, cursor: Option<Key>, examined: seq<nat>, others: set<nat>) {
    && Fills(before, table)
    && Ascending(examined)
    && (forall p :: p in examined ==> Wanted(before, cursor, p))
    && (forall p :: 0 <= p < |before| && p !in examined && p !in others ==> table[p] == before[p])
    && Covered(table, cursor, examined)
  }

  lemma KeysKept(a: seq<Deposit>, b: seq<Deposit>)
    requires Listed(a) && Fills(a, b)
    ensures Listed(b)
  {
    forall i, j | 0 <= i < j < |b| ensures Before(b[j].key, b[i].key) {
      assert RowFilled(a[i], b[i]) && RowFilled(a[j], b[j]);
    }
  }

  /** The rows of a page have been examined and nothing else moved. */
  ghost predicate PageDone(fetched: seq<Deposit>, table: seq<Deposit>, done: seq<nat>, others: set<nat>, provider: Key -> Answer) {
    && Fills(fetched, table) && Filled(fetched, table, done, others, provider)
    && forall p :: 0 <= p < |table| && p !in done && p !in others ==> table[p] == fetched[p]
  }

  lemma PageStart(table: seq<Deposit>, others: set<nat>, provider: Key -> Answer)
    ensures PageDone(table, table, [], others, provider) && SkippedAre(table, table, [], others, provider, [])
  {
  }

  lemma {:induction false} RowPending(fetched: seq<Deposit>, prior: seq<Deposit>, rows: seq<nat>, k: nat, others: set<nat>, provider: Key -> Answer)
    requires k < |rows| && rows[k] < |fetched| && PageDone(fetched, prior, rows[..k], others, provider)
    ensures rows[k] < |prior| && RowFilled(fetched[rows[k]], prior[rows[k]])
    ensures FailedOn(fetched, rows[..k + 1], provider) ==
              FailedOn(fetched, rows[..k], provider) + if provider(fetched[rows[k]].key).Throws? then [fetched[rows[k]].key] else []
  {
    assert rows[..k + 1][..k] == rows[..k];
  }

  lemma RowDone(fetched: seq<Deposit>, prior: seq<Deposit>, table: seq<Deposit>, rows: seq<nat>, k: nat,
                priorOthers: set<nat>, others: set<nat>, provider: Key -> Answer)
    requires k < |rows|
    requires PageDone(fetched, prior, rows[..k], priorOthers, provider) && Fills(prior, table) && priorOthers <= others
    requires rows[k] < |fetched| && Ascending(rows)
    requires forall q :: 0 <= q < |table| && q != rows[k] && q !in others ==> table[q] == prior[q]
    requires rows[k] !in others && prior[rows[k]] == fetched[rows[k]] ==>
               table[rows[k]] == Answered(fetched[rows[k]], provider(fetched[rows[k]].key))
    ensures PageDone(fetched, table, rows[..k + 1], others, provider)
  {
    FillsTransitive(fetched, prior, table);
    assert rows[..k + 1] == rows[..k] + [rows[k]];
    assert rows[k] !in rows[..k];
    forall p | p in rows[..k + 1] && p !in others && p < |fetched|
      ensures table[p] == Answered(fetched[p], provider(fetched[p].key)) {
      if p != rows[k] { assert p in rows[..k]; }
    }
  }

  lemma SkippedNext(fetched: seq<Deposit>, prior: seq<Deposit>, table: seq<Deposit>, rows: seq<nat>, k: nat,
                    priorOthers: set<nat>, others: set<nat>, provider: Key -> Answer, skipped: seq<Key>, skip: bool)
    requires k < |rows| && Listed(fetched) && Ascending(rows) && priorOthers <= others
    requires SkippedAre(fetched, prior, rows[..k], priorOthers, provider, skipped)
    requires PageDone(fetched, prior, rows[..k], priorOthers, provider) && |table| == |prior|
    requires rows[k] < |fetched|
    requires forall q :: 0 <= q < |table| && q != rows[k] && q !in others ==> table[q] == prior[q]
    requires skip ==> !provider(fetched[rows[k]].key).Throws?
    requires rows[k] !in others && prior[rows[k]] == fetched[rows[k]] ==>
               (skip <==> table[rows[k]] == fetched[rows[k]] && !provider(fetched[rows[k]].key).Throws?)
    ensures SkippedAre(fetched, table, rows[..k + 1], others, provider,
                       if skip then skipped + [fetched[rows[k]].key] else skipped)
  {
    var now := if skip then skipped + [fetched[rows[k]].key] else skipped;
    assert rows[..k + 1] == rows[..k] + [rows[k]];
    assert rows[k] !in rows[..k];
    SkippedKeysDiffer(fetched, prior, rows, k, priorOthers, provider, skipped);
    forall p | p in rows[..k + 1] && p !in others && p < |fetched|
      ensures fetched[p].key in now <==> table[p] == fetched[p] && !provider(fetched[p].key).Throws?
    {
      if p != rows[k] {
        assert p in rows[..k] && fetched[p].key != fetched[rows[k]].key;
      }
    }
    forall key | key in now ensures SkippedAt(fetched, rows[..k + 1], provider, key) {
      if key in skipped {
        assert SkippedAt(fetched, rows[..k], provider, key);
      } else {
        assert rows[k] in rows[..k + 1];
      }
    }
  }

  lemma SkippedKeysDiffer(fetched: seq<Deposit>, prior: seq<Deposit>, rows: seq<nat>, k: nat,
                          others: set<nat>, provider: Key -> Answer, skipped: seq<Key>)
    requires k < |rows| && Listed(fetched) && Ascending(rows) && rows[k] < |fetched|
    requires SkippedAre(fetched, prior, rows[..k], others, provider, skipped)
    ensures fetched[rows[k]].key !in skipped
  {
    forall p | p in rows[..k] && p < |fetched| ensures fetched[p].key != fetched[rows[k]].key {
      assert p < rows[k] && Before(fetched[rows[k]].key, fetched[p].key);
    }
  }

  lemma SkippedMore(before: seq<Deposit>, fetched: seq<Deposit>, table: seq<Deposit>, start: seq<nat>, more: seq<nat>,
                    started: set<nat>, others: set<nat>, provider: Key -> Answer, skipped: seq<Key>, newly: seq<Key>)
    requires SkippedAre(before, fetched, start, started, provider, skipped)
    requires SkippedAre(fetched, table, more, others, provider, newly)
    requires started <= others && Fills(before, fetched) && |table| == |fetched| && Listed(before)
    requires forall p :: p in more ==> p !in start && p < |before|
    requires forall p :: 0 <= p < |before| && p !in start && p !in started ==> fetched[p] == before[p]
    requires forall p :: 0 <= p < |fetched| && p !in more && p !in others ==> table[p] == fetched[p]
    ensures SkippedAre(before, table, start + more, others, provider, skipped + newly)
  {
    forall p | 0 <= p < |before| ensures fetched[p].key == before[p].key {
      assert RowFilled(before[p], fetched[p]);
    }
    forall key | key in skipped + newly ensures SkippedAt(before, start + more, provider, key) {
      if key in skipped {
        assert SkippedAt(before, start, provider, key);
      } else {
        assert SkippedAt(fetched, more, provider, key);
      }
    }
    forall p | p in start + more && p !in others && p < |before|
      ensures before[p].key in skipped + newly <==> table[p] == before[p] && !provider(before[p].key).Throws?
    {
      if p in start {
        NotAmong(before, fetched, more, provider, newly, p);
      } else {
        NotAmong(before, before, start, provider, skipped, p);
      }
    }
  }

  lemma NotAmong(before: seq<Deposit>, fetched: seq<Deposit>, rows: seq<nat>, provider: Key -> Answer, skipped: seq<Key>, p: nat)
    requires Listed(before) && |fetched| == |before| && p < |before| && p !in rows
    requires forall q :: 0 <= q < |before| ==> fetched[q].key == before[q].key
    requires forall key :: key in skipped ==> SkippedAt(fetched, rows, provider, key)
    ensures before[p].key !in skipped
  {
    forall q | q in rows && q < |fetched| ensures fetched[q].key != before[p].key {
      assert Before(before[p].key, before[q].key) || Before(before[q].key, before[p].key);
    }
  }

  lemma FilledMore(before: seq<Deposit>, fetched: seq<Deposit>, table: seq<Deposit>, start: seq<nat>, more: seq<nat>,
                   started: set<nat>, others: set<nat>, provider: Key -> Answer)
    requires Filled(before, fetched, start, started, provider) && Filled(fetched, table, more, others, provider)
    requires started <= others && Fills(before, fetched)
    requires forall p :: p in more ==> p !in start
    requires forall p :: 0 <= p < |before| && p !in start && p !in started ==> fetched[p] == before[p]
    requires forall p :: 0 <= p < |fetched| && p !in more && p !in others ==> table[p] == fetched[p]
    ensures Filled(before, table, start + more, others, provider)
  {
    forall p | p in start + more && p !in others && p < |before|
      ensures table[p] == Answered(before[p], provider(before[p].key)) {
      assert RowFilled(before[p], fetched[p]);
    }
  }

  /** Everything a turn of the outer loop establishes after its page has been examined. */
  lemma {:induction false} PageScanned(before: seq<Deposit>, fetched: seq<Deposit>, table: seq<Deposit>, cursor: Option<Key>,
                    start: seq<nat>, all: seq<nat>, rows: seq<nat>, k: nat,
                    started: set<nat>, others: set<nat>, provider: Key -> Answer)
    requires Progress(before, fetched, cursor, start, started) && Listed(fetched)
    requires Filled(before, fetched, start, started, provider) && started <= others
    requires PageOf(before, fetched, cursor, start, all) && rows == all[..Min(PAGE, |all|)] && 1 <= k <= |rows|
    requires PageDone(fetched, table, rows[..k], others, provider)
    ensures Progress(before, table, cursor, start + rows[..k], others) && Listed(table)
    ensures Filled(before, table, start + rows[..k], others, provider)
    ensures FailedOn(before, start + rows[..k], provider) == FailedOn(before, start, provider) + FailedOn(fetched, rows[..k], provider)
    ensures rows[k - 1] < |table| && Some(table[rows[k - 1]].key) == CursorAfter(before, cursor, start + rows[..k])
    ensures |rows| < PAGE && rows[k - 1] == rows[|rows| - 1] ==>
              forall p: nat :: Wanted(table, cursor, p) ==> p in start + rows[..k]
  {
    KeysKept(fetched, table);
    FailedOnConcat(before, start, rows[..k], provider);
    FailedOnSameKeys(before, fetched, rows[..k], provider);
    forall p | p in rows[..k] ensures p !in start {
      assert p in all;
    }
    forall p | 0 <= p < |before| && p !in start + rows[..k] && p !in others ensures table[p] == before[p] {
      assert fetched[p] == before[p];
    }
    FilledMore(before, fetched, table, start, rows[..k], started, others, provider);
    PageExamined(before, fetched, table, cursor, start, all, rows, k, others);
    assert RowFilled(before[rows[k - 1]], fetched[rows[k - 1]]) && RowFilled(fetched[rows[k - 1]], table[rows[k - 1]]);
  }

  lemma {:induction false} PageSkipped(before: seq<Deposit>, fetched: seq<Deposit>, table: seq<Deposit>, cursor: Option<Key>,
                    start: seq<nat>, all: seq<nat>, rows: seq<nat>, k: nat,
                    started: set<nat>, others: set<nat>, provider: Key -> Answer, skipped: seq<Key>, newly: seq<Key>)
    requires Progress(before, fetched, cursor, start, started) && Listed(before) && started <= others
    requires PageOf(before, fetched, cursor, start, all) && rows == all[..Min(PAGE, |all|)] && 1 <= k <= |rows|
    requires PageDone(fetched, table, rows[..k], others, provider)
    requires SkippedAre(before, fetched, start, started, provider, skipped)
    requires SkippedAre(fetched, table, rows[..k], others, provider, newly)
    ensures SkippedAre(before, table, start + rows[..k], others, provider, skipped + newly)
  {
    hide SkippedAre;
    forall p | p in rows[..k] ensures p !in start && p < |before| {
      assert p in all;
    }
    SkippedMore(before, fetched, table, start, rows[..k], started, others, provider, skipped, newly);
  }

  /** The continuation cursor: the last row examined, or the caller's cursor while there is none. */
  function CursorAfter(before: seq<Deposit>, cursor: Option<Key>, examined: seq<nat>): Option<Key> {
    if examined == [] || LastOf(examined) >= |before| then cursor else Some(before[LastOf(examined)].key)
  }

  /** The next page holds exactly what is still wanted and not examined, and it comes after what was. */
  lemma PageFollows(before: seq<Deposit>, table: seq<Deposit>, cursor: Option<Key>, examined: seq<nat>, others: set<nat>)
    requires Progress(before, table, cursor, examined, others) && Listed(table)
    ensures var all := Matches(table, CursorAfter(before, cursor, examined));
            && (forall p :: p in all ==> Wanted(before, cursor, p) && (examined != [] ==> p > LastOf(examined)))
            && (forall p: nat :: Wanted(table, cursor, p) ==> p in examined || p in all)
  {
    var cond := CursorAfter(before, cursor, examined);
    if examined != [] {
      var last := LastOf(examined);
      assert last in examined;
      assert RowFilled(before[last], table[last]);
    }
    forall p | p in Matches(table, cond)
      ensures Wanted(before, cursor, p) && (examined != [] ==> p > LastOf(examined)) {
      assert Wanted(table, cond, p);
      WantedShrinks(before, table, cond, p);
    }
  }

  /** What the query returned for the next page, relative to the rows already examined. */
  ghost predicate PageOf(before: seq<Deposit>, fetched: seq<Deposit>, cursor: Option<Key>, start: seq<nat>, all: seq<nat>) {
    && Ascending(all)
    && (forall p :: p in all ==> Wanted(before, cursor, p) && (start != [] ==> p > LastOf(start)))
    && (forall p: nat :: Wanted(fetched, cursor, p) ==> p in start || p in all)
  }

  /** The rows fetched for the next page can be examined; when there are none nothing is left. */
  lemma PageReady(before: seq<Deposit>, table: seq<Deposit>, cursor: Option<Key>, start: seq<nat>, others: set<nat>, rows: seq<nat>)
    requires Progress(before, table, cursor, start, others) && Listed(table)
    requires var all := Matches(table, CursorAfter(before, cursor, start)); rows == all[..Min(PAGE, |all|)]
    ensures PageOf(before, table, cursor, start, Matches(table, CursorAfter(before, cursor, start)))
    ensures Ascending(rows) && forall i :: 0 <= i < |rows| ==> rows[i] < |table| && table[rows[i]].completed
    ensures rows == [] ==> forall p: nat :: Wanted(table, cursor, p) ==> p in start
    ensures start == [] || LastOf(start) < |before|
  {
    var cond := CursorAfter(before, cursor, start);
    var all := Matches(table, cond);
    PageFollows(before, table, cursor, start, others);
    hide Matches, CursorAfter, Fills;
    if start != [] {
      assert LastOf(start) in start;
    }
    forall i | 0 <= i < |rows| ensures rows[i] < |table| && table[rows[i]].completed {
      assert rows[i] in all;
      assert Wanted(table, cond, rows[i]);
    }
  }

  lemma ExaminedInOrder(before: seq<Deposit>, fetched: seq<Deposit>, cursor: Option<Key>, start: seq<nat>, all: seq<nat>, k: nat)
    requires PageOf(before, fetched, cursor, start, all) && 1 <= k <= |all|
    requires Ascending(start) && forall p :: p in start ==> Wanted(before, cursor, p)
    ensures Ascending(start + all[..k])
    ensures forall p :: p in start + all[..k] ==> Wanted(before, cursor, p)
  {
    forall p | p in start + all[..k] ensures Wanted(before, cursor, p) {
      if p !in start { assert p in all; }
    }
    forall i, j | 0 <= i < j < |start + all[..k]| ensures (start + all[..k])[i] < (start + all[..k])[j] {
      if i < |start| <= j {
        assert all[j - |start|] in all;
      }
    }
  }

  lemma ExaminedCovers(before: seq<Deposit>, fetched: seq<Deposit>, table: seq<Deposit>, cursor: Option<Key>,
                       start: seq<nat>, all: seq<nat>, k: nat, p: nat)
    requires PageOf(before, fetched, cursor, start, all) && 1 <= k <= |all|
    requires Fills(fetched, table) && Wanted(table, cursor, p)
    ensures p in start + all[..k] || p > all[k - 1]
    ensures k == |all| ==> p in start + all[..k]
  {
    WantedShrinks(fetched, table, cursor, p);
    if p !in start {
      var i :| 0 <= i < |all| && all[i] == p;
      if i < k { assert all[..k][i] == p; }
    }
  }

  /** Examining the first `k` rows of a page keeps the progress, and a short page examined whole leaves nothing. */
  lemma PageExamined(before: seq<Deposit>, fetched: seq<Deposit>, table: seq<Deposit>, cursor: Option<Key>,
                     start: seq<nat>, all: seq<nat>, rows: seq<nat>, k: nat, others: set<nat>)
    requires Fills(before, fetched) && Fills(fetched, table)
    requires Ascending(start) && forall p :: p in start ==> Wanted(before, cursor, p)
    requires PageOf(before, fetched, cursor, start, all) && rows == all[..Min(PAGE, |all|)]
    requires 1 <= k <= |rows|
    requires forall p :: 0 <= p < |before| && p !in start + rows[..k] && p !in others ==> table[p] == before[p]
    ensures Progress(before, table, cursor, start + rows[..k], others)
    ensures LastOf(start + rows[..k]) == rows[k - 1] < |before|
    ensures |rows| < PAGE && rows[k - 1] == rows[|rows| - 1] ==>
              forall p: nat :: Wanted(table, cursor, p) ==> p in start + rows[..k]
  {
    assert rows[..k] == all[..k];
    ExaminedInOrder(before, fetched, cursor, start, all, k);
    FillsTransitive(before, fetched, table);
    assert all[k - 1] in all;
    forall p: nat | Wanted(table, cursor, p)
      ensures p in start + rows[..k] || p > rows[k - 1]
      ensures k == |all| ==> p in start + rows[..k] {
      ExaminedCovers(before, fetched, table, cursor, start, all, k, p);
    }
  }

  // ---- what one call did, on the rows themselves ----

  lemma EligibleMeans(d: Deposit)
    ensures Eligible(d) <==> Incomplete(d)
  {
    if d.ref.Some? {
      assert "pay_" <= d.ref.value <==> |d.ref.value| >= 4 && d.ref.value[..4] == "pay_";
    }
  }

  /** Examined in listing order, each incomplete and after the cursor; and every row after the cursor that is
      incomplete in the end was examined or comes after the cursor handed back. */
  ghost predicate CallMeans(c: Call, limit: int) {
    && |c.after| == |c.before| && |c.examined| <= 500
    && (forall i, j :: 0 <= i < j < |c.examined| ==> c.examined[i] < c.examined[j])
    && (forall p :: p in c.examined ==>
          p < |c.before| && Incomplete(c.before[p]) && (c.cursor.Some? ==> Later(c.before[p].key, c.cursor.value)))
    && (limit >= 1 ==> forall p ::
          (0 <= p < |c.after| && Incomplete(c.after[p]) && (c.cursor.Some? ==> Later(c.after[p].key, c.cursor.value))) ==>
            p in c.examined || (c.next.Some? && Later(c.after[p].key, c.next.value)))
  }

  /** Each figure an examined row lacked is the one the provider gave, if it gave one; every other figure,
      and every row not examined, is as it was, unless an overlapping run wrote it. */
  ghost predicate AnswersWritten(c: Call, provider: Key -> Answer) {
    && |c.after| == |c.before|
    && forall p :: 0 <= p < |c.before| && p !in c.others ==>
         var d, e, a := c.before[p], c.after[p], provider(c.before[p].key);
         if p in c.examined && a.Figures? then
           && e.fee == (if d.fee == None then a.fee else d.fee)
           && e.net == (if d.net == None then a.net else d.net)
           && e.converted == (if d.converted == None then a.converted else d.converted)
           && e == d.(fee := e.fee, net := e.net, converted := e.converted)
         else e == d
  }

  /** The failed keys are those of the examined rows whose provider call threw, in listing order. */
  ghost predicate FailuresListed(c: Call, provider: Key -> Answer, failed: seq<Key>) {
    && NewestFirst(failed)
    && (forall key :: key in failed <==> FailedAt(c.before, c.examined, provider, key))
  }

  predicate NewestFirst(keys: seq<Key>) { forall i, j :: 0 <= i < j < |keys| ==> Later(keys[j], keys[i]) }

  predicate FailedAt(before: seq<Deposit>, examined: seq<nat>, provider: Key -> Answer, key: Key) {
    exists p :: p in examined && p < |before| && before[p].key == key && provider(key) == Throws
  }

  lemma CallMeaning(c: Call, limit: int)
    requires Progress(c.before, c.after, c.cursor, c.examined, c.others) && |c.examined| <= MAX_SCAN && Listed(c.after)
    requires limit >= 1 ==> CallOk(c)
    ensures CallMeans(c, limit)
  {
    forall d ensures Eligible(d) <==> Incomplete(d) {
      EligibleMeans(d);
    }
    hide Eligible, Incomplete;
    forall p | limit >= 1 && 0 <= p < |c.after| && Incomplete(c.after[p])
        && (c.cursor.Some? ==> Later(c.after[p].key, c.cursor.value))
      ensures p in c.examined || (c.next.Some? && Later(c.after[p].key, c.next.value))
    {
      assert Wanted(c.after, c.cursor, p);
      if p !in c.examined {
        var last := LastOf(c.examined);
        assert RowFilled(c.before[last], c.after[last]);
        assert Before(c.after[p].key, c.after[last].key);
      }
    }
  }

  lemma AnswersMeaning(c: Call, provider: Key -> Answer)
    requires Progress(c.before, c.after, c.cursor, c.examined, c.others)
    requires Filled(c.before, c.after, c.examined, c.others, provider)
    ensures AnswersWritten(c, provider)
  {
  }

  lemma {:induction false} FailuresAre(before: seq<Deposit>, examined: seq<nat>, provider: Key -> Answer)
    requires Listed(before) && Ascending(examined) && forall p :: p in examined ==> p < |before|
    ensures var failed := FailedOn(before, examined, provider);
            NewestFirst(failed) && forall key :: key in failed <==> FailedAt(before, examined, provider, key)
  {
    if examined != [] {
      var n := |examined| - 1;
      var front, p := examined[..n], examined[n];
      assert examined == front + [p] && p in examined;
      forall q | q in front ensures q < p {
        assert q in examined;
      }
      FailuresAre(before, front, provider);
      var failed := FailedOn(before, front, provider);
      assert FailedOn(before, examined, provider) == failed + if provider(before[p].key).Throws? then [before[p].key] else [];
      hide FailedOn, FailedAt, NewestFirst, Listed;
      FailuresNext(before, front, p, provider, failed);
    }
  }

  lemma FailuresNext(before: seq<Deposit>, front: seq<nat>, p: nat, provider: Key -> Answer, failed: seq<Key>)
    requires Listed(before) && p < |before| && forall q :: q in front ==> q < p
    requires NewestFirst(failed)
    requires forall key :: key in failed <==> FailedAt(before, front, provider, key)
    ensures NewestFirst(failed + [before[p].key])
    ensures forall key :: FailedAt(before, front + [p], provider, key)
                          <==> key in failed || (key == before[p].key && provider(key) == Throws)
  {
    forall key | key in failed ensures Later(before[p].key, key) {
      assert FailedAt(before, front, provider, key);
      var q :| q in front && q < |before| && before[q].key == key;
      assert Before(before[p].key, before[q].key);
    }
    forall key ensures FailedAt(before, front + [p], provider, key)
                       <==> key in failed || (key == before[p].key && provider(key) == Throws) {
      assert p in front + [p];
      if FailedAt(before, front, provider, key) {
        var q :| q in front && q < |before| && before[q].key == key && provider(key) == Throws;
        assert q in front + [p];
      }
    }
  }

  lemma FailuresMeaning(c: Call, provider: Key -> Answer, failed: seq<Key>)
    requires Progress(c.before, c.after, c.cursor, c.examined, c.others) && Listed(c.before)
    requires failed == FailedOn(c.before, c.examined, provider)
    ensures FailuresListed(c, provider, failed)
  {
    FailuresAre(c.before, c.examined, provider);
  }

  // ---- following the cursor from the start ----

  /** Calls that follow the continuation cursor, with any other fills in between. */
  ghost predicate Follows(calls: seq<Call>) {
    && calls != [] && calls[0].cursor.None?
    && (forall i :: 0 <= i < |calls| ==> Listed(calls[i].before) && CallOk(calls[i]))
    && (forall i :: 0 <= i < |calls| - 1 ==>
          && calls[i].next.Some? && calls[i + 1].cursor == calls[i].next
          && Fills(calls[i].after, calls[i + 1].before))
  }

  /** No other run touches the table. */
  ghost predicate Alone(calls: seq<Call>) {
    && (forall i :: 0 <= i < |calls| ==> calls[i].others == {})
    && (forall i :: 0 <= i < |calls| - 1 ==> calls[i + 1].before == calls[i].after)
  }

  function Examined(calls: seq<Call>): seq<nat> {
    if calls == [] then [] else Examined(calls[..|calls| - 1]) + calls[|calls| - 1].examined
  }

  /** After the calls up to `c` the positions `E` are examined and all that is left lies below its cursor. */
  ghost predicate Reached(first: seq<Deposit>, E: seq<nat>, c: Call) {
    && Fills(first, c.after)
    && Ascending(E)
    && (forall p :: p in E ==> Wanted(first, None, p))
    && (forall p: nat :: Wanted(c.after, None, p) ==> p in E || (c.next.Some? && E != [] && p > LastOf(E)))
    && (c.next.Some? ==> E != [] && LastOf(E) < |first| && c.next == Some(first[LastOf(E)].key))
  }

  /** What one more call examines lies below everything examined before it. */
  lemma NextCallBelow(first: seq<Deposit>, E: seq<nat>, c: Call)
    requires CallOk(c) && Listed(c.before) && Fills(first, c.before)
    requires E != [] && LastOf(E) < |first| && c.cursor == Some(first[LastOf(E)].key)
    ensures forall p :: p in c.examined ==> p > LastOf(E) && Wanted(first, None, p)
    ensures forall p: nat :: p < |c.before| && p > LastOf(E) ==> Below(c.before[p], c.cursor)
  {
    assert RowFilled(first[LastOf(E)], c.before[LastOf(E)]);
    forall p | p in c.examined ensures p > LastOf(E) && Wanted(first, None, p) {
      assert Wanted(c.before, c.cursor, p);
      WantedShrinks(first, c.before, None, p);
    }
  }

  lemma {:induction false} NextCall(first: seq<Deposit>, E: seq<nat>, b: Call, c: Call)
    requires Reached(first, E, b) && b.next.Some? && c.cursor == b.next && Fills(b.after, c.before)
    requires CallOk(c) && Listed(c.before)
    ensures Reached(first, E + c.examined, c)
  {
    FillsTransitive(first, b.after, c.before);
    FillsTransitive(first, c.before, c.after);
    NextCallBelow(first, E, c);
    forall i, j | 0 <= i < j < |E + c.examined| ensures (E + c.examined)[i] < (E + c.examined)[j] {
      if i < |E| <= j {
        assert c.examined[j - |E|] in c.examined;
      }
    }
    forall p: nat | Wanted(c.after, None, p)
      ensures p in E + c.examined || (c.next.Some? && p > LastOf(E + c.examined)) {
      WantedShrinks(c.before, c.after, None, p);
      WantedShrinks(b.after, c.before, None, p);
      assert RowFilled(c.before[p], c.after[p]);
    }
    if c.next.Some? {
      assert LastOf(c.examined) in c.examined;
      assert RowFilled(first[LastOf(c.examined)], c.before[LastOf(c.examined)]);
    }
  }

  lemma FirstCall(c: Call)
    requires CallOk(c) && c.cursor.None?
    ensures Reached(c.before, c.examined, c)
  {
    if c.next.Some? {
      assert LastOf(c.examined) in c.examined;
    }
  }

  /** How far a prefix of the calls has come. */
  lemma {:induction false} PrefixCovers(calls: seq<Call>)
    requires Follows(calls)
    ensures Reached(calls[0].before, Examined(calls), calls[|calls| - 1])
    ensures |Examined(calls)| >= |calls| - 1 + (if calls[|calls| - 1].next.Some? then 1 else 0)
  {
    var n := |calls| - 1;
    if n == 0 {
      assert Examined(calls) == calls[n].examined;
      FirstCall(calls[n]);
    } else {
      var front := calls[..n];
      FollowsFront(calls);
      hide Follows, CallOk, Reached, Fills, Listed;
      PrefixCovers(front);
      NextCall(calls[0].before, Examined(front), calls[n - 1], calls[n]);
    }
  }

  lemma FollowsFront(calls: seq<Call>)
    requires Follows(calls) && |calls| > 1
    ensures var n := |calls| - 1;
            && Follows(calls[..n]) && calls[n - 1].next.Some? && calls[n].cursor == calls[n - 1].next
            && Fills(calls[n - 1].after, calls[n].before) && CallOk(calls[n]) && Listed(calls[n].before)
            && (calls[n].next.Some? ==> calls[n].examined != [])
  {
    var n := |calls| - 1;
    assert calls[n - 1].next.Some? && calls[(n - 1) + 1].cursor == calls[n - 1].next;
  }

  lemma {:induction false} UntouchedAlone(calls: seq<Call>, p: nat)
    requires Follows(calls) && Alone(calls) && p < |calls[0].before| && p !in Examined(calls)
    ensures var c := calls[|calls| - 1]; p < |c.after| && c.after[p] == calls[0].before[p]
  {
    var n := |calls| - 1;
    if n > 0 {
      UntouchedAlone(calls[..n], p);
      assert calls[(n - 1) + 1].before == calls[n - 1].after;
    }
  }

  /** Following the cursor until it is null examines deposits newest first, each at most once; every one was
      completed and, as PayPal, had a reference and lacked a figure, or, as PayMongo, had a `pay_` reference
      and lacked the fee or the net; and no deposit that is so in the end was passed over. No figure is ever
      overwritten, and the calls run out. */
  lemma {:induction false} FollowedCursorCovers(calls: seq<Call>)
    requires Follows(calls) && calls[|calls| - 1].next.None?
    ensures var E, first, last := Examined(calls), calls[0].before, calls[|calls| - 1].after;
            && |last| == |first|
            && (forall i, j :: 0 <= i < j < |E| ==> E[i] < E[j])
            && (forall p :: p in E ==>
                  p < |first| && first[p].completed && first[p].ref != None
                  && (|| (first[p].payment == PayPal
                          && (first[p].fee == None || first[p].net == None || first[p].converted == None))
                      || (first[p].payment == PayMongo && |first[p].ref.value| >= 4 && first[p].ref.value[..4] == "pay_"
                          && (first[p].fee == None || first[p].net == None))))
            && (forall p ::
                  (0 <= p < |last| && last[p].completed && last[p].payment == PayPal && last[p].ref != None
                   && (last[p].fee == None || last[p].net == None || last[p].converted == None)) ==> p in E)
            && (forall p ::
                  (0 <= p < |last| && last[p].completed && last[p].payment == PayMongo && last[p].ref != None
                   && |last[p].ref.value| >= 4 && last[p].ref.value[..4] == "pay_"
                   && (last[p].fee == None || last[p].net == None)) ==> p in E)
            && (forall p :: 0 <= p < |first| ==>
                  && last[p] == first[p].(fee := last[p].fee, net := last[p].net, converted := last[p].converted)
                  && (first[p].fee != None ==> last[p].fee == first[p].fee)
                  && (first[p].net != None ==> last[p].net == first[p].net)
                  && (first[p].converted != None ==> last[p].converted == first[p].converted))
            && |calls| <= |E| + 1
  {
    PrefixCovers(calls);
    forall d ensures Eligible(d) <==> Incomplete(d) {
      EligibleMeans(d);
    }
    var E, first, last := Examined(calls), calls[0].before, calls[|calls| - 1].after;
    hide Eligible, Follows;
    forall p | p in E ensures p < |first| && Incomplete(first[p]) {
      assert Wanted(first, None, p);
    }
    forall p | 0 <= p < |last| && Incomplete(last[p]) ensures p in E {
      assert Wanted(last, None, p);
    }
    forall p | 0 <= p < |first| ensures RowFilled(first[p], last[p]) {}
  }

  /** When nothing else fills figures the deposits examined are exactly those, in order. */
  lemma {:induction false} FollowedCursorIsExact(calls: seq<Call>)
    requires Follows(calls) && Alone(calls) && calls[|calls| - 1].next.None?
    ensures var E, first := Examined(calls), calls[0].before;
            && (forall i, j :: 0 <= i < j < |E| ==> E[i] < E[j])
            && forall p: nat :: p in E <==>
                 p < |first| && first[p].completed && first[p].ref != None
                 && (|| (first[p].payment == PayPal
                         && (first[p].fee == None || first[p].net == None || first[p].converted == None))
                     || (first[p].payment == PayMongo && |first[p].ref.value| >= 4 && first[p].ref.value[..4] == "pay_"
                         && (first[p].fee == None || first[p].net == None)))
  {
    var E, first := Examined(calls), calls[0].before;
    PrefixCovers(calls);
    forall p: nat ensures p in E <==> p < |first| && Incomplete(first[p]) {
      if p < |first| { EligibleMeans(first[p]); }
      assert p in E ==> Wanted(first, None, p);
      if p !in E && p < |first| { UntouchedAlone(calls, p); }
    }
  }
}
