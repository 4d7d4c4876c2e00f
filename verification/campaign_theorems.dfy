/** What campaign funding guarantees over every interleaving, and where a stale update breaks it. */
module CampaignTheorems {
  import opened Histories
  import opened Wrappers
  import opened Sums
  import opened CampaignFunding
  import opened CampaignModel

  lemma HistoryPrefix(start: Db, rs: seq<Request>, k: nat)
    requires k <= |rs|
    ensures History(start, rs)[..k + 1] == History(start, rs[..k])
  {
    if k == |rs| {
      assert rs[..k] == rs;
    } else {
      var front := rs[..|rs| - 1];
      HistoryPrefix(start, front, k);
      assert front[..k] == rs[..k];
      assert History(start, rs)[..k + 1] == History(start, front)[..k + 1];
    }
  }

  /** State `k + 1` of a history is request `k` performed on the states before it. */
  lemma HistoryStep(start: Db, rs: seq<Request>, k: nat)
    requires k < |rs|
    ensures var h := History(start, rs); h[k + 1] == Perform(h[..k + 1], rs[k])
  {
    HistoryPrefix(start, rs, k);
    HistoryPrefix(start, rs, k + 1);
    assert rs[..k + 1][..k] == rs[..k];
    assert History(start, rs)[k + 1] == History(start, rs)[..k + 2][k + 1];
  }

  /** Committing one request and then the rest. */
  lemma {:induction false} ContinueCons(h: seq<Db>, r: Request, rs: seq<Request>)
    requires h != []
    ensures Continue(h, [r] + rs) == Continue(h + [Perform(h, r)], rs)
  {
    hide Perform;
    var all := [r] + rs;
    if rs == [] {
      assert all[..0] == [] && Continue(h, all[..0]) == h;
    } else {
      ContinueCons(h, r, rs[..|rs| - 1]);
      assert all[..|all| - 1] == [r] + rs[..|rs| - 1];
    }
  }

  // ---- refunds never exceed the funding ----

  predicate PaysRefund(a: Db, b: Db) { Refunded(b.ledger) > Refunded(a.ledger) }

  predicate WithinFunding(db: Db) { Refunded(db.ledger) + db.row.fee <= Funded(db.ledger) }

  /** Only a cancellation adds a refund, and the refund it adds fits in the funding. */
  lemma {:induction false} RefundStep(h: seq<Db>, r: Request)
    requires h != []
    ensures var a, b := Last(h), Perform(h, r);
            && b.row.fee == a.row.fee && b.row.owner == a.row.owner
            && (PaysRefund(a, b) ==> r.Cancel? && WithinFunding(b))
            && (!PaysRefund(a, b) ==> Refunded(b.ledger) == Refunded(a.ledger) && Funded(b.ledger) >= Funded(a.ledger))
  {
    var a, b := Last(h), Perform(h, r);
    if b.ledger != a.ledger {
      assert b.ledger == a.ledger + [b.ledger[|a.ledger|]];
      LedgerPush(a.ledger, b.ledger[|a.ledger|]);
    }
  }

  lemma {:induction false} RefundStepAt(start: Db, rs: seq<Request>, k: nat)
    requires k < |rs|
    ensures var a, b := History(start, rs)[k], History(start, rs)[k + 1];
            && b.row.fee == a.row.fee && b.row.owner == a.row.owner
            && (PaysRefund(a, b) ==> rs[k].Cancel? && WithinFunding(b))
            && (WithinFunding(a) ==> WithinFunding(b))
  {
    var h := History(start, rs);
    HistoryStep(start, rs, k);
    assert Last(h[..k + 1]) == h[k];
    RefundStep(h[..k + 1], rs[k]);
  }

  /** Whatever the ledger was, and however funding, edits, stale updates and both kinds of cancellation
      interleave: once a cancellation has paid a refund, refunds and fee stay within the funding. */
  lemma {:induction false} RefundsStayWithinFunding(start: Db, rs: seq<Request>, i: nat, j: nat)
    requires i < j <= |rs|
    requires PaysRefund(History(start, rs)[i], History(start, rs)[i + 1])
    ensures rs[i].Cancel?
    ensures WithinFunding(History(start, rs)[j])
    decreases j
  {
    RefundStepAt(start, rs, i);
    if j > i + 1 {
      RefundsStayWithinFunding(start, rs, i, j - 1);
      RefundStepAt(start, rs, j - 1);
    }
  }

  lemma HistoryStart(start: Db, rs: seq<Request>)
    ensures History(start, rs)[0] == start
  {
    HistoryPrefix(start, rs, 0);
    assert rs[..0] == [];
    assert History(start, rs)[0] == History(start, rs)[..1][0];
  }

  /** The fee the bound speaks of is the one locked in at creation. */
  lemma {:induction false} FeeFixed(start: Db, rs: seq<Request>, k: nat)
    requires k <= |rs|
    ensures History(start, rs)[k].row.fee == start.row.fee && History(start, rs)[k].row.owner == start.row.owner
  {
    if k > 0 {
      FeeFixed(start, rs, k - 1);
      RefundStepAt(start, rs, k - 1);
    } else {
      HistoryStart(start, rs);
    }
  }

  lemma UnfundedStep(h: seq<Db>, r: Request)
    requires h != [] && OfKind(Last(h).ledger, SpendCreate) == [] && !r.Fund?
    ensures Perform(h, r).ledger == Last(h).ledger
  {
    hide OfKind;
  }

  /** A campaign nobody ever funded is never refunded. */
  lemma {:induction false} UnfundedNeverRefunded(start: Db, rs: seq<Request>)
    requires OfKind(start.ledger, SpendCreate) == [] && forall i :: 0 <= i < |rs| ==> !rs[i].Fund?
    ensures forall k :: 0 <= k <= |rs| ==> History(start, rs)[k].ledger == start.ledger
  {
    hide OfKind;
    hide Perform;
    if rs != [] {
      var n := |rs| - 1;
      var h := History(start, rs[..n]);
      UnfundedNeverRefunded(start, rs[..n]);
      UnfundedStep(h, rs[n]);
      assert History(start, rs) == h + [Perform(h, rs[n])];
    }
  }

  // ---- payouts and refund share the pool of a created campaign ----

  datatype Terms = Terms(owner: UserId, total: int, credit: int, fee: int, platform: bool)

  function Created(t: Terms): Db { CreateCampaign(t.owner, t.total, t.credit, t.fee, t.platform) }

  function Pool(t: Terms): int { t.total * t.credit }

  /** The ledger of a created campaign: its funding, then at most one refund. */
  predicate PoolLedger(db: Db, t: Terms) {
    && |db.ledger| in {1, 2}
    && db.ledger[0] == Entry(SpendCreate, true, -(Pool(t) + t.fee), t.owner)
    && (|db.ledger| == 2 ==>
          && db.row.status == Cancelled
          && db.ledger[1].kind == RefundCancel && db.ledger[1].completed && db.ledger[1].user == t.owner
          && db.ledger[1].amount > 0
          && db.ledger[1].amount + (db.row.completed + db.row.pending) * t.credit <= Pool(t))
  }

  ghost predicate PoolOk(db: Db, t: Terms) {
    && t.total >= 1 && db.row.status != PendingReview
    && db.row.owner == t.owner && db.row.total == t.total && db.row.credit == t.credit && db.row.fee == t.fee
    && ValidCounters(db.row)
    && db.row.completed + db.row.pending <= |db.tasks|
    && Sum(AmountsPaid(db.payouts)) == db.row.completed * t.credit
    && PoolLedger(db, t)
  }

  ghost predicate AllPoolOk(h: seq<Db>, t: Terms) { forall k :: 0 <= k < |h| ==> PoolOk(h[k], t) }

  /** The update writes a status over a cancellation that was refunded. */
  predicate Revives(db: Db, to: Option<Status>) {
    to.Some? && db.row.status == Cancelled && Refunded(db.ledger) > 0
  }

  /** The request neither edits terms nor adds funding, and as an `update`, stale or not, revives nothing. */
  predicate Safe(h: seq<Db>, r: Request)
    requires h != []
  {
    !r.Fund? && !r.Edit? && (r.Update? && Attempt(h, r).Some? ==> !Revives(Last(h), r.to))
  }

  ghost predicate SafeRun(h: seq<Db>, rs: seq<Request>)
    requires h != []
  {
    forall i :: 0 <= i < |rs| ==> Safe(Continue(h, rs[..i]), rs[i])
  }

  lemma {:induction false} SafeRunLast(h: seq<Db>, rs: seq<Request>)
    requires h != [] && rs != [] && SafeRun(h, rs)
    ensures SafeRun(h, rs[..|rs| - 1]) && Safe(Continue(h, rs[..|rs| - 1]), rs[|rs| - 1])
  {
    var n := |rs| - 1;
    forall i | 0 <= i < n
      ensures Safe(Continue(h, rs[..n][..i]), rs[..n][i])
    {
      assert rs[..n][..i] == rs[..i];
    }
  }

  lemma PoolLedgerKinds(db: Db, t: Terms)
    requires PoolLedger(db, t)
    ensures OfKind(db.ledger, SpendCreate) == [db.ledger[0]]
    ensures OfKind(db.ledger, RefundCancel) == db.ledger[1..]
  {
    var first := db.ledger[0];
    assert OfKind([], SpendCreate) == [] && OfKind([], RefundCancel) == [];
    OfKindPush([], first, SpendCreate);
    OfKindPush([], first, RefundCancel);
    assert [] + [first] == [first];
    hide OfKind;
    if |db.ledger| == 2 {
      assert db.ledger == [first] + [db.ledger[1]];
      OfKindPush([first], db.ledger[1], SpendCreate);
      OfKindPush([first], db.ledger[1], RefundCancel);
    } else {
      assert db.ledger == [first];
    }
  }

  lemma SumOne(e: Entry)
    ensures Sum(Amounts([e])) == e.amount && Sum(Amounts([])) == 0
  {
    assert Amounts([e]) == [] + [e.amount];
    SumPush([], e.amount);
  }

  lemma PoolLedgerSums(db: Db, t: Terms)
    requires PoolLedger(db, t)
    ensures Funded(db.ledger) == Pool(t) + t.fee
    ensures Refunded(db.ledger) == if |db.ledger| == 2 then db.ledger[1].amount else 0
    ensures OfKind(db.ledger, SpendCreate) == [db.ledger[0]]
    ensures OfKind(db.ledger, RefundCancel) == db.ledger[1..]
  {
    hide OfKind;
    hide Sum;
    hide Amounts;
    PoolLedgerKinds(db, t);
    SumOne(db.ledger[0]);
    if |db.ledger| == 2 {
      SumOne(db.ledger[1]);
      assert db.ledger[1..] == [db.ledger[1]];
    } else {
      assert db.ledger[1..] == [];
    }
  }

  /** The ledger check passes exactly when the fee is not negative, and grants the whole unused pool. */
  lemma UnusedRefundable(db: Db, t: Terms)
    requires PoolOk(db, t) && db.row.status in CANCELLABLE
    ensures |db.ledger| == 1 && 0 <= Unused(db.row) <= Pool(t)
    ensures Refundable(db.ledger, db.row.owner, db.row.fee, Unused(db.row))
            == if t.fee >= 0 then Some(Unused(db.row)) else None
  {
    PoolLedgerSums(db, t);
    Distribute(t.total, db.row.completed + db.row.pending, t.credit);
    Distribute(t.total, 1, t.credit);
    Distribute(db.row.completed + db.row.pending, 0, t.credit);
    hide OfKind;
    hide Funded;
    hide Refunded;
  }

  lemma RefundAdds(ledger: seq<Entry>, amount: int, owner: UserId)
    ensures Refunded(ledger + [Entry(RefundCancel, true, amount, owner)]) == Refunded(ledger) + amount
  {
    LedgerPush(ledger, Entry(RefundCancel, true, amount, owner));
  }

  /** The first cancellation of a created campaign is judged fairly: the counter and ledger checks pass
      exactly when the fee is not negative, and the refund is the whole unused pool. */
  lemma {:induction false} CancelPays(db: Db, t: Terms, admin: bool)
    requires PoolOk(db, t) && db.row.status in CANCELLABLE && (admin || db.tasks == map[])
    ensures CancelTx(db, admin).Some? <==> t.fee >= 0
    ensures CancelTx(db, admin).Some? ==>
              var b := CancelTx(db, admin).value;
              && Refunded(b.ledger) - Refunded(db.ledger) == Unused(db.row)
              && PoolOk(b, t)
              && (!admin ==> Unused(db.row) == Pool(t))
  {
    hide Refundable;
    hide Refunded;
    hide Sum;
    hide AmountsPaid;
    UnusedRefundable(db, t);
    RefundAdds(db.ledger, Unused(db.row), db.row.owner);
    Distribute(t.total, db.row.completed + db.row.pending, t.credit);
  }

  lemma Distribute(total: int, used: int, credit: int)
    requires total >= used && credit > 0
    ensures (total - used) * credit == total * credit - used * credit >= 0
    ensures (used + 1) * credit == used * credit + credit
    ensures (used - 1) * credit == used * credit - credit
  {
  }

  lemma VerifyKeepsPool(a: Db, t: Terms, worker: WorkerId, from: set<TaskStatus>)
    requires PoolOk(a, t)
    ensures var v := VerifyTx(a, worker, from, t.credit); v.Some? ==> PoolOk(v.value, t)
  {
    var v := VerifyTx(a, worker, from, t.credit);
    hide Pool;
    hide Sum;
    if v.Some? {
      assert a.row.completed + a.row.pending == v.value.row.completed + v.value.row.pending;
      Distribute(t.total, a.row.completed, t.credit);
      assert AmountsPaid(v.value.payouts) == AmountsPaid(a.payouts) + [t.credit];
      SumPush(AmountsPaid(a.payouts), t.credit);
    }
  }

  lemma RejectKeepsPool(a: Db, t: Terms, worker: WorkerId)
    requires PoolOk(a, t)
    ensures var v := RejectTx(a, worker); v.Some? ==> PoolOk(v.value, t)
  {
    Distribute(t.total, a.row.completed + a.row.pending, t.credit);
  }

  lemma UpdateKeepsPool(h: seq<Db>, r: Request, t: Terms)
    requires h != [] && PoolOk(Last(h), t) && r.Update? && Safe(h, r)
    ensures PoolOk(Perform(h, r), t)
  {
    PoolLedgerSums(Last(h), t);
  }

  lemma {:induction false} PoolStep(h: seq<Db>, r: Request, t: Terms)
    requires h != [] && AllPoolOk(h, t) && Safe(h, r)
    ensures PoolOk(Perform(h, r), t)
  {
    var a := Last(h);
    assert PoolOk(a, t);
    match r {
      case Fund(_, _) =>
      case Update(_, _) => UpdateKeepsPool(h, r, t);
      case Edit(_, _) =>
      case ReviewCampaign(_, readAt) => assert PoolOk(At(h, readAt), t);
      case Cancel(admin, walletOk) =>
        if CancelTx(a, admin).Some? {
          CancelPays(a, t, admin);
        }
      case CancelPlatform(readAt) =>
      case PausePlatform =>
      case Assign(worker) =>
      case Submit(worker, readAt) =>
      case Verify(worker, auto, readAt) =>
        assert PoolOk(At(h, readAt), t);
        VerifyKeepsPool(a, t, worker, if auto then OPEN_TASK else {Submitted});
      case Reject(worker) =>
        RejectKeepsPool(a, t, worker);
    }
  }

  /** Counters, payouts and ledger stay tied together as long as nothing revives a refunded cancellation. */
  lemma {:induction false} PoolContinues(h: seq<Db>, rs: seq<Request>, t: Terms)
    requires h != [] && AllPoolOk(h, t) && SafeRun(h, rs)
    ensures AllPoolOk(Continue(h, rs), t)
  {
    hide PoolOk;
    hide Safe;
    hide SafeRun;
    if rs != [] {
      var n := |rs| - 1;
      SafeRunLast(h, rs);
      PoolContinues(h, rs[..n], t);
      PoolStep(Continue(h, rs[..n]), rs[n], t);
    }
  }

  lemma CreatedPoolOk(t: Terms)
    requires t.total >= 1 && t.credit >= 1
    ensures AllPoolOk([Created(t)], t)
  {
  }

  lemma PoolKept(t: Terms, rs: seq<Request>)
    requires t.total >= 1 && t.credit >= 1 && SafeRun([Created(t)], rs)
    ensures AllPoolOk(History(Created(t), rs), t)
  {
    CreatedPoolOk(t);
    PoolContinues([Created(t)], rs, t);
  }

  predicate Within(db: Db, t: Terms) { Sum(AmountsPaid(db.payouts)) + Refunded(db.ledger) <= Pool(t) }

  lemma PoolBound(db: Db, t: Terms)
    requires PoolOk(db, t)
    ensures Within(db, t)
  {
    PoolLedgerSums(db, t);
    Products(t, db.row.completed, db.row.pending);
  }

  /** Workers and creator together never take more than the pool out of a created campaign, in-flight
      completions approved after the cancellation included, while nothing revives a refunded cancellation. */
  lemma PayoutsAndRefundWithinPool(t: Terms, rs: seq<Request>, k: nat)
    requires t.total >= 1 && t.credit >= 1 && SafeRun([Created(t)], rs) && k <= |rs|
    ensures Within(History(Created(t), rs)[k], t)
  {
    PoolKept(t, rs);
    PoolBound(History(Created(t), rs)[k], t);
  }

  lemma Products(t: Terms, completed: int, pending: int)
    requires t.credit >= 1 && completed >= 0 && pending >= 0 && completed + pending <= t.total
    ensures completed * t.credit <= (completed + pending) * t.credit <= Pool(t)
  {
    Distribute(t.total, completed + pending, t.credit);
    Distribute(completed + pending, completed, t.credit);
  }

  /** What a fair judgement of a cancellation is: accepted exactly when the fee is not negative, every slot
      that is neither completed nor pending refunded at the price of a task, nothing else touched. */
  predicate JudgedFairly(a: Db, b: Db, t: Terms, walletOk: bool) {
    var refund := (t.total - a.row.completed - a.row.pending) * t.credit;
    if t.fee >= 0 && (refund > 0 ==> walletOk) then
      && b.row == a.row.(status := Cancelled) && b.tasks == a.tasks && b.payouts == a.payouts
      && b.ledger == a.ledger + (if refund > 0 then [Entry(RefundCancel, true, refund, t.owner)] else [])
    else b == a
  }

  lemma {:induction false} CancelJudged(h: seq<Db>, t: Terms, admin: bool, walletOk: bool)
    requires h != [] && PoolOk(Last(h), t) && Last(h).row.status in CANCELLABLE && (admin || Last(h).tasks == map[])
    ensures JudgedFairly(Last(h), Perform(h, Cancel(admin, walletOk)), t, walletOk)
  {
    var a := Last(h);
    UnusedRefundable(a, t);
    hide Refundable, OfKind, Sum;
    assert a.ledger + [] == a.ledger;
  }

  /** As long as a created campaign can be cancelled at all, every cancellation is judged fairly; from a
      status it cannot be cancelled in, or by a creator whose campaign was taken, it changes nothing. */
  lemma {:induction false} FirstCancellationAccepted(t: Terms, rs: seq<Request>, admin: bool, walletOk: bool)
    requires t.total >= 1 && t.credit >= 1 && SafeRun([Created(t)], rs)
    ensures var h := History(Created(t), rs);
            var a, b := Last(h), Perform(h, Cancel(admin, walletOk));
            if a.row.status in {Active, Paused, Draft, PendingReview} && (admin || a.tasks == map[])
            then JudgedFairly(a, b, t, walletOk) else b == a
  {
    PoolKept(t, rs);
    var h := History(Created(t), rs);
    assert PoolOk(Last(h), t);
    if Last(h).row.status in CANCELLABLE && (admin || Last(h).tasks == map[]) {
      CancelJudged(h, t, admin, walletOk);
    }
  }

  lemma PoolSplits(db: Db, t: Terms, refund: int)
    requires PoolOk(db, t) && refund == (t.total - db.row.completed - db.row.pending) * t.credit
    ensures Sum(AmountsPaid(db.payouts)) + refund + db.row.pending * t.credit == t.total * t.credit
  {
    hide Sum, PoolLedger;
    Distribute(t.total, db.row.completed + db.row.pending, t.credit);
    Together(db.row.completed, db.row.pending, t.credit);
  }

  lemma Together(completed: int, pending: int, credit: int)
    ensures (completed + pending) * credit == completed * credit + pending * credit
  {
  }

  lemma {:induction false} CancellationSettles(h: seq<Db>, t: Terms, admin: bool, walletOk: bool)
    requires h != [] && PoolOk(Last(h), t) && Perform(h, Cancel(admin, walletOk)) != Last(h)
    ensures var a, b := Last(h), Perform(h, Cancel(admin, walletOk));
            && Flow(a.ledger, RefundCancel) == 0
            && Sum(AmountsPaid(b.payouts)) + Flow(b.ledger, RefundCancel) + b.row.pending * t.credit == t.total * t.credit
  {
    var a, b := Last(h), Perform(h, Cancel(admin, walletOk));
    var refund := (t.total - a.row.completed - a.row.pending) * t.credit;
    CancelJudged(h, t, admin, walletOk);
    UnusedRefundable(a, t);
    PoolLedgerSums(a, t);
    FlowIsSum(a.ledger, RefundCancel);
    FlowIsSum(b.ledger, RefundCancel);
    PoolSplits(a, t, refund);
    hide Flow, OfKind, Sum, Amounts, AmountsPaid, Refundable, PoolLedger, Perform;
    if refund > 0 {
      RefundAdds(a.ledger, refund, t.owner);
    } else {
      assert a.ledger + [] == a.ledger;
    }
  }

  /** Right after a cancellation commits, what workers were paid, what the creator got back and what the
      pending slots may still be paid is the whole pool: not a credit more or less, and nothing had been
      refunded before. */
  lemma {:induction false} CancellationSplitsThePool(t: Terms, rs: seq<Request>, admin: bool, walletOk: bool)
    requires t.total >= 1 && t.credit >= 1 && SafeRun([Created(t)], rs)
    ensures var h := History(Created(t), rs);
            var a, b := Last(h), Perform(h, Cancel(admin, walletOk));
            b != a ==>
            && Flow(a.ledger, RefundCancel) == 0
            && Sum(AmountsPaid(b.payouts)) + Flow(b.ledger, RefundCancel) + b.row.pending * t.credit == t.total * t.credit
  {
    PoolKept(t, rs);
    var h := History(Created(t), rs);
    assert PoolOk(Last(h), t);
    if Perform(h, Cancel(admin, walletOk)) != Last(h) {
      CancellationSettles(h, t, admin, walletOk);
    }
  }

  /** The fee is rounded to the nearest credit, halves up, so it is negative exactly when the rate asks for
      less than minus half a credit. */
  function CalculateFee(totalCost: int, rate: real): (fee: int)
    ensures fee as real - 0.5 <= totalCost as real * rate < fee as real + 0.5
    ensures fee >= 0 <==> totalCost as real * rate >= -0.5
  {
    (totalCost as real * rate + 0.5).Floor
  }

  // ---- a stale update revives a cancelled campaign ----

  /** The states a run passes through, checked one request at a time. */
  predicate Passes(states: seq<Db>, rs: seq<Request>) {
    |states| == |rs| + 1 && forall i :: 0 <= i < |rs| ==> states[i + 1] == Perform(states[..i + 1], rs[i])
  }

  lemma {:induction false} PassesHistory(states: seq<Db>, rs: seq<Request>)
    requires Passes(states, rs)
    ensures History(states[0], rs) == states
  {
    if rs != [] {
      var n := |rs| - 1;
      forall i | 0 <= i < n ensures states[..n + 1][i + 1] == Perform(states[..n + 1][..i + 1], rs[..n][i]) {
        assert states[..n + 1][..i + 1] == states[..i + 1];
      }
      PassesHistory(states[..n + 1], rs[..n]);
      assert states[n + 1] == Perform(states[..n + 1], rs[n]);
    }
  }

  const REVIVED: seq<Request> :=
    [Cancel(false, true), Update(Some(Active), 0), Assign(7), Verify(7, true, 3)]

  const REVIVED_STATES: seq<Db> :=
    var start := CreateCampaign(1, 1, 10, 1, false);
    var paid := [Entry(SpendCreate, true, -11, 1), Entry(RefundCancel, true, 10, 1)];
    [start,
     Db(Row(1, 1, 0, 0, 10, 1, Cancelled, false), paid, map[], []),
     Db(Row(1, 1, 0, 0, 10, 1, Active, false), paid, map[], []),
     Db(Row(1, 1, 0, 1, 10, 1, Active, false), paid, map[7 := Assigned], []),
     Db(Row(1, 1, 1, 0, 10, 1, Completed, false), paid, map[7 := Verified], [Payout(7, 10)])]

  lemma RevivedCancel()
    ensures CancelTx(CreateCampaign(1, 1, 10, 1, false), false) == Some(REVIVED_STATES[1])
  {
    CancelPays(CreateCampaign(1, 1, 10, 1, false), Terms(1, 1, 10, 1, false), false);
    var start := CreateCampaign(1, 1, 10, 1, false);
    assert Unused(start.row) == 10;
    assert start.ledger + [Entry(RefundCancel, true, 10, 1)] == REVIVED_STATES[1].ledger;
  }

  lemma {:induction false} RevivedPasses()
    ensures Passes(REVIVED_STATES, REVIVED)
  {
    RevivedCancel();
    hide CancelTx;
    var s, rs := REVIVED_STATES, REVIVED;
    assert s[..1] == [s[0]] && s[..2] == [s[0], s[1]] && s[..3] == [s[0], s[1], s[2]] && s[..4] == [s[0], s[1], s[2], s[3]];
    assert Perform(s[..1], rs[0]) == s[1];
    assert Perform(s[..2], rs[1]) == s[2];
    assert Perform(s[..3], rs[2]) == s[3];
    assert Perform(s[..4], rs[3]) == s[4];
  }

  /** An `update` that read the status before the cancellation writes it back afterwards: the refunded
      pool is then paid out a second time. */
  lemma StaleUpdateOverdraws()
    ensures var db := Last(History(CreateCampaign(1, 1, 10, 1, false), REVIVED));
            Sum(AmountsPaid(db.payouts)) + Refunded(db.ledger) == 2 * Pool(Terms(1, 1, 10, 1, false))
  {
    RevivedPasses();
    PassesHistory(REVIVED_STATES, REVIVED);
    var db := REVIVED_STATES[4];
    var empty: seq<Entry> := [];
    LedgerPush(empty, db.ledger[0]);
    LedgerPush([db.ledger[0]], db.ledger[1]);
    assert empty + [db.ledger[0]] == [db.ledger[0]] && [db.ledger[0]] + [db.ledger[1]] == db.ledger;
    assert AmountsPaid(db.payouts) == [] + [10];
    SumPush([], 10);
  }
}
