/** When exactly a stale `update` endangers a cancelled campaign's pool: only by writing a status over a
    refunded cancellation, and then always. */
module CampaignRevival {
  import opened Histories
  import opened Wrappers
  import opened Sums
  import opened CampaignFunding
  import opened CampaignModel
  import opened CampaignTheorems

  // ---- every pending slot has a worker ----

  function Unsettled(tasks: map<WorkerId, TaskStatus>): set<WorkerId> {
    set w | w in tasks && tasks[w] in {Assigned, InProgress, Submitted}
  }

  /** Every pending slot has an unsettled worker, and the owner works only on a platform task. */
  predicate Staffed(db: Db) {
    db.row.pending <= |Unsettled(db.tasks)| && (db.row.owner in db.tasks ==> db.row.platform)
  }

  /** How one written status changes the number of unsettled workers. */
  lemma SetTask(tasks: map<WorkerId, TaskStatus>, w: WorkerId, status: TaskStatus)
    ensures var now := Unsettled(tasks[w := status]);
            if status in {Assigned, InProgress, Submitted}
            then |now| == |Unsettled(tasks)| + (if w in Unsettled(tasks) then 0 else 1)
            else |now| == |Unsettled(tasks)| - (if w in Unsettled(tasks) then 1 else 0)
  {
    var was, now := Unsettled(tasks), Unsettled(tasks[w := status]);
    if status in {Assigned, InProgress, Submitted} {
      assert now == was + {w};
      assert w in was ==> now == was;
    } else {
      assert now == was - {w};
      assert w !in was ==> now == was;
    }
  }

  lemma StaffedStep(h: seq<Db>, r: Request)
    requires h != [] && Staffed(Last(h))
    ensures Staffed(Perform(h, r))
  {
    hide Refundable;
    var a := Last(h);
    match r
    case Assign(w) => SetTask(a.tasks, w, Assigned); hide Unsettled;
    case Submit(w, _) => SetTask(a.tasks, w, Submitted); hide Unsettled;
    case Verify(w, auto, readAt) => VerifyStaffed(a, w, if auto then OPEN_TASK else {Submitted}, At(h, readAt).row.credit);
    case Reject(w) => SetTask(a.tasks, w, Rejected);
    case _ => hide Unsettled;
  }

  lemma VerifyStaffed(a: Db, w: WorkerId, from: set<TaskStatus>, credit: int)
    requires Staffed(a) && from <= {Assigned, InProgress, Submitted}
    ensures var v := VerifyTx(a, w, from, credit); v.Some? ==> Staffed(v.value)
  {
    SetTask(a.tasks, w, Verified);
  }

  lemma {:induction false} RunStaffed(t: Terms, rs: seq<Request>)
    ensures Staffed(Last(History(Created(t), rs)))
  {
    if rs != [] {
      var h := History(Created(t), rs[..|rs| - 1]);
      RunStaffed(t, rs[..|rs| - 1]);
      StaffedStep(h, rs[|rs| - 1]);
      assert History(Created(t), rs) == h + [Perform(h, rs[|rs| - 1])];
    }
  }

  // ---- a reviving update always leads to an overdraft ----

  /** A campaign whose remaining slots can still be worked off. */
  predicate Workable(db: Db, t: Terms) {
    && db.row.status == Active && db.row.total == t.total >= 1 && db.row.credit == t.credit >= 1
    && db.row.completed >= 0 && db.row.pending >= 0 && db.row.completed + db.row.pending <= t.total
    && db.row.completed < t.total
    && Staffed(db)
    && Sum(AmountsPaid(db.payouts)) == db.row.completed * t.credit
  }

  lemma {:induction false} SafeRunCons(h: seq<Db>, r: Request, rs: seq<Request>)
    requires h != [] && Safe(h, r) && SafeRun(h + [Perform(h, r)], rs)
    ensures SafeRun(h, [r] + rs)
  {
    hide Safe;
    hide Perform;
    var all := [r] + rs;
    forall i | 0 <= i < |all|
      ensures Safe(Continue(h, all[..i]), all[i])
    {
      if i > 0 {
        ContinueCons(h, r, rs[..i - 1]);
        assert all[..i] == [r] + rs[..i - 1] && all[i] == rs[i - 1];
      } else {
        assert all[..0] == [];
      }
    }
  }

  /** A worker numbered above all of these. */
  lemma {:induction false} FreshWorker(ws: set<WorkerId>) returns (w: WorkerId)
    ensures forall x <- ws :: x < w
  {
    if ws == {} {
      w := 0;
    } else {
      var x :| x in ws;
      var v := FreshWorker(ws - {x});
      w := if x < v then v else x + 1;
      assert forall y <- ws :: y == x || y in ws - {x};
    }
  }

  /** A request touches nothing but slots, tasks and payouts, and moves the campaign one slot on. */
  ghost predicate WorksOff(a: Db, b: Db, t: Terms) {
    && b.ledger == a.ledger
    && Sum(AmountsPaid(b.payouts)) == b.row.completed * t.credit
    && (if a.row.pending > 0 then b.row.completed == a.row.completed + 1
        else b.row.completed == a.row.completed && b.row.pending == 1)
    && b.row.completed <= t.total
    && (b.row.completed < t.total ==> Workable(b, t))
  }

  lemma VerifyPays(a: Db, t: Terms, w: WorkerId, from: set<TaskStatus>)
    requires Workable(a, t) && w in a.tasks && a.tasks[w] in from && a.row.pending > 0
    requires from <= {Assigned, InProgress, Submitted}
    ensures var v := VerifyTx(a, w, from, t.credit); v.Some? && WorksOff(a, v.value, t)
  {
    VerifyStaffed(a, w, from, t.credit);
    hide Staffed;
    hide Sum;
    var b := VerifyTx(a, w, from, t.credit).value;
    assert AmountsPaid(b.payouts) == AmountsPaid(a.payouts) + [t.credit];
    SumPush(AmountsPaid(a.payouts), t.credit);
    OneMore(a.row.completed, t.credit);
  }

  lemma OneMore(n: int, credit: int)
    ensures (n + 1) * credit == n * credit + credit
  {
  }

  lemma VerifyNext(h: seq<Db>, t: Terms, w: WorkerId)
    requires h != [] && Workable(Last(h), t) && w in Unsettled(Last(h).tasks) && Last(h).row.pending > 0
    ensures WorksOff(Last(h), Perform(h, Verify(w, Last(h).tasks[w] in OPEN_TASK, |h|)), t)
  {
    var a := Last(h);
    var from := if a.tasks[w] in OPEN_TASK then OPEN_TASK else {Submitted};
    VerifyPays(a, t, w, from);
    assert a.row.credit == t.credit && At(h, |h|) == a;
    hide WorksOff, Workable, VerifyTx;
  }

  lemma AssignNext(h: seq<Db>, t: Terms, w: WorkerId)
    requires h != [] && Workable(Last(h), t) && Last(h).row.pending == 0
    requires w !in Last(h).tasks && w != Last(h).row.owner
    ensures WorksOff(Last(h), Perform(h, Assign(w)), t)
  {
    StaffedStep(h, Assign(w));
    hide Staffed;
  }

  /** One more slot is worked off: a pending one is verified, or a free one assigned. */
  lemma WorkOff(h: seq<Db>, t: Terms) returns (r: Request)
    requires h != [] && Workable(Last(h), t)
    ensures !r.Fund? && !r.Edit? && !r.Update?
    ensures WorksOff(Last(h), Perform(h, r), t)
  {
    var a := Last(h);
    if a.row.pending > 0 {
      var w :| w in Unsettled(a.tasks);
      r := Verify(w, a.tasks[w] in OPEN_TASK, |h|);
      VerifyNext(h, t, w);
    } else {
      var w := FreshWorker(a.tasks.Keys + {a.row.owner});
      r := Assign(w);
      AssignNext(h, t, w);
    }
  }

  /** The remaining slots can all be completed and paid, whatever was refunded before. */
  lemma {:induction false} WorkOffAll(h: seq<Db>, t: Terms) returns (more: seq<Request>)
    requires h != [] && Workable(Last(h), t)
    ensures SafeRun(h, more)
    ensures var b := Last(Continue(h, more));
            b.ledger == Last(h).ledger && Sum(AmountsPaid(b.payouts)) == t.total * t.credit
    decreases t.total - Last(h).row.completed, if Last(h).row.pending == 0 then 1 else 0
  {
    hide Workable;
    assert WorkableBounds(Last(h), t) by { WorkableMeans(Last(h), t); }
    var r := WorkOff(h, t);
    var b := Perform(h, r);
    var g := h + [b];
    if b.row.completed < t.total {
      var rest := WorkOffAll(g, t);
      more := [r] + rest;
      SafeRunCons(h, r, rest);
      ContinueCons(h, r, rest);
    } else {
      more := [r] + [];
      SafeRunCons(h, r, []);
      ContinueCons(h, r, []);
      assert b.row.completed == t.total;
    }
  }

  predicate WorkableBounds(db: Db, t: Terms) { 0 <= db.row.completed < t.total && db.row.pending >= 0 }

  lemma WorkableMeans(db: Db, t: Terms)
    requires Workable(db, t)
    ensures WorkableBounds(db, t)
  {
  }

  lemma RevivedWorkable(a: Db, t: Terms, b: Db)
    requires PoolOk(a, t) && Staffed(a) && a.row.status == Cancelled && Refunded(a.ledger) > 0
    requires b == a.(row := a.row.(status := Active))
    ensures Workable(b, t)
  {
    PoolLedgerSums(a, t);
    SlotsLeft(a.row.completed + a.row.pending, t.total, t.credit, a.ledger[1].amount);
  }

  lemma SlotsLeft(taken: int, total: int, credit: int, refund: int)
    requires credit >= 1 && refund > 0 && refund + taken * credit <= total * credit
    ensures taken < total
  {
    if taken >= total {
      Monotone(total, taken, credit);
    }
  }

  lemma Monotone(a: int, b: int, c: int)
    requires a <= b && c >= 0
    ensures a * c <= b * c
  {
  }

  /** After a revival some safe continuation pays out the whole pool on top of the refund. */
  lemma RevivalOverdraws(h: seq<Db>, to: Option<Status>, readAt: nat, t: Terms) returns (more: seq<Request>)
    requires h != [] && PoolOk(Last(h), t) && Staffed(Last(h)) && Revives(Last(h), to)
    requires Attempt(h, Update(to, readAt)).Some?
    ensures var g := h + [Perform(h, Update(to, readAt))];
            SafeRun(g, more) && !Within(Last(Continue(g, more)), t)
  {
    var a, b := Last(h), Perform(h, Update(to, readAt));
    var g := h + [b];
    assert to.value in TRANSITION;
    assert b == a.(row := a.row.(status := to.value));
    if to.value == Active {
      RevivedWorkable(a, t, b);
      more := WorkOffAll(g, t);
    } else {
      var wake := Update(Some(Active), |g|);
      var c := Perform(g, wake);
      assert c == a.(row := a.row.(status := Active));
      RevivedWorkable(a, t, c);
      var rest := WorkOffAll(g + [c], t);
      more := [wake] + rest;
      SafeRunCons(g, wake, rest);
      ContinueCons(g, wake, rest);
    }
  }

  /** An `update` that commits after a safe run of a created campaign, stale or not, leaves every further safe
      run within the pool exactly when it does not write a status over a refunded cancellation. */
  lemma {:induction false} UpdateIsSafeIff(t: Terms, rs: seq<Request>, to: Option<Status>, readAt: nat)
    requires t.total >= 1 && t.credit >= 1 && SafeRun([Created(t)], rs)
    requires Attempt(History(Created(t), rs), Update(to, readAt)).Some?
    ensures var h := History(Created(t), rs);
            var g := h + [Perform(h, Update(to, readAt))];
            (forall more: seq<Request> :: SafeRun(g, more) ==> Within(Last(Continue(g, more)), t))
            <==> !Revives(Last(h), to)
  {
    var h := History(Created(t), rs);
    var g := h + [Perform(h, Update(to, readAt))];
    PoolKept(t, rs);
    if Revives(Last(h), to) {
      RunStaffed(t, rs);
      var more := RevivalOverdraws(h, to, readAt, t);
      assert SafeRun(g, more) && !Within(Last(Continue(g, more)), t);
    } else {
      UpdateKeepsPool(h, Update(to, readAt), t);
      forall more: seq<Request> | SafeRun(g, more)
        ensures Within(Last(Continue(g, more)), t)
      {
        ContinuesWithin(g, more, t);
      }
    }
  }

  lemma {:induction false} ContinuesWithin(g: seq<Db>, more: seq<Request>, t: Terms)
    requires g != [] && AllPoolOk(g, t) && SafeRun(g, more)
    ensures Within(Last(Continue(g, more)), t)
  {
    hide PoolOk;
    hide Within;
    PoolContinues(g, more, t);
    PoolBound(Last(Continue(g, more)), t);
  }
}
