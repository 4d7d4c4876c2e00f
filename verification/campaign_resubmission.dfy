/** When exactly an unguarded submission lets a worker be paid twice: by writing over a verified completion
    while the campaign still has a slot to complete. */
module CampaignResubmission {
  import opened Histories
  import opened Wrappers
  import opened CampaignFunding
  import opened CampaignModel
  import opened CampaignTheorems
  import opened CampaignRevival

  predicate Done(db: Db, w: WorkerId) { w in db.tasks && db.tasks[w] == Verified }

  ghost predicate PaidOnce(db: Db) {
    forall w: WorkerId :: TimesPaid(db.payouts, w) == if Done(db, w) then 1 else 0
  }

  /** As a submission, stale or not, the request does not write over a verified completion. */
  predicate Harmless(h: seq<Db>, r: Request)
    requires h != []
  {
    r.Submit? && Attempt(h, r).Some? ==> !Done(Last(h), r.worker)
  }

  ghost predicate HarmlessRun(h: seq<Db>, rs: seq<Request>)
    requires h != []
  {
    forall i :: 0 <= i < |rs| ==> Harmless(Continue(h, rs[..i]), rs[i])
  }

  lemma {:induction false} HarmlessRunLast(h: seq<Db>, rs: seq<Request>)
    requires h != [] && rs != [] && HarmlessRun(h, rs)
    ensures HarmlessRun(h, rs[..|rs| - 1]) && Harmless(Continue(h, rs[..|rs| - 1]), rs[|rs| - 1])
  {
    var n := |rs| - 1;
    forall i | 0 <= i < n
      ensures Harmless(Continue(h, rs[..n][..i]), rs[..n][i])
    {
      assert rs[..n][..i] == rs[..i];
    }
  }

  // ---- harmless submissions: paid once or never ----

  /** A request pays nobody and verifies nobody, or pays the one worker it verifies. */
  lemma PayoutEffect(h: seq<Db>, r: Request)
    requires h != [] && Harmless(h, r)
    ensures var a, b := Last(h), Perform(h, r);
            || (b.payouts == a.payouts && forall w: WorkerId :: Done(b, w) == Done(a, w))
            || (&& r.Verify? && !Done(a, r.worker) && |b.payouts| == |a.payouts| + 1
                && b.payouts[..|a.payouts|] == a.payouts && b.payouts[|a.payouts|].worker == r.worker
                && forall w: WorkerId :: Done(b, w) == (Done(a, w) || w == r.worker))
  {
    hide Refundable;
  }

  lemma PaidOnceStep(h: seq<Db>, r: Request)
    requires h != [] && PaidOnce(Last(h)) && Harmless(h, r)
    ensures PaidOnce(Perform(h, r))
  {
    var a, b := Last(h), Perform(h, r);
    PayoutEffect(h, r);
    hide Perform;
    hide Done;
    forall w: WorkerId ensures TimesPaid(b.payouts, w) == if Done(b, w) then 1 else 0 {
      assert TimesPaid(a.payouts, w) == if Done(a, w) then 1 else 0;
    }
  }

  lemma {:induction false} PaidOnceContinues(h: seq<Db>, rs: seq<Request>)
    requires h != [] && PaidOnce(Last(h)) && HarmlessRun(h, rs)
    ensures PaidOnce(Last(Continue(h, rs)))
  {
    hide PaidOnce;
    hide Harmless;
    hide HarmlessRun;
    if rs != [] {
      HarmlessRunLast(h, rs);
      PaidOnceContinues(h, rs[..|rs| - 1]);
      PaidOnceStep(Continue(h, rs[..|rs| - 1]), rs[|rs| - 1]);
    }
  }

  /** Every worker is paid exactly as often as their completion is verified, once or never, in every run in
      which no submission writes over a verified completion. */
  lemma PaidAtMostOnce(start: Db, rs: seq<Request>)
    requires start.payouts == [] && (forall w :: w in start.tasks ==> start.tasks[w] != Verified)
    requires HarmlessRun([start], rs)
    ensures PaidOnce(Last(History(start, rs)))
  {
    PaidOnceContinues([start], rs);
  }

  // ---- what every run without edits keeps ----

  predicate Unedited(rs: seq<Request>) { forall i :: 0 <= i < |rs| ==> !rs[i].Edit? }

  predicate Counted(db: Db, t: Terms) {
    && t.total >= 1 && db.row.total == t.total && db.row.credit == t.credit && db.row.owner == t.owner
    && ValidCounters(db.row) && db.row.status != PendingReview
  }

  ghost predicate AllCounted(h: seq<Db>, t: Terms) { forall k :: 0 <= k < |h| ==> Counted(h[k], t) }

  lemma CountedStep(h: seq<Db>, r: Request, t: Terms)
    requires h != [] && AllCounted(h, t) && !r.Edit?
    ensures Counted(Perform(h, r), t)
  {
    hide Refundable;
    assert Counted(Last(h), t);
    if r.ReviewCampaign? {
      assert Counted(At(h, r.readAt), t);
    }
  }

  lemma {:induction false} CountedContinues(h: seq<Db>, rs: seq<Request>, t: Terms)
    requires h != [] && AllCounted(h, t) && Unedited(rs)
    ensures AllCounted(Continue(h, rs), t)
  {
    hide Counted;
    if rs != [] {
      CountedContinues(h, rs[..|rs| - 1], t);
      CountedStep(Continue(h, rs[..|rs| - 1]), rs[|rs| - 1], t);
    }
  }

  lemma CreatedCounted(t: Terms, rs: seq<Request>)
    requires t.total >= 1 && t.credit >= 1 && Unedited(rs)
    ensures AllCounted(History(Created(t), rs), t)
  {
    assert AllCounted([Created(t)], t);
    CountedContinues([Created(t)], rs, t);
  }

  // ---- no slot left: nobody is paid any more ----

  predicate Full(db: Db) { db.row.completed == db.row.total }

  lemma FullStep(h: seq<Db>, r: Request, t: Terms)
    requires h != [] && AllCounted(h, t) && !r.Edit? && Full(Last(h))
    ensures Full(Perform(h, r)) && Perform(h, r).payouts == Last(h).payouts
  {
    hide Refundable;
    assert Counted(Last(h), t);
  }

  lemma {:induction false} FullContinues(h: seq<Db>, rs: seq<Request>, t: Terms)
    requires h != [] && AllCounted(h, t) && Unedited(rs) && Full(Last(h))
    ensures Full(Last(Continue(h, rs))) && Last(Continue(h, rs)).payouts == Last(h).payouts
  {
    hide Counted;
    hide Full;
    if rs != [] {
      FullContinues(h, rs[..|rs| - 1], t);
      CountedContinues(h, rs[..|rs| - 1], t);
      FullStep(Continue(h, rs[..|rs| - 1]), rs[|rs| - 1], t);
    }
  }

  /** Every `update` writes against the status it read, `n` states in. */
  predicate AtomicUpdates(n: nat, rs: seq<Request>) {
    forall i :: 0 <= i < |rs| ==> rs[i].Update? ==> rs[i].readAt + 1 >= n + i
  }

  /** No slot is taken and none can be taken again with atomic updates. */
  predicate Shut(db: Db) { db.row.pending == 0 && (Full(db) || db.row.status !in MODIFIABLE) }

  lemma ShutStep(h: seq<Db>, r: Request, t: Terms)
    requires h != [] && AllCounted(h, t) && !r.Edit? && (r.Update? ==> r.readAt + 1 >= |h|) && Shut(Last(h))
    ensures Shut(Perform(h, r)) && Perform(h, r).payouts == Last(h).payouts
  {
    hide Refundable;
    assert Counted(Last(h), t);
    if r.ReviewCampaign? {
      assert Counted(At(h, r.readAt), t);
    }
  }

  lemma {:induction false} ShutContinues(h: seq<Db>, rs: seq<Request>, t: Terms)
    requires h != [] && AllCounted(h, t) && Unedited(rs) && AtomicUpdates(|h|, rs) && Shut(Last(h))
    ensures Shut(Last(Continue(h, rs))) && Last(Continue(h, rs)).payouts == Last(h).payouts
  {
    hide Counted;
    hide Shut;
    if rs != [] {
      var n := |rs| - 1;
      assert rs[n].Update? ==> rs[n].readAt + 1 >= |h| + n;
      ShutContinues(h, rs[..n], t);
      CountedContinues(h, rs[..n], t);
      ShutStep(Continue(h, rs[..n]), rs[n], t);
    }
  }

  // ---- a slot left: the overwritten worker can be paid again ----

  /** The state after a submission wrote over a verified completion. */
  predicate Overwritten(db: Db, w: WorkerId, t: Terms) {
    && Counted(db, t) && w in db.tasks && db.tasks[w] == Submitted && TimesPaid(db.payouts, w) == 1
  }

  lemma {:induction false} NoSubmits(h: seq<Db>, rs: seq<Request>)
    requires h != [] && forall i :: 0 <= i < |rs| ==> !rs[i].Submit?
    ensures HarmlessRun(h, rs)
  {
  }

  lemma VerifyAgain(h: seq<Db>, w: WorkerId, t: Terms)
    requires h != [] && Overwritten(Last(h), w, t) && Last(h).row.pending > 0
    ensures TimesPaid(Perform(h, Verify(w, false, |h|)).payouts, w) == 2
  {
    var a, b := Last(h), Perform(h, Verify(w, false, |h|));
    assert At(h, |h|) == a;
    assert b.payouts == a.payouts + [Payout(w, t.credit)];
    assert b.payouts[..|a.payouts|] == a.payouts;
  }

  /** Make the campaign active and assign a slot to somebody else. */
  lemma OpenSlot(h: seq<Db>, w: WorkerId, readAt: nat, t: Terms) returns (v: WorkerId)
    requires h != [] && Overwritten(Last(h), w, t) && Last(h).row.pending == 0 && !Full(Last(h))
    requires At(h, readAt).row.status in MODIFIABLE
    ensures var g := h + [Perform(h, Update(Some(Active), readAt))];
            Overwritten(Perform(g, Assign(v)), w, t) && Perform(g, Assign(v)).row.pending > 0
  {
    var a := Last(h);
    v := FreshWorker(a.tasks.Keys + {a.row.owner});
  }

  /** Some continuation without edits and further submissions pays the worker a second time. */
  lemma PaidAgain(h: seq<Db>, w: WorkerId, readAt: nat, t: Terms) returns (more: seq<Request>)
    requires h != [] && Overwritten(Last(h), w, t) && !Full(Last(h))
    requires Last(h).row.pending > 0 || At(h, readAt).row.status in MODIFIABLE
    ensures Unedited(more) && HarmlessRun(h, more)
    ensures readAt + 1 >= |h| || Last(h).row.pending > 0 ==> AtomicUpdates(|h|, more)
    ensures TimesPaid(Last(Continue(h, more)).payouts, w) == 2
  {
    if Last(h).row.pending > 0 {
      var verify := Verify(w, false, |h|);
      VerifyAgain(h, w, t);
      more := [verify];
      ContinueCons(h, verify, []);
      assert more == [verify] + [];
    } else {
      var v := OpenSlot(h, w, readAt, t);
      var wake, assign := Update(Some(Active), readAt), Assign(v);
      var g := h + [Perform(h, wake)];
      var k := g + [Perform(g, assign)];
      var verify := Verify(w, false, |k|);
      VerifyAgain(k, w, t);
      more := [wake, assign, verify];
      ContinueCons(k, verify, []);
      ContinueCons(g, assign, [verify]);
      ContinueCons(h, wake, [assign, verify]);
      assert [verify] + [] == [verify] && [assign] + [verify] == [assign, verify] && more == [wake] + [assign, verify];
    }
    NoSubmits(h, more);
  }

  // ---- the exact condition ----

  lemma OnceAtMost(db: Db, x: WorkerId)
    requires PaidOnce(db)
    ensures TimesPaid(db.payouts, x) <= 1
  {
  }

  /** What is known right before and right after the submission. */
  lemma {:induction false} SubmitEffect(t: Terms, rs: seq<Request>, w: WorkerId, readAt: nat)
    requires t.total >= 1 && t.credit >= 1 && Unedited(rs) && HarmlessRun([Created(t)], rs)
    requires Attempt(History(Created(t), rs), Submit(w, readAt)).Some?
    ensures var h := History(Created(t), rs);
            var b := Perform(h, Submit(w, readAt));
            && PaidOnce(Last(h)) && AllCounted(h + [b], t)
            && b.payouts == Last(h).payouts && b.row == Last(h).row
            && (if Done(Last(h), w) then Overwritten(b, w, t) else PaidOnce(b))
  {
    var h := History(Created(t), rs);
    PaidAtMostOnce(Created(t), rs);
    CreatedCounted(t, rs);
    CountedStep(h, Submit(w, readAt), t);
    assert Counted(Last(h), t);
    if Done(Last(h), w) {
      assert TimesPaid(Last(h).payouts, w) == 1;
    } else {
      PaidOnceStep(h, Submit(w, readAt));
    }
  }

  /** A submission that commits, stale or not, leaves every worker paid at most once in every further run
      without edits and without another harmful submission, exactly when it does not write over a verified
      completion while a slot is left to complete. Stale updates are allowed throughout. */
  lemma SubmitIsSafeIff(t: Terms, rs: seq<Request>, w: WorkerId, readAt: nat)
    requires t.total >= 1 && t.credit >= 1 && Unedited(rs) && HarmlessRun([Created(t)], rs)
    requires Attempt(History(Created(t), rs), Submit(w, readAt)).Some?
    ensures var h := History(Created(t), rs);
            var g := h + [Perform(h, Submit(w, readAt))];
            (forall more: seq<Request>, x: WorkerId ::
               Unedited(more) && HarmlessRun(g, more) ==> TimesPaid(Last(Continue(g, more)).payouts, x) <= 1)
            <==> !(Done(Last(h), w) && Last(h).row.completed < Last(h).row.total)
  {
    var h := History(Created(t), rs);
    var a, b := Last(h), Perform(h, Submit(w, readAt));
    var g := h + [b];
    SubmitEffect(t, rs, w, readAt);
    assert Counted(g[|h| - 1], t);
    if Done(a, w) && a.row.completed < a.row.total {
      HistoryStart(Created(t), rs);
      assert At(g, 0) == Created(t);
      var more := PaidAgain(g, w, 0, t);
      assert TimesPaid(Last(Continue(g, more)).payouts, w) > 1;
    } else {
      forall more: seq<Request>, x: WorkerId | Unedited(more) && HarmlessRun(g, more)
        ensures TimesPaid(Last(Continue(g, more)).payouts, x) <= 1
      {
        if Done(a, w) {
          FullContinues(g, more, t);
          OnceAtMost(a, x);
        } else {
          PaidOnceContinues(g, more);
          OnceAtMost(Last(Continue(g, more)), x);
        }
      }
    }
  }

  /** The same with atomic updates from then on: the slot must be pending already, or assignable. */
  lemma SubmitIsSafeIffUpdatesAtomic(t: Terms, rs: seq<Request>, w: WorkerId, readAt: nat)
    requires t.total >= 1 && t.credit >= 1 && Unedited(rs) && HarmlessRun([Created(t)], rs)
    requires Attempt(History(Created(t), rs), Submit(w, readAt)).Some?
    ensures var h := History(Created(t), rs);
            var g := h + [Perform(h, Submit(w, readAt))];
            var row := Last(h).row;
            (forall more: seq<Request>, x: WorkerId ::
               Unedited(more) && HarmlessRun(g, more) && AtomicUpdates(|g|, more)
               ==> TimesPaid(Last(Continue(g, more)).payouts, x) <= 1)
            <==> !(Done(Last(h), w) && (row.pending > 0 || (row.status in {Active, Paused, Draft} && row.completed < row.total)))
  {
    var h := History(Created(t), rs);
    var a, b := Last(h), Perform(h, Submit(w, readAt));
    var g := h + [b];
    SubmitEffect(t, rs, w, readAt);
    assert Counted(g[|h| - 1], t);
    if Done(a, w) && (a.row.pending > 0 || (a.row.status in MODIFIABLE && a.row.completed < a.row.total)) {
      var more := PaidAgain(g, w, |g|, t);
      assert TimesPaid(Last(Continue(g, more)).payouts, w) > 1;
    } else {
      forall more: seq<Request>, x: WorkerId | Unedited(more) && HarmlessRun(g, more) && AtomicUpdates(|g|, more)
        ensures TimesPaid(Last(Continue(g, more)).payouts, x) <= 1
      {
        if Done(a, w) {
          ShutContinues(g, more, t);
          OnceAtMost(a, x);
        } else {
          PaidOnceContinues(g, more);
          OnceAtMost(Last(Continue(g, more)), x);
        }
      }
    }
  }

  // ---- a stale submission, step by step ----

  const RESUBMITTED: seq<Request> :=
    [Assign(7), Assign(8), Verify(7, true, 2), Submit(7, 2), Verify(7, false, 4)]

  const RESUBMITTED_STATES: seq<Db> :=
    var start := CreateCampaign(1, 2, 10, 2, false);
    var row := start.row;
    [start,
     Db(row.(pending := 1), start.ledger, map[7 := Assigned], []),
     Db(row.(pending := 2), start.ledger, map[7 := Assigned, 8 := Assigned], []),
     Db(row.(completed := 1, pending := 1), start.ledger, map[7 := Verified, 8 := Assigned], [Payout(7, 10)]),
     Db(row.(completed := 1, pending := 1), start.ledger, map[7 := Submitted, 8 := Assigned], [Payout(7, 10)]),
     Db(row.(completed := 2, pending := 0, status := Completed), start.ledger, map[7 := Verified, 8 := Assigned],
        [Payout(7, 10), Payout(7, 10)])]

  lemma {:induction false} ResubmittedPasses()
    ensures Passes(RESUBMITTED_STATES, RESUBMITTED)
  {
    var s, rs := RESUBMITTED_STATES, RESUBMITTED;
    ResubmittedStart();
    hide CancelTx;
    hide AssignTx;
    assert s[..4] == [s[0], s[1], s[2], s[3]] && s[..5] == [s[0], s[1], s[2], s[3], s[4]];
    assert Perform(s[..4], rs[3]) == s[4];
    assert Perform(s[..5], rs[4]) == s[5];
  }

  lemma ResubmittedStart()
    ensures forall i :: 0 <= i < 3 ==> RESUBMITTED_STATES[i + 1] == Perform(RESUBMITTED_STATES[..i + 1], RESUBMITTED[i])
  {
    var s, rs := RESUBMITTED_STATES, RESUBMITTED;
    hide CancelTx;
    assert s[..1] == [s[0]] && s[..2] == [s[0], s[1]] && s[..3] == [s[0], s[1], s[2]];
    assert Perform(s[..1], rs[0]) == s[1];
    assert Perform(s[..2], rs[1]) == s[2];
    assert Perform(s[..3], rs[2]) == s[3];
  }

  /** The manual path writes SUBMITTED over a completion that was verified meanwhile, and the same worker is
      paid from another worker's slot; the pool bound above still holds. */
  lemma StaleSubmitPaysTwice()
    ensures TimesPaid(Last(History(CreateCampaign(1, 2, 10, 2, false), RESUBMITTED)).payouts, 7) == 2
  {
    ResubmittedPasses();
    PassesHistory(RESUBMITTED_STATES, RESUBMITTED);
    var payouts := RESUBMITTED_STATES[5].payouts;
    assert payouts[..1] == [Payout(7, 10)] && payouts[..1][..0] == [];
  }
}
