/** What each campaign request does, when its reads are up to date and when they are not, on the row as it
    stands when the request commits. */
module CampaignTransitions {
  import opened Histories
  import opened Wrappers
  import opened Sums
  import opened CampaignFunding
  import opened CampaignModel
  import opened CampaignTheorems

  /** The row moves from one status to another and nothing else changes. */
  predicate Restatus(a: Db, b: Db, status: Status) {
    b == a.(row := a.row.(status := status))
  }

  /** A free slot of an active campaign goes to a worker who never had one. */
  predicate Assigns(a: Db, b: Db, w: WorkerId) {
    && a.row.status == Active && a.row.completed + a.row.pending < a.row.total
    && w !in a.tasks && (w == a.row.owner ==> a.row.platform)
    && b == a.(row := a.row.(pending := a.row.pending + 1), tasks := a.tasks[w := Assigned])
  }

  /** The worker's completion leaves one of `from`, its slot moves from pending to completed, the worker is
      paid the price of one task, and the last slot completes a running campaign. */
  predicate Settles(a: Db, b: Db, w: WorkerId, auto: bool, t: Terms) {
    && w in a.tasks
    && (if auto then (a.tasks[w] == Assigned || a.tasks[w] == InProgress) && (w == a.row.owner ==> a.row.platform)
        else a.tasks[w] == Submitted)
    && a.row.pending > 0
    && b.tasks == a.tasks[w := Verified]
    && b.payouts == a.payouts + [Payout(w, t.credit)] && b.ledger == a.ledger
    && b.row.pending == a.row.pending - 1 && b.row.completed == a.row.completed + 1
    && b.row == a.row.(pending := b.row.pending, completed := b.row.completed, status := b.row.status)
    && b.row.status == (if b.row.completed == t.total && (a.row.status == Active || a.row.status == Paused)
                        then Completed else a.row.status)
  }

  predicate Releases(a: Db, b: Db, w: WorkerId) {
    && w in a.tasks && a.tasks[w] == Submitted && a.row.pending > 0
    && b == a.(row := a.row.(pending := a.row.pending - 1), tasks := a.tasks[w := Rejected])
  }

  predicate Closes(a: Db, b: Db, t: Terms, admin: bool, walletOk: bool) {
    && (a.row.status == Active || a.row.status == Paused || a.row.status == Draft)
    && (admin || a.tasks == map[]) && t.fee >= 0
    && JudgedFairly(a, b, t, walletOk)
  }

  /** The change a request makes, if it makes one. `Submit` and `Update` write whatever the row has become. */
  predicate Moves(a: Db, b: Db, r: Request, t: Terms) {
    match r
    case Update(to, _) => to.Some? && (to.value == Active || to.value == Paused) && Restatus(a, b, to.value)
    case Cancel(admin, walletOk) => Closes(a, b, t, admin, walletOk)
    case CancelPlatform(_) => Restatus(a, b, Cancelled)
    case PausePlatform => a.row.status == Active && Restatus(a, b, Paused)
    case Assign(w) => Assigns(a, b, w)
    case Submit(w, _) => w in a.tasks && w != a.row.owner && b == a.(tasks := a.tasks[w := Submitted])
    case Verify(w, auto, _) => Settles(a, b, w, auto, t)
    case Reject(w) => Releases(a, b, w)
    case _ => false
  }

  lemma CancelMoves(h: seq<Db>, r: Request, t: Terms)
    requires h != [] && PoolOk(Last(h), t) && r.Cancel?
    ensures Perform(h, r) == Last(h) || Moves(Last(h), Perform(h, r), r, t)
  {
    var a := Last(h);
    if a.row.status in CANCELLABLE && (r.admin || a.tasks == map[]) {
      CancelJudged(h, t, r.admin, r.walletOk);
    }
    hide Refundable, Sum;
  }

  lemma VerifyMoves(h: seq<Db>, r: Request, t: Terms)
    requires h != [] && AllPoolOk(h, t) && r.Verify?
    ensures Perform(h, r) == Last(h) || Moves(Last(h), Perform(h, r), r, t)
  {
    assert PoolOk(Last(h), t) && PoolOk(At(h, r.readAt), t);
    hide Sum, PoolLedger, AllPoolOk;
  }

  lemma OtherMoves(h: seq<Db>, r: Request, t: Terms)
    requires h != [] && AllPoolOk(h, t) && Safe(h, r) && !r.Cancel? && !r.Verify?
    ensures Perform(h, r) == Last(h) || Moves(Last(h), Perform(h, r), r, t)
  {
    assert PoolOk(Last(h), t);
    if r.ReviewCampaign? {
      assert PoolOk(At(h, r.readAt), t);
    }
    hide Sum, PoolLedger, AllPoolOk;
    if r.Update? && r.to.None? {
      assert Perform(h, r) == Last(h);
    }
  }

  lemma {:induction false} RequestMoves(h: seq<Db>, r: Request, t: Terms)
    requires h != [] && AllPoolOk(h, t) && Safe(h, r)
    ensures Perform(h, r) == Last(h) || Moves(Last(h), Perform(h, r), r, t)
  {
    hide Moves, Safe, PoolOk;
    if r.Cancel? {
      assert PoolOk(Last(h), t);
      CancelMoves(h, r, t);
    } else if r.Verify? {
      VerifyMoves(h, r, t);
    } else {
      OtherMoves(h, r, t);
    }
  }

  /** After every safe run of a created campaign a request changes nothing or makes exactly the lawful move,
      paid at the terms of the creation, whatever its reads had seen. */
  lemma EveryMoveIsLawful(t: Terms, rs: seq<Request>, r: Request)
    requires t.total >= 1 && t.credit >= 1 && SafeRun([Created(t)], rs) && Safe(History(Created(t), rs), r)
    ensures var h := History(Created(t), rs);
            Perform(h, r) == Last(h) || Moves(Last(h), Perform(h, r), r, t)
  {
    PoolKept(t, rs);
    RequestMoves(History(Created(t), rs), r, t);
  }

  /** What a request with up-to-date reads asks of the row. */
  predicate Allowed(a: Db, r: Request, t: Terms) {
    match r
    case Update(to, _) =>
      && (a.row.status == Active || a.row.status == Paused || a.row.status == Draft)
      && to.Some? && (to.value == Active || to.value == Paused) && to.value != a.row.status
    case Cancel(admin, walletOk) =>
      && (a.row.status == Active || a.row.status == Paused || a.row.status == Draft)
      && (admin || a.tasks == map[]) && t.fee >= 0
      && (a.row.completed + a.row.pending < t.total ==> walletOk)
    case CancelPlatform(_) => a.row.status == Active || a.row.status == Paused
    case PausePlatform => a.row.status == Active
    case Assign(w) =>
      && a.row.status == Active && a.row.completed + a.row.pending < t.total
      && w !in a.tasks && (w == t.owner ==> a.row.platform)
    case Submit(w, _) => w != t.owner && w in a.tasks && (a.tasks[w] == Assigned || a.tasks[w] == InProgress)
    case Verify(w, auto, _) =>
      && w in a.tasks && a.row.pending > 0
      && (if auto then (a.tasks[w] == Assigned || a.tasks[w] == InProgress) && (w == t.owner ==> a.row.platform)
          else a.tasks[w] == Submitted)
    case Reject(w) => w in a.tasks && a.tasks[w] == Submitted && a.row.pending > 0
    case _ => false
  }

  predicate UpToDate(h: seq<Db>, r: Request) {
    match r
    case Update(_, readAt) => readAt >= |h| - 1
    case CancelPlatform(readAt) => readAt >= |h| - 1
    case Submit(_, readAt) => readAt >= |h| - 1
    case Verify(_, _, readAt) => readAt >= |h| - 1
    case _ => true
  }

  lemma FreshCancel(h: seq<Db>, r: Request, t: Terms)
    requires h != [] && PoolOk(Last(h), t) && r.Cancel?
    ensures Perform(h, r) != Last(h) <==> Allowed(Last(h), r, t)
  {
    var a := Last(h);
    Distribute(t.total, a.row.completed + a.row.pending, t.credit);
    SomeLeft(t.total - a.row.completed - a.row.pending, t.credit);
    if a.row.status in CANCELLABLE && (r.admin || a.tasks == map[]) {
      CancelJudged(h, t, r.admin, r.walletOk);
    }
    hide Refundable, Sum;
  }

  lemma SomeLeft(slots: int, credit: int)
    requires slots >= 0 && credit >= 1
    ensures slots * credit > 0 <==> slots > 0
  {
  }

  lemma FreshTask(h: seq<Db>, r: Request, t: Terms)
    requires h != [] && PoolOk(Last(h), t) && UpToDate(h, r) && (r.Assign? || r.Submit? || r.Verify? || r.Reject?)
    ensures Perform(h, r) != Last(h) <==> Allowed(Last(h), r, t)
  {
    hide Sum, PoolLedger;
    var a, b := Last(h), Perform(h, r);
    if Attempt(h, r).Some? {
      assert r.worker in b.tasks && (r.worker in a.tasks ==> b.tasks[r.worker] != a.tasks[r.worker]);
    }
  }

  lemma FreshStatus(h: seq<Db>, r: Request, t: Terms)
    requires h != [] && AllPoolOk(h, t) && UpToDate(h, r) && Safe(h, r)
    requires r.Update? || r.CancelPlatform? || r.PausePlatform? || r.ReviewCampaign?
    ensures Perform(h, r) != Last(h) <==> Allowed(Last(h), r, t)
  {
    var a, b := Last(h), Perform(h, r);
    assert PoolOk(a, t);
    if r.ReviewCampaign? {
      assert PoolOk(At(h, r.readAt), t);
    }
    hide Sum, PoolLedger, AllPoolOk;
    assert b != a ==> b.row.status != a.row.status;
  }

  /** With reads of the current state a request takes effect exactly when its guards hold. */
  lemma {:induction false} FreshRequestsAreExact(t: Terms, rs: seq<Request>, r: Request)
    requires t.total >= 1 && t.credit >= 1 && SafeRun([Created(t)], rs)
    requires UpToDate(History(Created(t), rs), r) && Safe(History(Created(t), rs), r)
    ensures var h := History(Created(t), rs); Perform(h, r) != Last(h) <==> Allowed(Last(h), r, t)
  {
    PoolKept(t, rs);
    var h := History(Created(t), rs);
    assert PoolOk(Last(h), t);
    hide PoolOk, AllPoolOk, Allowed;
    match r {
      case Cancel(_, _) => FreshCancel(h, r, t);
      case Assign(_) => FreshTask(h, r, t);
      case Submit(_, _) => FreshTask(h, r, t);
      case Verify(_, _, _) => FreshTask(h, r, t);
      case Reject(_) => FreshTask(h, r, t);
      case _ => FreshStatus(h, r, t);
    }
  }
}
