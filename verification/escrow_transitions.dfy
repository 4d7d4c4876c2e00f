/** Who may move a challenge, when, and where its credits go: every request of every history, on the row
    as it stands when the request commits, however stale its reads were. */
module EscrowTransitions {
  import opened Histories
  import opened Wrappers
  import opened EscrowModel
  import opened EscrowProofs
  import opened EscrowTheorems

  /** One wallet is credited, with one ledger row to show for it. */
  predicate Pays(a: Db, b: Db, kind: Kind, user: UserId, amount: int, id: ChallengeId) {
    && user < |a.balances| == |b.balances| && amount > 0
    && b.ledger == a.ledger + [Entry(kind, user, amount, id)]
    && b.balances[user] == a.balances[user] + amount
    && forall u :: 0 <= u < |a.balances| && u != user ==> b.balances[u] == a.balances[u]
  }

  /** Challenge `id` ends as `status`; its claim, if `claim` says so, ends as given. No other row moves. */
  predicate Ends(a: Db, b: Db, id: ChallengeId, status: Status, claim: Option<Claim>) {
    && id < |a.challenges|
    && b.challenges == a.challenges[id := a.challenges[id].(status := status)]
    && b.claims == if claim.Some? then a.claims[id := claim.value] else a.claims
  }

  /** The least whole number of credits that covers a charge. */
  predicate Covers(fee: int, charge: real) { charge <= fee as real < charge + 1.0 }

  /** A new offer: within the configured limits, its reserve taken from the creator's wallet. */
  predicate Published(a: Db, b: Db, creator: UserId, reward: int, ttl: int, config: Config, now: int) {
    && config.minReward <= reward <= config.maxReward && ttl <= config.maxTtlHours
    && creator < |a.balances| == |b.balances|
    && |b.challenges| == |a.challenges| + 1 && b.challenges[..|a.challenges|] == a.challenges
    && b.claims == a.claims && b.fees == a.fees
    && var row := b.challenges[|a.challenges|];
       && row == Challenge(creator, reward, row.fee, reward + row.fee, now + ttl * 3600000, Open, None)
       && Covers(row.fee, reward as real * config.feeRate)
       && 0 < reward + row.fee <= a.balances[creator]
       && b.balances[creator] == a.balances[creator] - (reward + row.fee)
       && b.ledger == a.ledger + [Entry(SpendCreate, creator, -(reward + row.fee), |a.challenges|)]
       && forall u :: 0 <= u < |a.balances| && u != creator ==> b.balances[u] == a.balances[u]
  }

  /** An offer is taken before its deadline by somebody else, and the claim runs to the same deadline. */
  predicate Taken(a: Db, b: Db, user: UserId, id: ChallengeId, now: int) {
    && id < |a.challenges| && a.challenges[id].status == Open && id !in a.claims
    && user != a.challenges[id].creator && now < a.challenges[id].expiresAt
    && b == a.(challenges := a.challenges[id := a.challenges[id].(status := Claimed, claimedBy := Some(user))],
               claims := a.claims[id := Claim(user, Assigned, a.challenges[id].expiresAt, 0)])
  }

  predicate Withdrawn(a: Db, b: Db, user: UserId, id: ChallengeId) {
    && id < |a.challenges| && a.challenges[id].status == Open && user == a.challenges[id].creator
    && Ends(a, b, id, Cancelled, None) && b.fees == a.fees
    && Pays(a, b, RefundClose, user, a.challenges[id].reserved, id)
  }

  /** Proof is handed in by the claimant while the claim runs; nothing but the claim's status moves. */
  predicate HandedIn(a: Db, b: Db, user: UserId, id: ChallengeId, readTime: int) {
    && id in a.claims && (a.claims[id].status == Assigned || a.claims[id].status == InProgress)
    && user == a.claims[id].user && readTime <= a.claims[id].expiresAt
    && b == a.(claims := a.claims[id := a.claims[id].(status := Submitted)])
  }

  predicate UnderReview(a: Db, reviewer: Option<UserId>, id: ChallengeId) {
    && id < |a.challenges| && a.challenges[id].status == Claimed && id in a.claims && a.claims[id].status == Submitted
    && (reviewer.None? || reviewer.value == a.challenges[id].creator)
  }

  /** The claimant gets the reward, the platform a positive fee, the creator nothing. */
  predicate Awards(a: Db, b: Db, reviewer: Option<UserId>, id: ChallengeId) {
    && UnderReview(a, reviewer, id)
    && Ends(a, b, id, Completed, Some(a.claims[id].(status := Verified, creditsEarned := a.challenges[id].reward)))
    && Pays(a, b, EarnTask, a.claims[id].user, a.challenges[id].reward, id)
    && b.fees == if a.challenges[id].fee > 0 then a.fees + [Revenue(id, a.challenges[id].fee)] else a.fees
  }

  predicate TurnsDown(a: Db, b: Db, reviewer: Option<UserId>, id: ChallengeId) {
    && UnderReview(a, reviewer, id)
    && Ends(a, b, id, Completed, Some(a.claims[id].(status := Rejected))) && b.fees == a.fees
    && Pays(a, b, RefundClose, a.challenges[id].creator, a.challenges[id].reserved, id)
  }

  predicate OfferLapses(a: Db, b: Db, id: ChallengeId, now: int) {
    && id < |a.challenges| && a.challenges[id].status == Open && a.challenges[id].expiresAt <= now
    && Ends(a, b, id, Expired, None) && b.fees == a.fees
    && Pays(a, b, RefundClose, a.challenges[id].creator, a.challenges[id].reserved, id)
  }

  predicate ClaimLapses(a: Db, b: Db, id: ChallengeId, now: int) {
    && id < |a.challenges| && a.challenges[id].status == Claimed
    && id in a.claims && (a.claims[id].status == Assigned || a.claims[id].status == InProgress)
    && a.claims[id].expiresAt <= now
    && Ends(a, b, id, Expired, Some(a.claims[id].(status := Lapsed))) && b.fees == a.fees
    && Pays(a, b, RefundClose, a.challenges[id].creator, a.challenges[id].reserved, id)
  }

  predicate Moves(a: Db, b: Db, r: Request) {
    match r
    case Create(creator, reward, ttlHours, config, now) =>
      Published(a, b, creator, reward, if ttlHours.Some? then ttlHours.value else config.defaultTtlHours, config, now)
    case ClaimIt(user, id, _, _, now) => Taken(a, b, user, id, now)
    case Cancel(user, id, _) => Withdrawn(a, b, user, id)
    case Submit(user, id, _, readTime) => HandedIn(a, b, user, id, readTime)
    case Review(reviewer, id, _, _, approve) => if approve then Awards(a, b, reviewer, id) else TurnsDown(a, b, reviewer, id)
    case SweepOpen(id, _, _, _, now) => OfferLapses(a, b, id, now)
    case SweepClaimed(id, _, readTime) => ClaimLapses(a, b, id, readTime)
  }

  // ---- one request on a good history ----

  lemma StaleRow(h: seq<Db>, k: nat, id: ChallengeId)
    requires GoodHistory(h) && id < |At(h, k).challenges|
    ensures id < |Last(h).challenges| && RowOk(Last(h), id)
    ensures SameTerms(At(h, k).challenges[id], Last(h).challenges[id])
    ensures At(h, k).challenges[id].expiresAt == Last(h).challenges[id].expiresAt
  {
    StaleTerms(h, k, id);
    assert Evolves(At(h, k), Last(h));
    assert RowEvolves(At(h, k).challenges[id], Last(h).challenges[id]);
  }

  lemma StaleClaim(h: seq<Db>, k: nat, id: ChallengeId)
    requires GoodHistory(h) && id in At(h, k).claims
    ensures id in Last(h).claims && id < |Last(h).challenges| && RowOk(Last(h), id)
    ensures Last(h).claims[id].user == At(h, k).claims[id].user
    ensures Last(h).claims[id].expiresAt == At(h, k).claims[id].expiresAt
  {
    assert Evolves(At(h, k), Last(h));
    assert Inv(Last(h));
  }

  lemma {:induction false} CreateMoves(h: seq<Db>, r: Request)
    requires GoodHistory(h) && r.Create?
    ensures Attempt(h, r).Some? ==> Moves(Last(h), Perform(h, r), r)
  {
    QuoteRounding(r.reward, r.config.feeRate);
  }

  lemma {:induction false} ClaimMoves(h: seq<Db>, r: Request)
    requires GoodHistory(h) && (r.ClaimIt? || r.Cancel?)
    ensures Attempt(h, r).Some? ==> Moves(Last(h), Perform(h, r), r)
  {
    hide Inv, Evolves, EntriesFor, FeesFor;
    if Attempt(h, r).Some? {
      StaleRow(h, r.readAt, r.id);
    }
  }

  lemma {:induction false} SubmitMoves(h: seq<Db>, r: Request)
    requires GoodHistory(h) && r.Submit?
    ensures Attempt(h, r).Some? ==> Moves(Last(h), Perform(h, r), r)
  {
    hide Inv, Evolves, EntriesFor, FeesFor;
    if Attempt(h, r).Some? {
      StaleClaim(h, r.readAt, r.id);
    }
  }

  lemma {:induction false} ReviewMoves(h: seq<Db>, r: Request)
    requires GoodHistory(h) && r.Review?
    ensures Attempt(h, r).Some? ==> Moves(Last(h), Perform(h, r), r)
  {
    hide Inv, Evolves, EntriesFor, FeesFor;
    if Attempt(h, r).Some? {
      StaleRow(h, r.readAt, r.id);
      StaleClaim(h, r.claimReadAt, r.id);
    }
  }

  lemma {:induction false} SweepMoves(h: seq<Db>, r: Request)
    requires GoodHistory(h) && (r.SweepOpen? || r.SweepClaimed?)
    ensures Attempt(h, r).Some? ==> Perform(h, r) == Last(h) || Moves(Last(h), Perform(h, r), r)
  {
    hide Inv, Evolves, EntriesFor, FeesFor;
    if Attempt(h, r).Some? {
      if r.SweepOpen? {
        StaleRow(h, r.rereadAt, r.id);
      } else {
        StaleRow(h, r.readAt, r.id);
        StaleClaim(h, r.readAt, r.id);
      }
    }
  }

  lemma {:induction false} RequestMoves(h: seq<Db>, r: Request)
    requires GoodHistory(h)
    ensures Perform(h, r) == Last(h) || Moves(Last(h), Perform(h, r), r)
  {
    hide Moves, GoodHistory;
    match r {
      case Create(_, _, _, _, _) => CreateMoves(h, r);
      case ClaimIt(_, _, _, _, _) => ClaimMoves(h, r);
      case Cancel(_, _, _) => ClaimMoves(h, r);
      case Submit(_, _, _, _) => SubmitMoves(h, r);
      case Review(_, _, _, _, _) => ReviewMoves(h, r);
      case SweepOpen(_, _, _, _, _) => SweepMoves(h, r);
      case SweepClaimed(_, _, _) => SweepMoves(h, r);
    }
  }

  // ---- the theorems ----

  /** In every history, each request either changes nothing or is exactly one of the lawful moves on the
      row as it stands: reads of any age, from any interleaving, cannot make it anything else. */
  lemma {:induction false} EveryMoveIsLawful(start: Db, rs: seq<Request>, k: nat)
    requires Fresh(start) && k < |rs|
    ensures var h := History(start, rs); h[k + 1] == h[k] || Moves(h[k], h[k + 1], rs[k])
  {
    HistoryIsGood(start, rs[..k]);
    HistoryPrefix(start, rs, k);
    HistoryPrefix(start, rs, k + 1);
    RequestMoves(History(start, rs[..k]), rs[k]);
    assert rs[..k + 1][..k] == rs[..k];
    assert History(start, rs[..k + 1])[k + 1] == Perform(History(start, rs[..k]), rs[k]);
  }

  /** A wallet holds what it started with plus everything the ledger posted to it. */
  lemma {:induction false} WalletsFollowTheLedger(start: Db, rs: seq<Request>, k: nat, user: UserId)
    requires Fresh(start) && k <= |rs| && user < |start.balances|
    ensures var db := History(start, rs)[k];
            user < |db.balances| && db.balances[user] == start.balances[user] + Posted(db.ledger, user)
  {
    if k > 0 {
      WalletsFollowTheLedger(start, rs, k - 1, user);
      EveryMoveIsLawful(start, rs, k - 1);
      hide Moves, Posted, History, OneRow;
      var a, b := History(start, rs)[k - 1], History(start, rs)[k];
      if b != a {
        MoveIsOneRow(a, b, rs[k - 1]);
        RowPosts(a, b, user);
      }
    } else {
      HistoryPrefix(start, rs, 0);
      assert rs[..0] == [];
      assert History(start, rs)[0] == History(start, rs)[..1][0];
    }
  }

  /** The wallets stand still, or one new ledger row moved one of them. */
  predicate OneRow(a: Db, b: Db) {
    && |b.balances| == |a.balances|
    && if b.ledger == a.ledger then b.balances == a.balances
       else
         && |b.ledger| == |a.ledger| + 1 && b.ledger[..|a.ledger|] == a.ledger
         && var e := b.ledger[|a.ledger|];
            forall u :: 0 <= u < |a.balances| ==> b.balances[u] == a.balances[u] + if e.user == u then e.amount else 0
  }

  lemma MoveIsOneRow(a: Db, b: Db, r: Request)
    requires Moves(a, b, r)
    ensures OneRow(a, b)
  {
  }

  lemma RowPosts(a: Db, b: Db, user: UserId)
    requires OneRow(a, b) && user < |a.balances|
    ensures user < |b.balances| && b.balances[user] - a.balances[user] == Posted(b.ledger, user) - Posted(a.ledger, user)
  {
    if b.ledger != a.ledger {
      assert b.ledger == a.ledger + [b.ledger[|a.ledger|]];
      PostedPush(a.ledger, b.ledger[|a.ledger|], user);
    }
  }

  predicate Affordable(balance: int, reward: int, charge: real) {
    exists fee :: Covers(fee, charge) && 0 < reward + fee <= balance
  }

  /** A request whose reads are up to date commits exactly when the row, the clock and the wallets allow it. */
  predicate Allowed(db: Db, r: Request) {
    match r
    case Create(creator, reward, ttlHours, config, _) =>
      && config.minReward <= reward <= config.maxReward
      && (if ttlHours.Some? then ttlHours.value else config.defaultTtlHours) <= config.maxTtlHours
      && creator < |db.balances|
      && Affordable(db.balances[creator], reward, reward as real * config.feeRate)
    case ClaimIt(user, id, _, readTime, now) =>
      && id < |db.challenges| && db.challenges[id].status == Open && db.challenges[id].creator != user
      && readTime < db.challenges[id].expiresAt && now < db.challenges[id].expiresAt
    case Cancel(user, id, _) =>
      id < |db.challenges| && db.challenges[id].status == Open && db.challenges[id].creator == user
    case Submit(user, id, _, readTime) =>
      && id in db.claims && (db.claims[id].status == Assigned || db.claims[id].status == InProgress)
      && db.claims[id].user == user && readTime <= db.claims[id].expiresAt
    case Review(reviewer, id, _, _, approve) =>
      && id < |db.challenges| && id in db.claims && db.claims[id].status == Submitted
      && (reviewer.None? || reviewer.value == db.challenges[id].creator)
      && (approve ==> db.claims[id].user < |db.balances| && db.challenges[id].reward > 0)
    case SweepOpen(id, _, readTime, _, now) =>
      && id < |db.challenges| && db.challenges[id].status == Open
      && db.challenges[id].expiresAt <= readTime && db.challenges[id].expiresAt <= now
    case SweepClaimed(id, _, readTime) =>
      && id in db.claims && (db.claims[id].status == Assigned || db.claims[id].status == InProgress)
      && db.claims[id].expiresAt <= readTime
  }

  /** Every read of the request saw the latest state. */
  predicate UpToDate(h: seq<Db>, r: Request) {
    match r
    case Create(_, _, _, _, _) => true
    case Review(_, _, readAt, claimReadAt, _) => readAt >= |h| - 1 && claimReadAt >= |h| - 1
    case SweepOpen(_, readAt, _, rereadAt, _) => readAt >= |h| - 1 && rereadAt >= |h| - 1
    case _ => r.readAt >= |h| - 1
  }

  lemma CoversOnce(x: int, y: int, charge: real)
    requires Covers(x, charge) && Covers(y, charge)
    ensures x == y
  {
    assert -1.0 < (x - y) as real < 1.0;
  }

  lemma FreshCreate(h: seq<Db>, r: Request)
    requires h != [] && r.Create?
    ensures Allowed(Last(h), r) <==> Perform(h, r) != Last(h)
  {
    var a, fee := Last(h), FeeFor(r.reward, r.config.feeRate);
    QuoteRounding(r.reward, r.config.feeRate);
    var charge := r.reward as real * r.config.feeRate;
    assert Covers(fee, charge);
    if Allowed(a, r) {
      var other :| Covers(other, charge) && 0 < r.reward + other <= a.balances[r.creator];
      CoversOnce(fee, other, charge);
      assert CanDebit(a, r.creator, r.reward + fee);
      assert Attempt(h, r).Some?;
    }
    if Attempt(h, r).Some? {
      assert CanDebit(a, r.creator, r.reward + fee);
      assert Affordable(a.balances[r.creator], r.reward, charge);
      assert Allowed(a, r);
    }
    if Attempt(h, r).Some? {
      assert |Perform(h, r).challenges| == |a.challenges| + 1;
    }
  }

  lemma FreshOffer(h: seq<Db>, r: Request)
    requires GoodHistory(h) && UpToDate(h, r) && (r.ClaimIt? || r.Cancel? || r.SweepOpen?)
    ensures Allowed(Last(h), r) <==> Perform(h, r) != Last(h)
  {
    var a, b := Last(h), Perform(h, r);
    assert Inv(a);
    if r.id < |a.challenges| {
      assert RowOk(a, r.id);
    }
    hide Inv, GoodHistory, EntriesFor, FeesFor;
    if Allowed(a, r) {
      assert b.challenges[r.id].status != a.challenges[r.id].status;
    }
  }

  lemma FreshSubmit(h: seq<Db>, r: Request)
    requires GoodHistory(h) && UpToDate(h, r) && r.Submit?
    ensures Allowed(Last(h), r) <==> Perform(h, r) != Last(h)
  {
    var a, b := Last(h), Perform(h, r);
    assert Inv(a);
    if r.id < |a.challenges| {
      assert RowOk(a, r.id);
    }
    hide Inv, GoodHistory, EntriesFor, FeesFor;
    if Allowed(a, r) {
      assert b.claims[r.id].status != a.claims[r.id].status;
    }
  }

  lemma ApproveNow(a: Db, id: ChallengeId)
    requires Inv(a) && id < |a.challenges| && id in a.claims
    ensures var t := ApproveTx(a, id, a.challenges[id], a.claims[id].user);
            && a.claims[id].user != a.challenges[id].creator
            && (t.Some? <==> a.claims[id].status == Submitted && CanCredit(a, a.claims[id].user, a.challenges[id].reward))
            && (t.Some? ==> id in t.value.claims && t.value.claims[id].status == Verified)
  {
    ApproveCloses(a, id, a.challenges[id], a.claims[id].user);
    assert RowOk(a, id);
    hide Inv, RowOk, EntriesFor, FeesFor, Movements, FeeMovements, ApproveTx;
  }

  lemma {:induction false} FreshApproval(h: seq<Db>, r: Request)
    requires GoodHistory(h) && UpToDate(h, r) && r.Review? && r.approve
    ensures Allowed(Last(h), r) <==> Perform(h, r) != Last(h)
  {
    var a := Last(h);
    if r.id < |a.challenges| && r.id in a.claims {
      assert Inv(a);
      ApproveNow(a, r.id);
    }
    hide Inv, GoodHistory, ApproveTx;
  }

  lemma {:induction false} FreshRejection(h: seq<Db>, r: Request)
    requires GoodHistory(h) && UpToDate(h, r) && r.Review? && !r.approve
    ensures Allowed(Last(h), r) <==> Perform(h, r) != Last(h)
  {
    var a, b := Last(h), Perform(h, r);
    assert Inv(a);
    if r.id < |a.challenges| {
      assert RowOk(a, r.id);
    }
    hide Inv, GoodHistory, EntriesFor, FeesFor, Movements, FeeMovements;
    if Attempt(h, r).Some? {
      assert b.claims[r.id].status == Rejected;
    }
  }

  lemma FreshSweepClaimed(h: seq<Db>, r: Request)
    requires GoodHistory(h) && UpToDate(h, r) && r.SweepClaimed?
    ensures Allowed(Last(h), r) <==> Perform(h, r) != Last(h)
  {
    var a, b := Last(h), Perform(h, r);
    assert Inv(a);
    if r.id < |a.challenges| {
      assert RowOk(a, r.id);
    }
    hide Inv, GoodHistory, EntriesFor, FeesFor;
    if Allowed(a, r) {
      assert b.claims[r.id].status != a.claims[r.id].status;
    }
  }

  /** With reads of the current state a request takes effect exactly when its guards hold. */
  lemma {:induction false} FreshRequestsAreExact(start: Db, rs: seq<Request>, r: Request)
    requires Fresh(start) && UpToDate(History(start, rs), r)
    ensures var h := History(start, rs); Perform(h, r) != Last(h) <==> Allowed(Last(h), r)
  {
    HistoryIsGood(start, rs);
    if r.Create? {
      FreshCreate(History(start, rs), r);
    } else if r.Submit? {
      FreshSubmit(History(start, rs), r);
    } else if r.Review? {
      if r.approve {
        FreshApproval(History(start, rs), r);
      } else {
        FreshRejection(History(start, rs), r);
      }
    } else if r.SweepClaimed? {
      FreshSweepClaimed(History(start, rs), r);
    } else {
      FreshOffer(History(start, rs), r);
    }
  }
}
