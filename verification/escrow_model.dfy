/** The tables and transactions of 1v1 challenges: a reserve is debited when a challenge is
    published and leaves escrow exactly once, to the claimant and the platform or back to the creator. */
module EscrowModel {
  import opened Histories
  import opened Sums
  import opened Wrappers

  type UserId = nat
  /** Challenge rows are numbered in creation order; a claim row carries its challenge's number (`challengeId @unique`). */
  type ChallengeId = nat

  datatype Status = Open | Claimed | Completed | Expired | Cancelled

  datatype ClaimStatus = Assigned | InProgress | Submitted | Verified | Rejected | Lapsed

  datatype Challenge = Challenge(
    creator: UserId, reward: int, fee: int, reserved: int, expiresAt: int,
    status: Status, claimedBy: Option<UserId>)

  datatype Claim = Claim(user: UserId, status: ClaimStatus, expiresAt: int, creditsEarned: int)

  datatype Kind = SpendCreate | EarnTask | RefundClose

  /** A wallet ledger row; debits are negative. */
  datatype Entry = Entry(kind: Kind, user: UserId, amount: int, ref: ChallengeId)

  datatype Revenue = Revenue(ref: ChallengeId, amount: int)

  /** `balances` holds one wallet per user id below its length; other users have no wallet. */
  datatype Db = Db(
    challenges: seq<Challenge>, claims: map<ChallengeId, Claim>,
    balances: seq<int>, ledger: seq<Entry>, fees: seq<Revenue>)

  datatype Config = Config(feeRate: real, minReward: int, maxReward: int, defaultTtlHours: int, maxTtlHours: int)

  const HOUR_MS := 60 * 60 * 1000

  // ---- fee quote ----

  function Ceil(x: real): int { -((-x).Floor) }

  function FeeFor(reward: int, rate: real): int { Ceil(reward as real * rate) }

  // ---- wallet ----

  /** Credits and debits of a non-positive amount, on a missing wallet, or past the balance abort the transaction. */
  predicate CanCredit(db: Db, user: UserId, amount: int) {
    user < |db.balances| && amount > 0
  }

  predicate CanDebit(db: Db, user: UserId, amount: int) {
    user < |db.balances| && amount > 0 && db.balances[user] >= amount
  }

  function Post(db: Db, e: Entry): Db
    requires e.user < |db.balances|
  {
    db.(balances := db.balances[e.user := db.balances[e.user] + e.amount], ledger := db.ledger + [e])
  }

  // ---- transactions; None means the transaction aborted and wrote nothing ----

  predicate HasStatus(db: Db, id: ChallengeId, status: Status) {
    id < |db.challenges| && db.challenges[id].status == status
  }

  predicate ClaimIn(db: Db, id: ChallengeId, statuses: set<ClaimStatus>) {
    id in db.claims && db.claims[id].status in statuses
  }

  const SUBMITTABLE: set<ClaimStatus> := {Assigned, InProgress}

  function SetStatus(db: Db, id: ChallengeId, status: Status): Db
    requires id < |db.challenges|
  {
    db.(challenges := db.challenges[id := db.challenges[id].(status := status)])
  }

  function SetClaim(db: Db, id: ChallengeId, status: ClaimStatus, earned: int): Db
    requires id in db.claims
  {
    db.(claims := db.claims[id := db.claims[id].(status := status, creditsEarned := earned)])
  }

  function CreateTx(db: Db, creator: UserId, reward: int, fee: int, expiresAt: int): Option<Db> {
    if CanDebit(db, creator, reward + fee) then
      var row := Challenge(creator, reward, fee, reward + fee, expiresAt, Open, None);
      var e := Entry(SpendCreate, creator, -(reward + fee), |db.challenges|);
      Some(Post(db.(challenges := db.challenges + [row]), e))
    else None
  }

  function ClaimTx(db: Db, user: UserId, id: ChallengeId, snap: Challenge, now: int): Option<Db> {
    if HasStatus(db, id, Open) && db.challenges[id].expiresAt > now && id !in db.claims then
      var row := db.challenges[id].(status := Claimed, claimedBy := Some(user));
      Some(db.(challenges := db.challenges[id := row],
               claims := db.claims[id := Claim(user, Assigned, snap.expiresAt, 0)]))
    else None
  }

  function CancelTx(db: Db, user: UserId, id: ChallengeId, snap: Challenge): Option<Db> {
    if HasStatus(db, id, Open) && CanCredit(db, user, snap.reserved) then
      Some(Post(SetStatus(db, id, Cancelled), Entry(RefundClose, user, snap.reserved, id)))
    else None
  }

  function SubmitTx(db: Db, id: ChallengeId): Option<Db> {
    if ClaimIn(db, id, SUBMITTABLE) then Some(SetClaim(db, id, Submitted, db.claims[id].creditsEarned)) else None
  }

  predicate FeeRecorded(db: Db, id: ChallengeId) { exists r :: r in db.fees && r.ref == id }

  /** Approval pays the claimant and records a positive fee; the revenue row is unique per challenge. */
  function ApproveTx(db: Db, id: ChallengeId, snap: Challenge, claimant: UserId): Option<Db> {
    if ClaimIn(db, id, {Submitted}) && HasStatus(db, id, Claimed) && CanCredit(db, claimant, snap.reward)
       && (snap.fee > 0 ==> !FeeRecorded(db, id))
    then
      var closed := SetStatus(SetClaim(db, id, Verified, snap.reward), id, Completed);
      var paid := Post(closed, Entry(EarnTask, claimant, snap.reward, id));
      Some(if snap.fee > 0 then paid.(fees := paid.fees + [Revenue(id, snap.fee)]) else paid)
    else None
  }

  function RejectTx(db: Db, id: ChallengeId, snap: Challenge): Option<Db> {
    if ClaimIn(db, id, {Submitted}) && HasStatus(db, id, Claimed) && CanCredit(db, snap.creator, snap.reserved) then
      var closed := SetStatus(SetClaim(db, id, Rejected, db.claims[id].creditsEarned), id, Completed);
      Some(Post(closed, Entry(RefundClose, snap.creator, snap.reserved, id)))
    else None
  }

  /** A sweep candidate that is no longer open and overdue commits an empty transaction. */
  function SweepOpenTx(db: Db, id: ChallengeId, snap: Challenge, now: int): Option<Db> {
    if !(HasStatus(db, id, Open) && db.challenges[id].expiresAt <= now) then Some(db)
    else if CanCredit(db, snap.creator, snap.reserved) then
      Some(Post(SetStatus(db, id, Expired), Entry(RefundClose, snap.creator, snap.reserved, id)))
    else None
  }

  /** Both early returns of the abandoned-claim sweep COMMIT what was written before them: the second
      one would leave a lapsed claim on a challenge that keeps its reserve. */
  function SweepClaimedTx(db: Db, id: ChallengeId, snap: Challenge): Option<Db> {
    if !ClaimIn(db, id, SUBMITTABLE) then Some(db)
    else
      var lapsed := SetClaim(db, id, Lapsed, db.claims[id].creditsEarned);
      if !HasStatus(db, id, Claimed) then Some(lapsed)
      else if CanCredit(db, snap.creator, snap.reserved) then
        Some(Post(SetStatus(lapsed, id, Expired), Entry(RefundClose, snap.creator, snap.reserved, id)))
      else None
  }

  // ---- requests: what was read earlier, then the transaction on the current state ----

  /** One request. `readAt` and `claimReadAt` name the past states its reads saw; `readTime` and `now` are
      the clock readings around them. A `Review` without a reviewer is an administrator's. */
  datatype Request =
    | Create(creator: UserId, reward: int, ttlHours: Option<int>, config: Config, now: int)
    | ClaimIt(user: UserId, id: ChallengeId, readAt: nat, readTime: int, now: int)
    | Cancel(user: UserId, id: ChallengeId, readAt: nat)
    | Submit(user: UserId, id: ChallengeId, readAt: nat, readTime: int)
    | Review(reviewer: Option<UserId>, id: ChallengeId, readAt: nat, claimReadAt: nat, approve: bool)
    | SweepOpen(id: ChallengeId, readAt: nat, readTime: int, rereadAt: nat, now: int)
    | SweepClaimed(id: ChallengeId, readAt: nat, readTime: int)

  /** The transaction a request runs on the current state, or None when its reads refuse it. */
  function Attempt(h: seq<Db>, r: Request): Option<Db>
    requires h != []
  {
    var db := Last(h);
    match r
    case Create(creator, reward, ttlHours, config, now) =>
      var ttl := if ttlHours.Some? then ttlHours.value else config.defaultTtlHours;
      if reward < config.minReward || reward > config.maxReward || ttl > config.maxTtlHours then None
      else CreateTx(db, creator, reward, FeeFor(reward, config.feeRate), now + ttl * HOUR_MS)
    case ClaimIt(user, id, readAt, readTime, now) =>
      var seen := At(h, readAt).challenges;
      if id < |seen| && seen[id].creator != user && seen[id].status == Open && seen[id].expiresAt > readTime
      then ClaimTx(db, user, id, seen[id], now) else None
    case Cancel(user, id, readAt) =>
      var seen := At(h, readAt).challenges;
      if id < |seen| && seen[id].creator == user && seen[id].status == Open
      then CancelTx(db, user, id, seen[id]) else None
    case Submit(user, id, readAt, readTime) =>
      var seen := At(h, readAt);
      if id < |seen.challenges| && id in seen.claims && seen.claims[id].user == user
         && seen.challenges[id].creator != user && seen.challenges[id].status == Claimed
         && seen.claims[id].status in SUBMITTABLE && seen.claims[id].expiresAt >= readTime
      then SubmitTx(db, id) else None
    case Review(reviewer, id, readAt, claimReadAt, approve) =>
      var seen := At(h, readAt).challenges;
      var seenClaims := At(h, claimReadAt).claims;
      if id < |seen| && (reviewer.None? || seen[id].creator == reviewer.value)
         && id in seenClaims && seenClaims[id].user != seen[id].creator && seenClaims[id].status == Submitted
      then if approve then ApproveTx(db, id, seen[id], seenClaims[id].user) else RejectTx(db, id, seen[id])
      else None
    case SweepOpen(id, readAt, readTime, rereadAt, now) =>
      var seen := At(h, readAt).challenges;
      var reread := At(h, rereadAt).challenges;
      if id < |seen| && seen[id].status == Open && seen[id].expiresAt <= readTime && id < |reread|
      then SweepOpenTx(db, id, reread[id], now) else None
    case SweepClaimed(id, readAt, readTime) =>
      var seen := At(h, readAt);
      if HasStatus(seen, id, Claimed) && ClaimIn(seen, id, SUBMITTABLE) && seen.claims[id].expiresAt <= readTime
      then SweepClaimedTx(db, id, seen.challenges[id]) else None
  }

  function Perform(h: seq<Db>, r: Request): Db
    requires h != []
  {
    match Attempt(h, r)
    case Some(db) => db
    case None => Last(h)
  }

  /** Every state passed through while `rs` commit one after another. */
  function History(start: Db, rs: seq<Request>): (h: seq<Db>)
    ensures |h| == |rs| + 1
  {
    if rs == [] then [start]
    else
      var h := History(start, rs[..|rs| - 1]);
      h + [Perform(h, rs[|rs| - 1])]
  }

  // ---- totals ----

  predicate Live(c: Challenge) { c.status == Open || c.status == Claimed }

  function HeldOf(c: Challenge): int { if Live(c) then c.reserved else 0 }

  function HeldColumn(cs: seq<Challenge>): seq<int> {
    seq(|cs|, i requires 0 <= i < |cs| => HeldOf(cs[i]))
  }

  function FeeColumn(fees: seq<Revenue>): seq<int> {
    seq(|fees|, i requires 0 <= i < |fees| => fees[i].amount)
  }

  /** Credits in wallets, in escrow and in recorded challenge fees. */
  function Total(db: Db): int {
    Sum(db.balances) + Sum(HeldColumn(db.challenges)) + Sum(FeeColumn(db.fees))
  }

  predicate Awarded(db: Db, id: ChallengeId) { ClaimIn(db, id, {Verified}) }

  function MintedColumn(db: Db): seq<int> {
    seq(|db.challenges|, i requires 0 <= i < |db.challenges| =>
      if Awarded(db, i) && db.challenges[i].fee < 0 then -db.challenges[i].fee else 0)
  }

  /** What approvals paid beyond the reserve: nothing unless a fee was negative. */
  function Minted(db: Db): int { Sum(MintedColumn(db)) }
}
