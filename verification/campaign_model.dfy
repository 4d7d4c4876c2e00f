/** One campaign: its row, its wallet ledger, its completions, and the requests that race on them. */
module CampaignModel {
  import opened Histories
  import opened Wrappers
  import opened CampaignFunding

  type WorkerId = nat

  datatype Status = Draft | PendingReview | Active | Paused | Completed | Cancelled | Refused | Expired

  datatype TaskStatus = Assigned | InProgress | Submitted | Verified | Rejected

  datatype Row = Row(
    owner: UserId, total: int, completed: int, pending: int, credit: int, fee: int, status: Status, platform: bool)

  datatype Payout = Payout(worker: WorkerId, amount: int)

  datatype Db = Db(row: Row, ledger: seq<Entry>, tasks: map<WorkerId, TaskStatus>, payouts: seq<Payout>)

  const CANCELLABLE: set<Status> := {Active, Paused, Draft, PendingReview}
  const MODIFIABLE: set<Status> := {Active, Paused, Draft}
  const TRANSITION: set<Status> := {Active, Paused}
  const OPEN_TASK: set<TaskStatus> := {Assigned, InProgress}

  predicate ValidCounters(row: Row) {
    row.total >= 0 && row.completed >= 0 && row.pending >= 0 && row.credit > 0 && row.completed + row.pending <= row.total
  }

  /** The pool that no completed or in-flight task can still claim. */
  function Unused(row: Row): int { (row.total - row.completed - row.pending) * row.credit }

  /** A funded campaign; an administrator's is a platform task. */
  function CreateCampaign(owner: UserId, total: int, credit: int, fee: int, platform: bool): Db {
    Db(Row(owner, total, 0, 0, credit, fee, Active, platform),
       [Entry(SpendCreate, true, -(total * credit + fee), owner)], map[], [])
  }

  // ---- transactions; None means the transaction aborted and wrote nothing ----

  /** Cancellation under the row lock. The creator may only cancel a campaign nobody has taken. */
  function CancelTx(db: Db, admin: bool): Option<Db> {
    if db.row.status !in CANCELLABLE || !ValidCounters(db.row) || (!admin && db.tasks != map[]) then None
    else
      match Refundable(db.ledger, db.row.owner, db.row.fee, Unused(db.row))
      case None => None
      case Some(refund) =>
        var closed := db.(row := db.row.(status := Cancelled));
        Some(if refund > 0
             then closed.(ledger := db.ledger + [Entry(RefundCancel, true, refund, db.row.owner)])
             else closed)
  }

  function AssignTx(db: Db, worker: WorkerId): Option<Db> {
    if db.row.status == Active && db.row.pending + db.row.completed < db.row.total && worker !in db.tasks then
      Some(db.(row := db.row.(pending := db.row.pending + 1), tasks := db.tasks[worker := Assigned]))
    else None
  }

  /** A pending slot exists and the counters are sane: what both slot updates check at write time. */
  predicate SlotAvailable(row: Row) {
    row.total > 0 && row.completed >= 0 && row.pending > 0 && row.completed + row.pending <= row.total
  }

  function VerifyTx(db: Db, worker: WorkerId, from: set<TaskStatus>, credit: int): Option<Db> {
    if worker in db.tasks && db.tasks[worker] in from
       && SlotAvailable(db.row) && db.row.completed < db.row.total && credit > 0
    then
      var full := db.row.completed + 1 >= db.row.total && db.row.status in TRANSITION;
      Some(db.(row := db.row.(completed := db.row.completed + 1, pending := db.row.pending - 1,
                              status := if full then Completed else db.row.status),
               tasks := db.tasks[worker := Verified],
               payouts := db.payouts + [Payout(worker, credit)]))
    else None
  }

  function RejectTx(db: Db, worker: WorkerId): Option<Db> {
    if worker in db.tasks && db.tasks[worker] == Submitted && SlotAvailable(db.row) then
      Some(db.(row := db.row.(pending := db.row.pending - 1), tasks := db.tasks[worker := Rejected]))
    else None
  }

  // ---- requests ----

  /** `readAt` names the past state a request's reads saw. A `Verify` with `auto` is the worker's own, after an
      automatic check; without it a review. */
  datatype Request =
    | Fund(user: UserId, amount: int)
    | Update(to: Option<Status>, readAt: nat)
    | Edit(total: int, credit: int)
    | ReviewCampaign(approve: bool, readAt: nat)
    | Cancel(admin: bool, walletOk: bool)
    | CancelPlatform(readAt: nat)
    | PausePlatform
    | Assign(worker: WorkerId)
    | Submit(worker: WorkerId, readAt: nat)
    | Verify(worker: WorkerId, auto: bool, readAt: nat)
    | Reject(worker: WorkerId)

  /** Nobody works for their own campaign, unless it is a platform task. */
  predicate MayWork(row: Row, worker: WorkerId) { worker != row.owner || row.platform }

  function Attempt(h: seq<Db>, r: Request): Option<Db>
    requires h != []
  {
    var db := Last(h);
    match r
    case Fund(user, amount) =>
      if amount > 0 then Some(db.(ledger := db.ledger + [Entry(SpendCreate, true, -amount, user)])) else None
    case Update(to, readAt) =>
      // reads the status, then writes by id alone
      if At(h, readAt).row.status !in MODIFIABLE then None
      else if to.Some? && to.value !in TRANSITION then None
      else Some(db.(row := db.row.(status := if to.Some? then to.value else db.row.status)))
    case Edit(total, credit) => Some(db.(row := db.row.(total := total, credit := credit)))
    case ReviewCampaign(approve, readAt) =>
      // reads the status, then writes by id alone
      if At(h, readAt).row.status == PendingReview
      then Some(db.(row := db.row.(status := if approve then Active else Refused))) else None
    case Cancel(admin, walletOk) =>
      var t := CancelTx(db, admin);
      if t.Some? && t.value.ledger != db.ledger && !walletOk then None else t
    case CancelPlatform(readAt) =>
      if At(h, readAt).row.status in TRANSITION then Some(db.(row := db.row.(status := Cancelled))) else None
    case PausePlatform =>
      if db.row.status == Active then Some(db.(row := db.row.(status := Paused))) else None
    case Assign(worker) => if MayWork(db.row, worker) then AssignTx(db, worker) else None
    case Submit(worker, readAt) =>
      // the manual path checks the status it read, then writes by id alone
      var seen := At(h, readAt);
      if worker != db.row.owner && worker in seen.tasks && seen.tasks[worker] in OPEN_TASK && worker in db.tasks
      then Some(db.(tasks := db.tasks[worker := Submitted])) else None
    case Verify(worker, auto, readAt) =>
      var seen := At(h, readAt);
      var from := if auto then OPEN_TASK else {Submitted};
      if (auto ==> MayWork(db.row, worker)) && worker in seen.tasks && seen.tasks[worker] in from
      then VerifyTx(db, worker, from, seen.row.credit) else None
    case Reject(worker) => RejectTx(db, worker)
  }

  function Perform(h: seq<Db>, r: Request): Db
    requires h != []
  {
    match Attempt(h, r)
    case Some(db) => db
    case None => Last(h)
  }

  /** The states passed through when more requests commit on top of a history. */
  function Continue(h: seq<Db>, rs: seq<Request>): (g: seq<Db>)
    requires h != []
    ensures |g| == |h| + |rs|
  {
    if rs == [] then h
    else
      var g := Continue(h, rs[..|rs| - 1]);
      g + [Perform(g, rs[|rs| - 1])]
  }

  function History(start: Db, rs: seq<Request>): (h: seq<Db>)
    ensures |h| == |rs| + 1
  {
    Continue([start], rs)
  }

  function AmountsPaid(payouts: seq<Payout>): seq<int> {
    seq(|payouts|, i requires 0 <= i < |payouts| => payouts[i].amount)
  }

  /** How often a worker was paid. */
  function TimesPaid(payouts: seq<Payout>, worker: WorkerId): nat {
    if payouts == [] then 0
    else TimesPaid(payouts[..|payouts| - 1], worker) + if payouts[|payouts| - 1].worker == worker then 1 else 0
  }
}
