/** The campaign service as it runs: transaction bodies with guarded updates and rollback. */
module CampaignStore {
  import opened Wrappers
  import opened CampaignFunding
  import opened CampaignModel

  datatype Failure = NotCancellable | BadCounters | HasTasks | BadLedger | WalletRefused | NoSlot | NotPending

  class CampaignService {
    var row: Row
    var ledger: seq<Entry>
    var tasks: map<WorkerId, TaskStatus>
    var payouts: seq<Payout>

    function Tables(): Db
      reads this
    {
      Db(row, ledger, tasks, payouts)
    }

    method Rollback(saved: Db)
      modifies this
      ensures Tables() == saved
    {
      row, ledger, tasks, payouts := saved.row, saved.ledger, saved.tasks, saved.payouts;
    }

    /** Cancel and refund under the row lock; any later failure undoes the status change. */
    method Cancel(admin: bool, walletOk: bool) returns (r: Result<int, Failure>)
      modifies this
      ensures r.Ok? ==> CancelTx(old(Tables()), admin) == Some(Tables()) && r.value >= 0
                        && ledger == old(ledger) + if r.value > 0 then [Entry(RefundCancel, true, r.value, row.owner)] else []
      ensures r.Err? ==> Tables() == old(Tables())
      ensures r.Err? <==> CancelTx(old(Tables()), admin).None?
                          || (!walletOk && CancelTx(old(Tables()), admin).value.ledger != old(ledger))
      ensures var unused := (old(row).total - old(row).completed - old(row).pending) * old(row).credit;
              var refund := if HasFunding(old(ledger)) then unused else 0;
              && (r.Ok? <==> old(row).status in {Active, Paused, Draft, PendingReview}
                             && old(row).completed >= 0 && old(row).pending >= 0 && old(row).credit > 0
                             && old(row).completed + old(row).pending <= old(row).total
                             && (admin || old(tasks) == map[])
                             && Payable(old(ledger), old(row).owner, old(row).fee, unused)
                             && (refund > 0 ==> walletOk))
              && (r.Ok? ==> r.value == refund && row == old(row).(status := Cancelled)
                            && tasks == old(tasks) && payouts == old(payouts))
    {
      RefundableIffPayable(ledger, row.owner, row.fee, (row.total - row.completed - row.pending) * row.credit);
      hide Payable, HasFunding, Refundable;
      var saved := Tables();
      if row.status !in CANCELLABLE {
        return Err(NotCancellable);
      }
      if row.total < 0 || row.completed < 0 || row.pending < 0 || row.credit <= 0
         || row.completed + row.pending > row.total {
        return Err(BadCounters);
      }
      if !admin && tasks != map[] {
        return Err(HasTasks);
      }
      var refundableSlots := row.total - row.completed - row.pending;
      var refundAmount := refundableSlots * row.credit;
      row := row.(status := Cancelled);
      var actual := ResolveFundedRefund(ledger, row.owner, row.fee, refundAmount);
      if actual.Err? {
        Rollback(saved);
        return Err(BadLedger);
      }
      if actual.value > 0 {
        if !walletOk {
          Rollback(saved);
          return Err(WalletRefused);
        }
        ledger := ledger + [Entry(RefundCancel, true, actual.value, row.owner)];
      } else {
        assert ledger == old(ledger) + [];
      }
      return Ok(actual.value);
    }

    /** Claim the completion, then move its slot; a slot that is not there takes the claim back. */
    method ClaimCompletionForVerification(worker: WorkerId, from: set<TaskStatus>, credit: int)
      returns (r: Result<bool, Failure>)
      modifies this
      ensures r.Ok? <==> VerifyTx(old(Tables()), worker, from, credit).Some?
      ensures r.Ok? ==> VerifyTx(old(Tables()), worker, from, credit) == Some(Tables())
      ensures r.Ok? ==> (r.value <==> row.status == Completed && row.completed >= row.total)
      ensures r.Err? ==> Tables() == old(Tables())
    {
      var saved := Tables();
      if !(worker in tasks && tasks[worker] in from) {
        return Err(NotPending);
      }
      tasks := tasks[worker := Verified];
      if !(row.total > 0 && row.completed >= 0 && row.pending > 0 && row.completed < row.total
           && row.completed + row.pending <= row.total) {
        Rollback(saved);
        return Err(NoSlot);
      }
      var full := row.completed + 1 >= row.total && row.status in TRANSITION;
      row := row.(completed := row.completed + 1, pending := row.pending - 1,
                  status := if full then Completed else row.status);
      if credit <= 0 {
        Rollback(saved);
        return Err(WalletRefused);
      }
      payouts := payouts + [Payout(worker, credit)];
      return Ok(row.completed >= row.total && row.status == Completed);
    }

    method RejectCompletionAndReleaseSlot(worker: WorkerId) returns (r: Result<(), Failure>)
      modifies this
      ensures r.Ok? <==> RejectTx(old(Tables()), worker).Some?
      ensures r.Ok? ==> RejectTx(old(Tables()), worker) == Some(Tables())
      ensures r.Err? ==> Tables() == old(Tables())
    {
      var saved := Tables();
      if !(worker in tasks && tasks[worker] == Submitted) {
        return Err(NotPending);
      }
      tasks := tasks[worker := Rejected];
      if !(row.total > 0 && row.completed >= 0 && row.pending > 0 && row.completed + row.pending <= row.total) {
        Rollback(saved);
        return Err(NoSlot);
      }
      row := row.(pending := row.pending - 1);
      return Ok(());
    }

    method AssignTask(worker: WorkerId) returns (r: Result<(), Failure>)
      modifies this
      ensures r.Ok? <==> AssignTx(old(Tables()), worker).Some?
      ensures r.Ok? ==> AssignTx(old(Tables()), worker) == Some(Tables())
      ensures r.Err? ==> Tables() == old(Tables())
    {
      var saved := Tables();
      if !(row.status == Active && row.pending + row.completed < row.total) {
        return Err(NoSlot);
      }
      row := row.(pending := row.pending + 1);
      if worker in tasks {
        Rollback(saved);
        return Err(NotPending);
      }
      tasks := tasks[worker := Assigned];
      return Ok(());
    }
  }
}
