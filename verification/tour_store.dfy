/** The tour's step store and navigation machine as objects updated in place, and the component that runs one
    against the other. */
module TourStore {
  import opened Wrappers
  import opened TourSteps

  /** From one state of the store to the next: same user, a reload reads the new state, other users' stored
      texts are as they were. */
  predicate Wrote(before: Store, after: Store) {
    && before.userId.Some? && after.userId == before.userId
    && ReadUserTour(after.storage, after.userId.value) == Some((after.status, after.step))
    && after.storage.Keys == before.storage.Keys + {after.userId.value}
    && forall u <- before.storage :: u != after.userId.value ==> after.storage[u] == before.storage[u]
  }

  class UserTourStore {
    var userId: Option<string>
    var status: Status
    var step: int
    var storage: map<string, Raw>

    function Abstract(): Store
      reads this
    {
      Store(userId, status, step, storage)
    }

    /** Within bounds, and what a reload would read. */
    ghost predicate Valid()
      reads this
    {
      StoreInv(Abstract())
    }

    constructor (storage: map<string, Raw>)
      requires StorageInBounds(storage)
      ensures Valid() && Abstract() == Loaded(storage).store
    {
      userId, status, step := None, Idle, 0;
      this.storage := storage;
    }

    /** The only place that changes status and step for a user; it stores what it sets. */
    method SetAndWrite(newStatus: Status, newStep: int)
      requires Valid() && InBounds(newStatus, newStep)
      modifies this
      ensures Valid() && Abstract() == Commit(old(Abstract()), newStatus, newStep)
      ensures if old(userId).Some? then Wrote(old(Abstract()), Abstract()) && status == newStatus && step == newStep
              else Abstract() == old(Abstract())
    {
      CommitKeepsInv(Abstract(), newStatus, newStep);
      if userId.None? {
        return;
      }
      WrittenReadsBack(storage, userId.value, newStatus, newStep, userId.value);
      status, step := newStatus, newStep;
      storage := WriteUserTour(storage, userId.value, newStatus, newStep);
    }

    /** Load what is stored for the user; a user with no readable text starts idle. */
    method Sync(user: string)
      requires Valid()
      modifies this
      ensures Valid() && Abstract() == SyncWithUser(old(Abstract()), user)
      ensures userId == Some(user) && storage == old(storage)
      ensures ReadUserTour(storage, user) == Some((status, step))
              || (ReadUserTour(storage, user).None? && status == Idle && step == 0)
    {
      SyncKeepsInv(Abstract(), user);
      if userId == Some(user) {
        return;
      }
      var stored := ReadUserTour(storage, user);
      userId := Some(user);
      status := if stored.Some? then stored.value.0 else Idle;
      step := if stored.Some? then stored.value.1 else 0;
    }

    method Start()
      requires Valid()
      modifies this
      ensures Valid() && Abstract() == StartTour(old(Abstract()))
      ensures if old(userId).Some? && old(status) == Idle then Wrote(old(Abstract()), Abstract()) && status == Active && step == 0
              else Abstract() == old(Abstract())
    {
      if status == Idle {
        SetAndWrite(Active, 0);
      }
    }

    /** Moves exactly one step on if and only if the tour is active on the expected step, so that of two calls
        with the same expectation the second does nothing; completes when there is no further step. */
    method Next(expectedStep: int)
      requires Valid()
      modifies this
      ensures Valid() && Abstract() == NextStep(old(Abstract()), expectedStep)
      ensures step == old(step) + 1 <==> old(status) == Active && old(step) == expectedStep
      ensures step == old(step) <==> Abstract() == old(Abstract())
      ensures step != old(step) ==>
                && step == expectedStep + 1 && Wrote(old(Abstract()), Abstract())
                && status == (if step == LENGTH then Completed else Active)
      ensures step == old(step) || step == old(step) + 1
    {
      if status != Active || step != expectedStep {
        return;
      }
      var next := step + 1;
      if next >= LENGTH {
        SetAndWrite(Completed, LENGTH);
      } else {
        SetAndWrite(Active, next);
      }
    }

    /** Moves exactly one step back if and only if the tour is active on the expected step and not on the first. */
    method Prev(expectedStep: int)
      requires Valid()
      modifies this
      ensures Valid() && Abstract() == PrevStep(old(Abstract()), expectedStep)
      ensures if old(status) == Active && old(step) == expectedStep > 0
              then Wrote(old(Abstract()), Abstract()) && status == Active && step == expectedStep - 1
              else Abstract() == old(Abstract())
    {
      if status != Active || step != expectedStep || step == 0 {
        return;
      }
      SetAndWrite(Active, step - 1);
    }

    method Skip()
      requires Valid()
      modifies this
      ensures Valid() && Abstract() == SkipTour(old(Abstract()))
      ensures status != Active && step == old(step)
      ensures old(status) == Active ==> Wrote(old(Abstract()), Abstract()) && status == Skipped
    {
      if status == Active {
        SetAndWrite(Skipped, step);
      }
    }

    method Reset()
      requires Valid()
      modifies this
      ensures Valid() && Abstract() == ResetTour(old(Abstract()))
      ensures old(userId).Some? ==> Wrote(old(Abstract()), Abstract()) && status == Active && step == 0
    {
      SetAndWrite(Active, 0);
    }
  }

  class NavMachine {
    var phase: Phase
    var stepId: Option<string>
    var startedAt: int
    var timer: Option<string>
    /** Clicks accepted and intents consumed so far. */
    ghost var accepted: nat
    ghost var consumed: nat

    function Abstract(): Nav
      reads this
    {
      Nav(phase, stepId, startedAt, timer)
    }

    /** Every consumed intent had its own accepted click; a pending one has a click not used yet. */
    ghost predicate Valid()
      reads this
    {
      consumed + (if phase == Pending then 1 else 0) <= accepted
    }

    constructor ()
      ensures Valid() && Abstract() == Loaded(map[]).nav && accepted == consumed == 0
    {
      phase, stepId, startedAt, timer := Unarmed, None, 0, None;
      accepted, consumed := 0, 0;
    }

    /** Arms the step, unless its own click is already pending. */
    method ArmFor(id: string)
      requires Valid()
      modifies this
      ensures Valid() && Abstract() == Arm(old(Abstract()), id)
      ensures stepId == Some(id)
      ensures if old(phase) == Pending && old(stepId) == Some(id)
              then phase == Pending && startedAt == old(startedAt) && timer == old(timer)
              else phase == Armed && timer == None
      ensures accepted == old(accepted) && consumed == old(consumed)
    {
      if phase == Pending && stepId == Some(id) {
        return;
      }
      timer := None;
      phase, stepId := Armed, Some(id);
    }

    /** Accepts a click on the armed step; a second click before the next arming is not accepted. */
    method ClickOn(id: string, now: int) returns (ok: bool)
      requires Valid()
      modifies this
      ensures Valid() && Abstract() == Click(old(Abstract()), id, now)
      ensures ok <==> old(phase) == Armed && old(stepId) == Some(id)
      ensures ok ==> phase == Pending && startedAt == now && stepId == Some(id) && timer == Some(id)
      ensures !ok ==> Abstract() == old(Abstract())
      ensures accepted == old(accepted) + (if ok then 1 else 0) && consumed == old(consumed)
    {
      if phase != Armed || stepId != Some(id) {
        return false;
      }
      phase, startedAt, timer := Pending, now, Some(id);
      accepted := accepted + 1;
      return true;
    }

    /** A timer gives up the intent it was set for, and no other. */
    method TimerFired()
      requires Valid()
      modifies this
      ensures Valid() && Abstract() == Timeout(old(Abstract()))
      ensures phase == if old(phase) == Pending && old(timer) != None && old(timer) == old(stepId) then Unarmed else old(phase)
      ensures stepId == old(stepId) && startedAt == old(startedAt)
      ensures accepted == old(accepted) && consumed == old(consumed)
    {
      if timer.Some? && phase == Pending && stepId == timer {
        phase := Unarmed;
      }
    }

    /** Consumes a pending intent at most once: afterwards nothing is pending for this step on its expected
        route, so that a second call fails whatever the time. */
    method TryConsume(step: TourStep, pathname: string, now: int) returns (ok: bool)
      requires Valid()
      modifies this
      ensures Valid() && Abstract() == Consume(old(Abstract()), step, pathname, now)
      ensures var arrives := old(phase) == Pending && old(stepId) == Some(step.id) && step.expected == Some(pathname);
              && (ok <==> arrives && now - old(startedAt) <= 5000)
              && phase == (if ok then Consumed else if arrives then Unarmed else old(phase))
              && timer == (if ok then None else old(timer))
      ensures stepId == old(stepId) && startedAt == old(startedAt)
      ensures forall later :: !Consumes(Abstract(), step, pathname, later)
      ensures consumed == old(consumed) + (if ok then 1 else 0) && accepted == old(accepted)
      ensures ok == Consumes(old(Abstract()), step, pathname, now)
    {
      if phase != Pending || stepId != Some(step.id) {
        return false;
      }
      if step.expected != Some(pathname) {
        return false;
      }
      if now - startedAt > PENDING_TTL_MS {
        phase := Unarmed;
        return false;
      }
      timer := None;
      phase := Consumed;
      consumed := consumed + 1;
      return true;
    }

    method Cancel()
      requires Valid()
      modifies this
      ensures Valid() && Abstract() == CancelPending(old(Abstract()))
      ensures phase == (if old(phase) == Pending then Unarmed else old(phase))
      ensures timer == (if old(phase) == Pending then None else old(timer)) && stepId == old(stepId)
      ensures accepted == old(accepted) && consumed == old(consumed)
    {
      if phase != Pending {
        return;
      }
      timer := None;
      phase := Unarmed;
    }
  }

  /** The component: the store and the machine, with the log of clicks and of advances they led to. */
  class OnboardingTour {
    const store: UserTourStore
    const nav: NavMachine
    ghost var clicks: seq<ClickMade>
    ghost var used: seq<int>
    ghost var advances: seq<Advance>

    ghost function Abstract(): Tour
      reads this, store, nav
    {
      Tour(store.Abstract(), nav.Abstract(), clicks, used, advances)
    }

    /** The store is in bounds and reads back, and every advance used up a click of its own. */
    ghost predicate Valid()
      reads this, store, nav
    {
      store.Valid() && nav.Valid() && AdvancesOk(Abstract())
    }

    constructor (storage: map<string, Raw>)
      requires StorageInBounds(storage)
      ensures Valid() && Abstract() == Loaded(storage)
      ensures fresh(store) && fresh(nav)
    {
      store := new UserTourStore(storage);
      nav := new NavMachine();
      clicks, used, advances := [], [], [];
    }

    /** The effect of a render that showed step `index`: if the intent is consumed the store moves on, by one
        step and at most once; otherwise leaving the step's routes cancels the intent. */
    method OnRoute(index: nat, pathname: string, now: int)
      requires Valid() && index < LENGTH
      modifies this, store, nav
      ensures Valid() && Abstract() == Step(old(Abstract()), RouteSeen(index, pathname, now))
      ensures store.step != old(store.step) ==>
                && old(clicks) != [] && |old(clicks)| - 1 !in old(used)
                && store.step == old(store.step) + 1 == index + 1
                && advances == old(advances) + [Advance(|old(clicks)| - 1, now, index, index + 1)]
      ensures store.step == old(store.step) ==> store.Abstract() == old(store.Abstract()) && advances == old(advances)
      ensures RouteRules(old(Abstract()), Abstract(), index, pathname, now)
    {
      hide AdvancesOk, RouteRules, StoreInv, Consume, Consumes, Arrives, NextStep, CancelPending, Wrote;
      StepKeepsAdvances(Abstract(), RouteSeen(index, pathname, now));
      MoveIsLogged(Abstract(), index, pathname, now);
      RouteIsExact(Abstract(), index, pathname, now);
      var step := TOUR_STEPS[index];
      if step.kind != Navigate {
        return;
      }
      var consumed := nav.TryConsume(step, pathname, now);
      if consumed {
        ghost var from := store.step;
        ghost var before := store.Abstract();
        store.Next(index);
        used := used + [|clicks| - 1];
        advances := advances + if store.Abstract() != before then [Advance(|clicks| - 1, now, from, store.step)] else [];
        return;
      }
      if pathname != step.required && Some(pathname) != step.expected {
        nav.Cancel();
      }
    }

    /** Whatever happens next, a user's button, a click, a timer or a render, keeps the store sound and every
        advance paid for by a click. */
    method Handle(op: Op)
      requires Valid()
      modifies this, store, nav
      ensures Valid() && Abstract() == Step(old(Abstract()), op)
      ensures |advances| <= |clicks|
    {
      StepKeepsAdvances(Abstract(), op);
      AdvancesFit(Step(Abstract(), op));
      hide AdvancesOk;
      match op {
        case ArmStep(id) => nav.ArmFor(id);
        case ClickTarget(id, now) =>
          var ok := nav.ClickOn(id, now);
          clicks := clicks + if ok then [ClickMade(id, now)] else [];
        case TimerFires => nav.TimerFired();
        case CancelIntent => nav.Cancel();
        case RouteSeen(index, pathname, now) =>
          if index < LENGTH {
            OnRoute(index, pathname, now);
          }
        case CallSync(userId) => store.Sync(userId);
        case CallStart => store.Start();
        case CallNext(expected) => store.Next(expected);
        case CallPrev(expected) => store.Prev(expected);
        case CallSkip => store.Skip();
        case CallReset => store.Reset();
      }
    }
  }

  lemma AdvancesFit(t: Tour)
    requires AdvancesOk(t)
    ensures |t.advances| <= |t.clicks|
  {
    IncreasingFit(t.advances, |t.clicks|);
  }
}
