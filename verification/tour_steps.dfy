/** The onboarding tour's step store and its navigation intent, run against each other. */
module TourSteps {
  import opened Wrappers

  datatype StepType = Info | Navigate

  datatype TourStep = TourStep(id: string, kind: StepType, required: string, expected: Option<string>)

  const TOUR_STEPS := [
    TourStep("daily-reward", Info, "/dashboard", None),
    TourStep("nav-tasks", Navigate, "/dashboard", Some("/tasks")),
    TourStep("task-browse-grid", Info, "/tasks", None),
    TourStep("nav-missions", Navigate, "/tasks", Some("/missions")),
    TourStep("nav-campaigns", Navigate, "/missions", Some("/campaigns")),
    TourStep("nav-leaderboard", Navigate, "/campaigns", Some("/leaderboard")),
    TourStep("nav-store", Navigate, "/leaderboard", Some("/store")),
    TourStep("nav-wallet", Navigate, "/store", Some("/wallet")),
    TourStep("nav-referrals", Navigate, "/wallet", Some("/referrals")),
    TourStep("nav-dashboard", Navigate, "/referrals", Some("/dashboard"))]

  const LENGTH := 10

  const PENDING_TTL_MS := 5000

  /** The steps lead through one another: each is shown on the route the one before it leads to. */
  lemma StepsConnect()
    ensures |TOUR_STEPS| == 10
    ensures forall i :: 0 <= i < 9 ==>
              TOUR_STEPS[i + 1].required == (if TOUR_STEPS[i].expected == None then TOUR_STEPS[i].required else TOUR_STEPS[i].expected.value)
    ensures forall i :: 0 <= i < 10 ==> (TOUR_STEPS[i].kind == Navigate <==> TOUR_STEPS[i].expected != None)
  {
  }

  // ---- what is stored ----

  datatype Status = Idle | Active | Skipped | Completed

  datatype Number = Int(value: int) | NotInteger

  /** A stored text: broken JSON, or the fields of the parsed object as far as they are present. */
  datatype Raw = Broken | Parsed(version: int, userId: string, status: string, step: Number)

  function Text(status: Status): string {
    match status case Idle => "idle" case Active => "active" case Skipped => "skipped" case Completed => "completed"
  }

  function Named(text: string): Option<Status> {
    if text == "idle" then Some(Idle)
    else if text == "active" then Some(Active)
    else if text == "skipped" then Some(Skipped)
    else if text == "completed" then Some(Completed)
    else None
  }

  /** The validating read: null unless every field is as this version writes it. */
  function ReadUserTour(storage: map<string, Raw>, userId: string): Option<(Status, int)> {
    if userId !in storage then None
    else
      match storage[userId]
      case Broken => None
      case Parsed(version, owner, text, step) =>
        if version != 2 || owner != userId || Named(text).None? || step.NotInteger? then None
        else if step.value < 0 || step.value > LENGTH then None
        else Some((Named(text).value, step.value))
  }

  function WriteUserTour(storage: map<string, Raw>, userId: string, status: Status, step: int): map<string, Raw> {
    storage[userId := Parsed(2, userId, Text(status), Int(step))]
  }

  // ---- the store ----

  datatype Store = Store(userId: Option<string>, status: Status, step: int, storage: map<string, Raw>)

  function Commit(s: Store, status: Status, step: int): Store {
    if s.userId.None? then s
    else s.(status := status, step := step, storage := WriteUserTour(s.storage, s.userId.value, status, step))
  }

  function SyncWithUser(s: Store, userId: string): Store {
    if s.userId == Some(userId) then s
    else
      var stored := ReadUserTour(s.storage, userId);
      if stored.None? then Store(Some(userId), Idle, 0, s.storage)
      else Store(Some(userId), stored.value.0, stored.value.1, s.storage)
  }

  function StartTour(s: Store): Store { if s.status != Idle then s else Commit(s, Active, 0) }

  function NextStep(s: Store, expected: int): Store {
    if s.status != Active || s.step != expected then s
    else if s.step + 1 >= LENGTH then Commit(s, Completed, LENGTH)
    else Commit(s, Active, s.step + 1)
  }

  function PrevStep(s: Store, expected: int): Store {
    if s.status != Active || s.step != expected || s.step == 0 then s else Commit(s, Active, s.step - 1)
  }

  function SkipTour(s: Store): Store { if s.status != Active then s else Commit(s, Skipped, s.step) }

  function ResetTour(s: Store): Store { Commit(s, Active, 0) }

  // ---- the navigation intent ----

  datatype Phase = Unarmed | Armed | Pending | Consumed

  /** A timer remembers the step it was set for. */
  datatype Nav = Nav(phase: Phase, stepId: Option<string>, startedAt: int, timer: Option<string>)

  function Arm(n: Nav, id: string): Nav {
    if n.phase == Pending && n.stepId == Some(id) then n else Nav(Armed, Some(id), n.startedAt, None)
  }

  predicate Accepts(n: Nav, id: string) { n.phase == Armed && n.stepId == Some(id) }

  function Click(n: Nav, id: string, now: int): Nav {
    if Accepts(n, id) then Nav(Pending, n.stepId, now, Some(id)) else n
  }

  function Timeout(n: Nav): Nav {
    if n.timer.Some? && n.phase == Pending && n.stepId == n.timer then n.(phase := Unarmed) else n
  }

  predicate Arrives(n: Nav, step: TourStep, pathname: string) {
    n.phase == Pending && n.stepId == Some(step.id) && step.expected == Some(pathname)
  }

  predicate Consumes(n: Nav, step: TourStep, pathname: string, now: int) {
    Arrives(n, step, pathname) && now - n.startedAt <= PENDING_TTL_MS
  }

  function Consume(n: Nav, step: TourStep, pathname: string, now: int): Nav {
    if !Arrives(n, step, pathname) then n
    else if Consumes(n, step, pathname, now) then n.(phase := Consumed, timer := None)
    else n.(phase := Unarmed)
  }

  function CancelPending(n: Nav): Nav { if n.phase != Pending then n else n.(phase := Unarmed, timer := None) }

  // ---- both together ----

  datatype ClickMade = ClickMade(id: string, at: int)

  /** An advance by navigation: which accepted click it used up, and the steps before and after. */
  datatype Advance = Advance(click: int, at: int, from: int, to: int)

  datatype Tour = Tour(store: Store, nav: Nav, clicks: seq<ClickMade>, used: seq<int>, advances: seq<Advance>)

  /** `RouteSeen` is the effect of a render that showed step `index` at `pathname`; the store may have moved on. */
  datatype Op =
    | ArmStep(id: string)
    | ClickTarget(id: string, now: int)
    | TimerFires
    | CancelIntent
    | RouteSeen(index: nat, pathname: string, now: int)
    | CallSync(userId: string)
    | CallStart
    | CallNext(expected: int)
    | CallPrev(expected: int)
    | CallSkip
    | CallReset

  function RouteEffect(t: Tour, index: nat, pathname: string, now: int): Tour
    requires index < LENGTH
  {
    var step := TOUR_STEPS[index];
    if step.kind != Navigate then t
    else if Consumes(t.nav, step, pathname, now) then
      var store := NextStep(t.store, index);
      var click := |t.clicks| - 1;
      Tour(store, Consume(t.nav, step, pathname, now), t.clicks, t.used + [click],
           t.advances + if store != t.store then [Advance(click, now, t.store.step, store.step)] else [])
    else
      var nav := Consume(t.nav, step, pathname, now);
      t.(nav := if pathname != step.required && Some(pathname) != step.expected then CancelPending(nav) else nav)
  }

  function Step(t: Tour, op: Op): Tour {
    match op
    case ArmStep(id) => t.(nav := Arm(t.nav, id))
    case ClickTarget(id, now) =>
      t.(nav := Click(t.nav, id, now), clicks := t.clicks + if Accepts(t.nav, id) then [ClickMade(id, now)] else [])
    case TimerFires => t.(nav := Timeout(t.nav))
    case CancelIntent => t.(nav := CancelPending(t.nav))
    case RouteSeen(index, pathname, now) => if index < LENGTH then RouteEffect(t, index, pathname, now) else t
    case CallSync(userId) => t.(store := SyncWithUser(t.store, userId))
    case CallStart => t.(store := StartTour(t.store))
    case CallNext(expected) => t.(store := NextStep(t.store, expected))
    case CallPrev(expected) => t.(store := PrevStep(t.store, expected))
    case CallSkip => t.(store := SkipTour(t.store))
    case CallReset => t.(store := ResetTour(t.store))
  }

  function Run(t: Tour, ops: seq<Op>): Tour {
    if ops == [] then t else Step(Run(t, ops[..|ops| - 1]), ops[|ops| - 1])
  }

  /** A page that has just loaded on the given stored texts. */
  function Loaded(storage: map<string, Raw>): Tour {
    Tour(Store(None, Idle, 0, storage), Nav(Unarmed, None, 0, None), [], [], [])
  }

  // ---- the store keeps its bounds and reads back what it wrote ----

  predicate InBounds(status: Status, step: int) {
    && 0 <= step <= LENGTH
    && (status == Active ==> step < LENGTH)
    && (status == Completed ==> step == LENGTH)
  }

  /** Every stored text that reads as a state reads as one within bounds. */
  ghost predicate StorageInBounds(storage: map<string, Raw>) {
    forall u: string :: ReadUserTour(storage, u).Some? ==>
                          InBounds(ReadUserTour(storage, u).value.0, ReadUserTour(storage, u).value.1)
  }

  /** What is in memory for the current user is what a reload would read. */
  predicate ReadsBack(s: Store) {
    s.userId.Some? ==>
      var stored := ReadUserTour(s.storage, s.userId.value);
      if stored.None? then s.status == Idle && s.step == 0 else stored == Some((s.status, s.step))
  }

  ghost predicate StoreInv(s: Store) {
    StorageInBounds(s.storage) && InBounds(s.status, s.step) && ReadsBack(s)
    && (s.userId.None? ==> s.status == Idle && s.step == 0)
  }

  lemma WrittenReadsBack(storage: map<string, Raw>, u: string, status: Status, step: int, other: string)
    requires 0 <= step <= LENGTH
    ensures ReadUserTour(WriteUserTour(storage, u, status, step), other)
            == if other == u then Some((status, step)) else ReadUserTour(storage, other)
  {
    assert Named(Text(status)) == Some(status);
  }

  /** A stored text reads as a state exactly when it is one this version writes, for this user. */
  lemma ReadIsExact(storage: map<string, Raw>, u: string, status: Status, step: int)
    ensures ReadUserTour(storage, u) == Some((status, step)) <==>
              && u in storage && 0 <= step <= |TOUR_STEPS|
              && storage[u] == Parsed(2, u, match status
                                            case Idle => "idle"
                                            case Active => "active"
                                            case Skipped => "skipped"
                                            case Completed => "completed", Int(step))
  {
    DistinctNames();
    if u in storage && storage[u].Parsed? && storage[u].step.Int? {
      assert storage[u].step == Int(storage[u].step.value);
    }
  }

  lemma DistinctNames()
    ensures "idle" != "active" && "idle" != "skipped" && "idle" != "completed"
    ensures "active" != "skipped" && "active" != "completed" && "skipped" != "completed"
  {
    assert "idle"[0] == 'i' && "active"[0] == 'a' && "skipped"[0] == 's' && "completed"[0] == 'c';
  }

  lemma CommitKeepsInv(s: Store, status: Status, step: int)
    requires StoreInv(s) && InBounds(status, step)
    ensures StoreInv(Commit(s, status, step))
  {
    if s.userId.Some? {
      forall u: string
        ensures ReadUserTour(Commit(s, status, step).storage, u)
             == if u == s.userId.value then Some((status, step)) else ReadUserTour(s.storage, u)
      {
        WrittenReadsBack(s.storage, s.userId.value, status, step, u);
      }
      hide ReadUserTour;
    }
  }

  lemma SyncKeepsInv(s: Store, u: string)
    requires StoreInv(s)
    ensures StoreInv(SyncWithUser(s, u))
  {
    hide ReadUserTour;
  }

  lemma {:induction false} StepKeepsStoreInv(t: Tour, op: Op)
    requires StoreInv(t.store)
    ensures StoreInv(Step(t, op).store)
  {
    hide StoreInv;
    StoreInBounds(t.store);
    var s := t.store;
    match op
    case RouteSeen(index, _, _) => if s.status == Active { NextKeepsInv(s, index); }
    case CallSync(u) => SyncKeepsInv(s, u);
    case CallStart => CommitKeepsInv(s, Active, 0);
    case CallNext(expected) => NextKeepsInv(s, expected);
    case CallPrev(_) => if s.status == Active && s.step > 0 { CommitKeepsInv(s, Active, s.step - 1); }
    case CallSkip => if s.status == Active { CommitKeepsInv(s, Skipped, s.step); }
    case CallReset => CommitKeepsInv(s, Active, 0);
    case _ =>
  }

  lemma StoreInBounds(s: Store)
    requires StoreInv(s)
    ensures InBounds(s.status, s.step)
  {
  }

  lemma NextKeepsInv(s: Store, expected: int)
    requires StoreInv(s)
    ensures StoreInv(NextStep(s, expected))
  {
    CommitKeepsInv(s, Completed, LENGTH);
    if s.status == Active && s.step + 1 < LENGTH {
      CommitKeepsInv(s, Active, s.step + 1);
    }
  }

  lemma {:induction false} RunKeepsStoreInv(storage: map<string, Raw>, ops: seq<Op>)
    requires StorageInBounds(storage)
    ensures StoreInv(Run(Loaded(storage), ops).store)
  {
    if ops != [] {
      RunKeepsStoreInv(storage, ops[..|ops| - 1]);
      StepKeepsStoreInv(Run(Loaded(storage), ops[..|ops| - 1]), ops[|ops| - 1]);
    }
  }

  /** After the run the store is within bounds and a reload would read what is in memory. */
  predicate EndsSound(storage: map<string, Raw>, ops: seq<Op>) {
    var s := Run(Loaded(storage), ops).store;
    InBounds(s.status, s.step) && ReadsBack(s)
  }

  /** Every run ends sound exactly when no stored text reads as a state out of bounds, so always for fresh users. */
  lemma StoreStaysInBounds(storage: map<string, Raw>)
    ensures (forall ops: seq<Op> :: EndsSound(storage, ops)) <==> StorageInBounds(storage)
  {
    if StorageInBounds(storage) {
      forall ops: seq<Op>
        ensures EndsSound(storage, ops)
      {
        RunKeepsStoreInv(storage, ops);
      }
    } else {
      var u: string :| ReadUserTour(storage, u).Some?
        && !InBounds(ReadUserTour(storage, u).value.0, ReadUserTour(storage, u).value.1);
      var ops := [CallSync(u)];
      assert ops[..|ops| - 1] == [];
      assert Run(Loaded(storage), []) == Loaded(storage);
      assert !EndsSound(storage, ops);
    }
  }

  lemma {:induction false} FreshUserIsSound(ops: seq<Op>)
    ensures EndsSound(map[], ops)
  {
    RunKeepsStoreInv(map[], ops);
  }

  // ---- every advance uses up a click ----

  /** The clicks used up, in order and at most once each; a pending intent is the last click, not used yet. */
  ghost predicate ClicksUsed(t: Tour) {
    && (forall k :: 0 <= k < |t.used| ==> 0 <= t.used[k] < |t.clicks|)
    && (forall j, k :: 0 <= j < k < |t.used| ==> t.used[j] < t.used[k])
    && (t.nav.phase == Pending ==>
          && t.clicks != []
          && t.nav.stepId == Some(t.clicks[|t.clicks| - 1].id)
          && t.nav.startedAt == t.clicks[|t.clicks| - 1].at
          && forall k <- t.used :: k < |t.clicks| - 1)
  }

  /** An advance moved the store one step on, for a click on that step's target at most five seconds old. */
  predicate AdvanceOk(t: Tour, a: Advance) {
    && a.click in t.used && 0 <= a.click < |t.clicks|
    && 0 <= a.from < |TOUR_STEPS| && a.to == a.from + 1
    && TOUR_STEPS[a.from].kind == Navigate
    && t.clicks[a.click].id == TOUR_STEPS[a.from].id
    && a.at - t.clicks[a.click].at <= 5000
  }

  ghost predicate AdvancesOk(t: Tour) {
    && ClicksUsed(t)
    && (forall a <- t.advances :: AdvanceOk(t, a))
    && (forall j, k :: 0 <= j < k < |t.advances| ==> t.advances[j].click < t.advances[k].click)
  }

  lemma {:induction false} RouteKeepsAdvances(t: Tour, index: nat, pathname: string, now: int)
    requires AdvancesOk(t) && index < LENGTH
    ensures AdvancesOk(RouteEffect(t, index, pathname, now))
  {
    var step := TOUR_STEPS[index];
    var after := RouteEffect(t, index, pathname, now);
    if step.kind == Navigate && Consumes(t.nav, step, pathname, now) {
      var click := |t.clicks| - 1;
      assert after.used == t.used + [click];
      forall k | 0 <= k < |t.used|
        ensures t.used[k] < click
      {
        assert t.used[k] in t.used;
      }
      NextMovesByOne(t.store, index);
      forall a <- after.advances
        ensures AdvanceOk(after, a)
      {
        assert a in t.advances || a == Advance(click, now, t.store.step, after.store.step);
        assert after.used[|t.used|] == click;
      }
      forall k | 0 <= k < |t.advances|
        ensures t.advances[k].click < click
      {
        assert t.advances[k] in t.advances;
      }
    } else {
      forall a <- t.advances
        ensures AdvanceOk(after, a)
      {
      }
    }
  }

  lemma NextMovesByOne(s: Store, index: nat)
    requires index < LENGTH
    ensures NextStep(s, index) != s ==> s.status == Active && s.step == index && NextStep(s, index).step == index + 1
  {
  }

  lemma {:induction false} StepKeepsAdvances(t: Tour, op: Op)
    requires AdvancesOk(t)
    ensures AdvancesOk(Step(t, op))
  {
    match op
    case RouteSeen(index, pathname, now) =>
      if index < LENGTH { RouteKeepsAdvances(t, index, pathname, now); }
    case ClickTarget(id, now) =>
      var after := Step(t, op);
      forall a <- t.advances
        ensures AdvanceOk(after, a)
      {
        assert after.clicks[a.click] == t.clicks[a.click];
      }
    case _ =>
      var after := Step(t, op);
      forall a <- t.advances
        ensures AdvanceOk(after, a)
      {
      }
  }

  lemma {:induction false} RunKeepsAdvances(storage: map<string, Raw>, ops: seq<Op>)
    ensures AdvancesOk(Run(Loaded(storage), ops))
  {
    if ops != [] {
      RunKeepsAdvances(storage, ops[..|ops| - 1]);
      StepKeepsAdvances(Run(Loaded(storage), ops[..|ops| - 1]), ops[|ops| - 1]);
    }
  }

  lemma {:induction false} IncreasingFit(advances: seq<Advance>, clicks: nat)
    requires forall j, k :: 0 <= j < k < |advances| ==> advances[j].click < advances[k].click
    requires forall a <- advances :: 0 <= a.click < clicks
    ensures |advances| <= clicks
  {
    if advances != [] {
      var n := |advances| - 1;
      assert advances[n] in advances;
      forall a <- advances[..n]
        ensures 0 <= a.click < advances[n].click
      {
        assert a in advances;
      }
      IncreasingFit(advances[..n], advances[n].click);
    }
  }

  /** Over any trace, each advance by navigation moves exactly one step on and uses up its own click, made on
      that step's target at most five seconds before; so advances never outnumber accepted clicks. */
  lemma {:induction false} AdvancesUseClicks(storage: map<string, Raw>, ops: seq<Op>)
    ensures var t := Run(Loaded(storage), ops);
            && |t.advances| <= |t.clicks|
            && (forall a <- t.advances :: AdvanceOk(t, a))
            && (forall j, k :: 0 <= j < k < |t.advances| ==> t.advances[j].click != t.advances[k].click)
  {
    RunKeepsAdvances(storage, ops);
    var t := Run(Loaded(storage), ops);
    IncreasingFit(t.advances, |t.clicks|);
  }

  /** What a render's effect does: a pending intent for the step it shows is consumed on the expected route
      within five seconds and given up after them; another pending intent is given up on a route that is
      neither the step's own nor its expected one; and only consuming moves the store. */
  predicate RouteRules(t: Tour, after: Tour, index: nat, pathname: string, now: int)
    requires index < |TOUR_STEPS|
  {
    var shown := TOUR_STEPS[index];
    var mine := t.nav.phase == Pending && t.nav.stepId == Some(shown.id) && shown.expected == Some(pathname);
    if shown.kind != Navigate then after == t
    else if mine && now - t.nav.startedAt <= 5000 then
      && after.nav == t.nav.(phase := Consumed, timer := None)
      && after.clicks == t.clicks && after.used == t.used + [|t.clicks| - 1]
      && after.store.step == (if t.store.status == Active && t.store.step == index && t.store.userId != None
                              then index + 1 else t.store.step)
    else
      && after.nav.phase == (if mine || (t.nav.phase == Pending && pathname != shown.required && Some(pathname) != shown.expected)
                             then Unarmed else t.nav.phase)
      && after.nav.stepId == t.nav.stepId && after.nav.startedAt == t.nav.startedAt
      && after == t.(nav := after.nav)
  }

  lemma RouteIsExact(t: Tour, index: nat, pathname: string, now: int)
    requires index < |TOUR_STEPS|
    ensures RouteRules(t, Step(t, RouteSeen(index, pathname, now)), index, pathname, now)
  {
  }

  lemma MoveIsLogged(t: Tour, index: nat, pathname: string, now: int)
    requires AdvancesOk(t)
    ensures var after := Step(t, RouteSeen(index, pathname, now));
            if after.store == t.store then after.advances == t.advances
            else
              && t.clicks != [] && |t.clicks| - 1 !in t.used
              && t.store.status == Active && t.store.step == index && after.store.step == index + 1
              && after.advances == t.advances + [Advance(|t.clicks| - 1, now, index, index + 1)]
  {
    if index < LENGTH {
      NextMovesByOne(t.store, index);
    }
  }

  /** A render's effect never moves the store unlogged: each such move is one step on, for the last accepted
      click, which nothing had used up before. */
  lemma {:induction false} EveryMoveIsLogged(storage: map<string, Raw>, ops: seq<Op>, index: nat, pathname: string, now: int)
    ensures var t := Run(Loaded(storage), ops);
            var after := Step(t, RouteSeen(index, pathname, now));
            after.store != t.store ==>
              && t.clicks != [] && |t.clicks| - 1 !in t.used
              && t.store.status == Active && t.store.step == index && after.store.step == index + 1
              && after.advances == t.advances + [Advance(|t.clicks| - 1, now, index, index + 1)]
  {
    RunKeepsAdvances(storage, ops);
    MoveIsLogged(Run(Loaded(storage), ops), index, pathname, now);
  }
}
