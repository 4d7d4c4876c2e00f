/** The tip budget: a pruned, expiring set of recent tips that stands in for the whole tip history. */
module TipWindow {
  import opened Sums

  const WINDOW_MS := 48 * 60 * 60 * 1000
  const EXPIRY_MS := (48 * 60 * 60 + 3600) * 1000
  /** How much longer the key lives than the window. */
  const BUFFER_MS := EXPIRY_MS - WINDOW_MS

  datatype Entry = Entry(at: nat, amount: nat)

  /** A sorted set in the store. It vanishes, expiry and all, when it becomes empty or its expiry passes. */
  datatype Key = Absent | Present(entries: seq<Entry>, expiry: Deadline) {
    function Entries(): seq<Entry> { if Absent? then [] else entries }
  }

  datatype Deadline = Never | At(time: int)

  /** The entries scored above the cutoff. */
  function After(es: seq<Entry>, cutoff: int): (r: seq<Entry>)
    ensures |r| <= |es|
    ensures forall e <- r :: e in es && e.at > cutoff
  {
    if es == [] then []
    else
      var n := |es| - 1;
      var front := After(es[..n], cutoff);
      if es[n].at > cutoff then front + [es[n]] else front
  }

  function Amounts(es: seq<Entry>): seq<int> { seq(|es|, i requires 0 <= i < |es| => es[i].amount) }

  /** Everything tipped since the cutoff. */
  function TippedSince(es: seq<Entry>, cutoff: int): int { Sum(Amounts(After(es, cutoff))) }

  // ---- commands of the store ----

  /** What the store holds when a command arrives. */
  function Live(key: Key, time: int): Key {
    if key.Present? && key.expiry.At? && key.expiry.time <= time then Absent else key
  }

  function Holding(entries: seq<Entry>, expiry: Deadline): Key { if entries == [] then Absent else Present(entries, expiry) }

  function RemoveUpTo(key: Key, cutoff: int): Key {
    if key.Absent? then Absent else Holding(After(key.entries, cutoff), key.expiry)
  }

  function Add(key: Key, e: Entry): Key {
    if key.Absent? then Present([e], Never) else key.(entries := key.entries + [e])
  }

  function Expire(key: Key, deadline: int): Key {
    if key.Absent? then Absent else key.(expiry := At(deadline))
  }

  /** The entries scored at or above the cutoff. */
  function RangeFrom(key: Key, cutoff: int): seq<Entry> { After(key.Entries(), cutoff - 1) }

  // ---- the two steps of the service ----

  /** When an operation read its clock, and when its commands reached the store. */
  datatype Timing = Timing(now: nat, first: nat, second: nat)

  function Pruned(key: Key, t: Timing): Key { Live(RemoveUpTo(Live(key, t.first), t.now - WINDOW_MS), t.second) }

  function Budget(key: Key, t: Timing, balance: int): int {
    Max(0, balance / 4 - Sum(Amounts(RangeFrom(Pruned(key, t), t.now - WINDOW_MS))))
  }

  function Recorded(key: Key, t: Timing, amount: nat): Key {
    Expire(Live(Add(Live(key, t.first), Entry(t.now, amount)), t.second), t.second + EXPIRY_MS)
  }

  // ---- runs ----

  /** A sender's state: `tips` is every tip and rain ever recorded, `clock` the time of the last command. */
  datatype State = State(balance: nat, key: Key, tips: seq<Entry>, clock: nat)

  /** An operation of one sender. `Spend` is a tip or a rain that no other check refuses; `Drain` is any
      other way credits leave the wallet. */
  datatype Op =
    | Query(check: Timing)
    | Spend(amount: nat, check: Timing, record: Timing)
    | Drain(spent: nat)

  const START := State(0, Absent, [], 0)

  predicate Accepted(s: State, op: Op) {
    op.Spend? && 1 <= op.amount <= s.balance && op.amount <= Budget(s.key, op.check, s.balance)
  }

  function Step(s: State, op: Op): State {
    match op
    case Query(t) => s.(key := Pruned(s.key, t), clock := t.second)
    case Spend(amount, check, record) =>
      var key := Pruned(s.key, check);
      if amount > s.balance then s
      else if Accepted(s, op)
      then State(s.balance - amount, Recorded(key, record, amount), s.tips + [Entry(record.now, amount)], record.second)
      else s.(key := key, clock := check.second)
    case Drain(spent) => s.(balance := if spent <= s.balance then s.balance - spent else s.balance)
  }

  method TotalTipped(entries: seq<Entry>) returns (totalTipped: int)
    ensures totalTipped == Sum(Amounts(entries))
  {
    totalTipped := 0;
    for i := 0 to |entries|
      invariant totalTipped == Sum(Amounts(entries[..i]))
    {
      assert Amounts(entries[..i + 1]) == Amounts(entries[..i]) + [entries[i].amount];
      SumPush(Amounts(entries[..i]), entries[i].amount);
      totalTipped := totalTipped + entries[i].amount;
    }
    assert entries[..|entries|] == entries;
  }

  class TipBudget {
    var key: Key
    var balance: nat
    ghost var tips: seq<Entry>
    ghost var clock: nat

    ghost function Abstract(): State
      reads this
    {
      State(balance, key, tips, clock)
    }

    /** Prune, read the rest of the window and add it up. */
    method GetTipBudget(t: Timing, knownBalance: int) returns (remaining: int)
      modifies this`key
      ensures remaining == Budget(old(key), t, knownBalance)
      ensures key == Pruned(old(key), t)
    {
      var cutoff := t.now - WINDOW_MS;
      var maxTippable := knownBalance / 4;
      key := RemoveUpTo(Live(key, t.first), cutoff);
      key := Live(key, t.second);
      var totalTipped := TotalTipped(RangeFrom(key, cutoff));
      remaining := Max(0, maxTippable - totalTipped);
    }

    method RecordTipInWindow(t: Timing, amount: nat)
      modifies this`key
      ensures key == Recorded(old(key), t, amount)
      ensures key.Present? ==> key.expiry == At(t.second + 176400000)
    {
      key := Add(Live(key, t.first), Entry(t.now, amount));
      key := Expire(Live(key, t.second), t.second + EXPIRY_MS);
    }

    /** A tip or a rain no other check refuses: check the balance and the budget, debit, record. */
    method Spend(amount: nat, check: Timing, record: Timing) returns (sent: bool)
      requires 1 <= amount
      modifies this
      ensures sent == Accepted(old(Abstract()), Op.Spend(amount, check, record))
      ensures balance == if sent then old(balance) - amount else old(balance)
      ensures tips == if sent then old(tips) + [Entry(record.now, amount)] else old(tips)
      ensures Abstract() == Step(old(Abstract()), Op.Spend(amount, check, record))
    {
      if balance < amount {
        return false;
      }
      var remaining := GetTipBudget(check, balance);
      clock := check.second;
      if amount > remaining {
        return false;
      }
      balance := balance - amount;
      RecordTipInWindow(record, amount);
      tips, clock := tips + [Entry(record.now, amount)], record.second;
      return true;
    }
  }

  /** The clock never goes back and no operation takes as long as the expiry outlives the window. */
  predicate Timely(clock: nat, op: Op) {
    match op
    case Query(t) => clock <= t.now <= t.first <= t.second < t.now + BUFFER_MS
    case Spend(_, c, r) => clock <= c.now <= c.first <= c.second <= r.now <= r.first <= r.second < c.now + BUFFER_MS
    case Drain(_) => true
  }

  function Final(s: State, ops: seq<Op>): State {
    if ops == [] then s else Step(Final(s, ops[..|ops| - 1]), ops[|ops| - 1])
  }

  ghost predicate Serial(s: State, ops: seq<Op>) {
    forall i :: 0 <= i < |ops| ==> Timely(Final(s, ops[..i]).clock, ops[i])
  }

  /** A wallet with no tips yet. */
  ghost predicate Fresh(s: State) { s.key == Absent && s.tips == [] }

  // ---- the set stands in for the history ----

  lemma {:induction false} AfterAfter(es: seq<Entry>, a: int, b: int)
    ensures After(After(es, a), b) == After(es, Max(a, b))
  {
    if es != [] {
      var n := |es| - 1;
      AfterAfter(es[..n], a, b);
      var front := After(es[..n], a);
      assert (front + [es[n]])[..|front|] == front;
    }
  }

  lemma {:induction false} AfterNothing(es: seq<Entry>, cutoff: int)
    requires forall e <- es :: e.at <= cutoff
    ensures After(es, cutoff) == []
  {
    if es != [] {
      AfterNothing(es[..|es| - 1], cutoff);
      assert es[|es| - 1] in es;
    }
  }

  lemma AfterPush(es: seq<Entry>, e: Entry, cutoff: int)
    ensures After(es + [e], cutoff) == if e.at > cutoff then After(es, cutoff) + [e] else After(es, cutoff)
  {
    assert (es + [e])[..|es|] == es;
  }

  predicate Past(tips: seq<Entry>, clock: int) { forall e <- tips :: e.at <= clock }

  predicate Outlives(expiry: int, tips: seq<Entry>) { forall e <- tips :: e.at + EXPIRY_MS <= expiry }

  /** Between operations: the set and the history agree on the window of the clock, and the key outlives
      the window of everything recorded. */
  ghost predicate Faithful(s: State) {
    && After(s.key.Entries(), s.clock - WINDOW_MS) == After(s.tips, s.clock - WINDOW_MS)
    && Past(s.tips, s.clock)
    && (s.key.Present? ==> s.key.entries != [] && s.key.expiry.At? && Outlives(s.key.expiry.time, s.tips))
  }

  /** A later cutoff finds the same in the set as in the history. */
  lemma SameAfter(s: State, cutoff: int)
    requires Faithful(s) && s.clock - WINDOW_MS <= cutoff
    ensures After(s.key.Entries(), cutoff) == After(s.tips, cutoff)
  {
    AfterAfter(s.key.Entries(), s.clock - WINDOW_MS, cutoff);
    AfterAfter(s.tips, s.clock - WINDOW_MS, cutoff);
  }

  /** Whether or not the key has expired, pruning leaves exactly the history of the window. */
  lemma PrunedEntries(s: State, t: Timing)
    requires Faithful(s) && s.clock <= t.now <= t.first <= t.second < t.now + BUFFER_MS
    ensures Pruned(s.key, t).Entries() == After(s.tips, t.now - WINDOW_MS)
    ensures var k := Pruned(s.key, t); k.Present? ==> s.key.Present? && k.expiry == s.key.expiry && k.entries != []
  {
    var cutoff := t.now - WINDOW_MS;
    if s.key.Present? && s.key.expiry.time <= t.second {
      AfterNothing(s.tips, cutoff);
    }
    SameAfter(s, cutoff);
  }

  lemma PruneFaithful(s: State, t: Timing)
    requires Faithful(s) && s.clock <= t.now <= t.first <= t.second < t.now + BUFFER_MS
    ensures Faithful(s.(key := Pruned(s.key, t), clock := t.second))
    ensures var k := Pruned(s.key, t); k.Present? ==> k.expiry.At? && t.now + BUFFER_MS < k.expiry.time
  {
    hide Pruned;
    hide After;
    hide Outlives;
    PrunedEntries(s, t);
    AfterAfter(s.tips, t.now - WINDOW_MS, t.second - WINDOW_MS);
    if Pruned(s.key, t).Present? {
      OutlivesRecent(s.tips, s.key.expiry.time, t.now - WINDOW_MS);
    }
  }

  lemma OutlivesRecent(tips: seq<Entry>, expiry: int, cutoff: int)
    requires Outlives(expiry, tips) && After(tips, cutoff) != []
    ensures cutoff + EXPIRY_MS < expiry
  {
    var e := After(tips, cutoff)[0];
    assert e in After(tips, cutoff);
  }

  lemma RecordedKey(key: Key, t: Timing, amount: nat)
    requires t.first <= t.second
    requires key.Present? ==> key.expiry.At? && t.second < key.expiry.time
    ensures Recorded(key, t, amount) == Present(key.Entries() + [Entry(t.now, amount)], At(t.second + EXPIRY_MS))
  {
  }

  lemma PastPush(tips: seq<Entry>, e: Entry, clock: int, time: int)
    requires Past(tips, clock) && clock <= time && e.at <= time
    ensures Past(tips + [e], time) && Outlives(time + EXPIRY_MS, tips + [e])
  {
  }

  lemma RecordFaithful(s: State, t: Timing, amount: nat)
    requires Faithful(s) && s.clock <= t.now <= t.first <= t.second
    requires s.key.Present? ==> t.second < s.key.expiry.time
    ensures Faithful(State(s.balance, Recorded(s.key, t, amount), s.tips + [Entry(t.now, amount)], t.second))
  {
    hide Recorded;
    hide After;
    hide Past;
    hide Outlives;
    var e, cutoff := Entry(t.now, amount), t.second - WINDOW_MS;
    RecordedKey(s.key, t, amount);
    SameAfter(s, cutoff);
    AfterPush(s.key.Entries(), e, cutoff);
    AfterPush(s.tips, e, cutoff);
    PastPush(s.tips, e, s.clock, t.second);
  }

  lemma {:induction false} SpendFaithful(s: State, amount: nat, check: Timing, record: Timing)
    requires Faithful(s) && Timely(s.clock, Spend(amount, check, record))
    ensures Faithful(Step(s, Spend(amount, check, record)))
  {
    hide Pruned, Recorded, Budget, After, Past, Outlives;
    PruneFaithful(s, check);
    if Accepted(s, Spend(amount, check, record)) {
      var pruned := s.(key := Pruned(s.key, check), clock := check.second, balance := s.balance - amount);
      RecordFaithful(pruned, record, amount);
    }
  }

  lemma {:induction false} RunFaithful(s: State, ops: seq<Op>)
    requires Fresh(s) && Serial(s, ops)
    ensures Faithful(Final(s, ops))
  {
    if ops != [] {
      var n := |ops| - 1;
      SerialPrefix(s, ops, n);
      RunFaithful(s, ops[..n]);
      assert Timely(Final(s, ops[..n]).clock, ops[n]);
      hide Pruned, Recorded, Budget, After, Past, Outlives;
      match ops[n] {
        case Query(t) => PruneFaithful(Final(s, ops[..n]), t);
        case Spend(amount, check, record) => SpendFaithful(Final(s, ops[..n]), amount, check, record);
        case Drain(_) =>
      }
    }
  }

  lemma SerialPrefix(s: State, ops: seq<Op>, n: nat)
    requires Serial(s, ops) && n <= |ops|
    ensures Serial(s, ops[..n])
  {
    forall i | 0 <= i < n
      ensures Timely(Final(s, ops[..n][..i]).clock, ops[..n][i])
    {
      assert ops[..n][..i] == ops[..i];
    }
  }

  lemma BudgetExact(s: State, t: Timing)
    requires Faithful(s) && s.clock <= t.now <= t.first <= t.second < t.now + BUFFER_MS
    ensures Budget(s.key, t, s.balance) == Max(0, s.balance / 4 - TippedSince(s.tips, t.now - WINDOW_MS))
  {
    hide Pruned;
    hide After;
    hide Amounts;
    hide Sum;
    PrunedEntries(s, t);
    AfterAfter(s.tips, t.now - WINDOW_MS, t.now - WINDOW_MS - 1);
  }

  // ---- the bound ----

  /** The entries up to and including a time. */
  function Until(es: seq<Entry>, end: int): seq<Entry> {
    if es == [] then []
    else
      var n := |es| - 1;
      var front := Until(es[..n], end);
      if es[n].at <= end then front + [es[n]] else front
  }

  /** What was tipped in the half-open window of 48 hours that ends at `end`. */
  function TippedIn(tips: seq<Entry>, end: int): int { TippedSince(Until(tips, end), end - WINDOW_MS) }

  /** The balance just before each entry of `tips` was spent: what the check of that tip saw. */
  function BalancesSeen(s: State, ops: seq<Op>): (r: seq<nat>)
    ensures |r| + |s.tips| == |Final(s, ops).tips|
  {
    if ops == [] then []
    else
      var n := |ops| - 1;
      var before := Final(s, ops[..n]);
      BalancesSeen(s, ops[..n]) + if Accepted(before, ops[n]) then [before.balance] else []
  }

  lemma {:induction false} UntilAll(es: seq<Entry>, end: int)
    requires forall e <- es :: e.at <= end
    ensures Until(es, end) == es
  {
    if es != [] {
      UntilAll(es[..|es| - 1], end);
      assert es[|es| - 1] in es;
    }
  }

  lemma UntilPush(es: seq<Entry>, e: Entry, end: int)
    ensures Until(es + [e], end) == if e.at <= end then Until(es, end) + [e] else Until(es, end)
  {
    assert (es + [e])[..|es|] == es;
  }

  lemma AmountsPush(es: seq<Entry>, e: Entry)
    ensures Sum(Amounts(es + [e])) == Sum(Amounts(es)) + e.amount
  {
    assert Amounts(es + [e]) == Amounts(es) + [e.amount];
    SumPush(Amounts(es), e.amount);
  }

  /** A later cutoff leaves no more. */
  lemma {:induction false} LaterCutoffLess(es: seq<Entry>, a: int, b: int)
    requires a <= b
    ensures TippedSince(es, b) <= TippedSince(es, a)
  {
    if es != [] {
      var n := |es| - 1;
      LaterCutoffLess(es[..n], a, b);
      AmountsPush(After(es[..n], a), es[n]);
      AmountsPush(After(es[..n], b), es[n]);
    }
  }

  /** Balances never rise, and no window holds more than a quarter of the balance any of its tips saw. */
  ghost predicate Bounded(s: State, seen: seq<nat>) {
    && |seen| == |s.tips|
    && (forall b <- seen :: s.balance <= b)
    && (forall end: int, i :: 0 <= i < |seen| && end - WINDOW_MS < s.tips[i].at <= end ==>
          TippedIn(s.tips, end) <= seen[i] / 4)
  }

  /** A window that reaches an accepted amount still holds at most a quarter of the balance. */
  lemma AcceptedFits(s: State, op: Op, end: int)
    requires Faithful(s) && Timely(s.clock, op) && Accepted(s, op)
    requires end - WINDOW_MS < op.record.now <= end
    ensures TippedIn(s.tips + [Entry(op.record.now, op.amount)], end) <= s.balance / 4
  {
    hide Budget;
    hide After;
    hide Until;
    hide Amounts;
    hide Sum;
    var e := Entry(op.record.now, op.amount);
    UntilAll(s.tips + [e], end) by {
      PastPush(s.tips, e, s.clock, end);
    }
    BudgetExact(s, op.check);
    LaterCutoffLess(s.tips, op.check.now - WINDOW_MS, end - WINDOW_MS);
    AfterPush(s.tips, e, end - WINDOW_MS);
    AmountsPush(After(s.tips, end - WINDOW_MS), e);
  }

  /** One window and one tip of the run with one more accepted amount. */
  lemma WindowBounded(s: State, op: Op, seen: seq<nat>, end: int, i: nat)
    requires Faithful(s) && Timely(s.clock, op) && Bounded(s, seen) && Accepted(s, op)
    requires var after := s.tips + [Entry(op.record.now, op.amount)];
             i < |after| && end - WINDOW_MS < after[i].at <= end
    ensures TippedIn(s.tips + [Entry(op.record.now, op.amount)], end) <= (seen + [s.balance])[i] / 4
  {
    hide TippedIn, Budget, Pruned, After;
    var e := Entry(op.record.now, op.amount);
    var after, more := s.tips + [e], seen + [s.balance];
    if end < e.at {
      assert i < |seen| && after[i] == s.tips[i] && more[i] == seen[i];
      TippedBefore(s.tips, e, end);
    } else {
      PastPush(s.tips, e, s.clock, e.at);
      assert after[i] in after;
      AcceptedFits(s, op, end);
      assert more[i] in more;
    }
  }

  lemma StepBounded(s: State, op: Op, seen: seq<nat>)
    requires Faithful(s) && Timely(s.clock, op) && Bounded(s, seen)
    ensures Bounded(Step(s, op), seen + if Accepted(s, op) then [s.balance] else [])
  {
    hide TippedIn, Budget, Pruned, Recorded, Faithful;
    if Accepted(s, op) {
      var after, more := s.tips + [Entry(op.record.now, op.amount)], seen + [s.balance];
      forall end: int, i | 0 <= i < |more| && end - WINDOW_MS < after[i].at <= end
        ensures TippedIn(after, end) <= more[i] / 4
      {
        WindowBounded(s, op, seen, end, i);
      }
    }
  }

  lemma TippedBefore(tips: seq<Entry>, e: Entry, end: int)
    requires end < e.at
    ensures TippedIn(tips + [e], end) == TippedIn(tips, end)
  {
    UntilPush(tips, e, end);
  }

  lemma {:induction false} RunBounded(s: State, ops: seq<Op>)
    requires Fresh(s) && Serial(s, ops)
    ensures Bounded(Final(s, ops), BalancesSeen(s, ops))
  {
    if ops != [] {
      var n := |ops| - 1;
      SerialPrefix(s, ops, n);
      RunBounded(s, ops[..n]);
      RunFaithful(s, ops[..n]);
      StepBounded(Final(s, ops[..n]), ops[n], BalancesSeen(s, ops[..n]));
    }
  }

  // ---- the results, in terms of the history alone ----

  /** The amounts recorded after one time and up to another. */
  function Tipped(es: seq<Entry>, start: int, end: int): nat {
    if es == [] then 0
    else
      var e := es[|es| - 1];
      Tipped(es[..|es| - 1], start, end) + if start < e.at <= end then e.amount else 0
  }

  lemma {:induction false} TippedInIsTipped(es: seq<Entry>, end: int)
    ensures TippedIn(es, end) == Tipped(es, end - WINDOW_MS, end)
  {
    if es != [] {
      var n := |es| - 1;
      TippedInIsTipped(es[..n], end);
      AfterPush(Until(es[..n], end), es[n], end - WINDOW_MS);
      AmountsPush(After(Until(es[..n], end), end - WINDOW_MS), es[n]);
    }
  }

  lemma {:induction false} TippedSinceIsTipped(es: seq<Entry>, cutoff: int, end: int)
    requires forall e <- es :: e.at <= end
    ensures TippedSince(es, cutoff) == Tipped(es, cutoff, end)
  {
    if es != [] {
      var n := |es| - 1;
      assert es[n] in es;
      TippedSinceIsTipped(es[..n], cutoff, end);
      AmountsPush(After(es[..n], cutoff), es[n]);
    }
  }

  /** After any serial run the budget is the quarter of the balance less everything recorded in the last 48
      hours, although the set has been pruned and its key may have expired. */
  lemma {:induction false} BudgetSeesWholeHistory(s: State, ops: seq<Op>, t: Timing)
    requires Fresh(s) && Serial(s, ops + [Query(t)])
    ensures var f := Final(s, ops);
            Budget(f.key, t, f.balance) == Max(0, f.balance / 4 - Tipped(f.tips, t.now - 172800000, t.now))
  {
    hide Budget, TippedSince, Final;
    var all, f := ops + [Query(t)], Final(s, ops);
    SerialPrefix(s, all, |ops|);
    assert all[..|ops|] == ops && all[|ops|] == Query(t);
    assert Timely(Final(s, all[..|ops|]).clock, all[|ops|]);
    RunFaithful(s, ops);
    BudgetExact(f, t);
    TippedSinceIsTipped(f.tips, t.now - WINDOW_MS, t.now);
  }

  /** After any serial run an amount is accepted exactly when the wallet covers it and the last 48 hours,
      this amount included, stay within a quarter of the balance. */
  lemma {:induction false} AcceptedIff(s: State, ops: seq<Op>, amount: nat, check: Timing, record: Timing)
    requires Fresh(s) && Serial(s, ops + [Spend(amount, check, record)]) && 1 <= amount
    ensures var f := Final(s, ops);
            Accepted(f, Spend(amount, check, record)) <==>
              amount <= f.balance && amount + Tipped(f.tips, check.now - 172800000, check.now) <= f.balance / 4
  {
    hide Budget, TippedSince, Final;
    var spend, f := Spend(amount, check, record), Final(s, ops);
    var all := ops + [spend];
    SerialPrefix(s, all, |ops|);
    assert all[..|ops|] == ops && all[|ops|] == spend;
    assert Timely(Final(s, all[..|ops|]).clock, all[|ops|]);
    RunFaithful(s, ops);
    BudgetExact(f, check);
    TippedSinceIsTipped(f.tips, check.now - WINDOW_MS, check.now);
  }

  /** The balance seen by the operation at `k` is listed with the entry it recorded. */
  lemma {:induction false} SeenAt(s: State, ops: seq<Op>, k: nat)
    requires Fresh(s) && k < |ops| && Accepted(Final(s, ops[..k]), ops[k])
    ensures var i := |Final(s, ops[..k]).tips|;
            && i < |BalancesSeen(s, ops)| && BalancesSeen(s, ops)[i] == Final(s, ops[..k]).balance
            && Final(s, ops).tips[i] == Entry(ops[k].record.now, ops[k].amount)
  {
    hide Budget;
    var n := |ops| - 1;
    if k < n {
      assert ops[..n][..k] == ops[..k];
      SeenAt(s, ops[..n], k);
    }
  }

  /** In a serial run without incoming credits, what is recorded in any 48 hours comes to at most a quarter of
      the balance before any tip or rain recorded in them, the first included. */
  lemma {:induction false} WindowStaysWithinQuarter(s: State, ops: seq<Op>, end: int, k: nat)
    requires Fresh(s) && Serial(s, ops)
    requires k < |ops| && Accepted(Final(s, ops[..k]), ops[k]) && end - 172800000 < ops[k].record.now <= end
    ensures Tipped(Final(s, ops).tips, end - 172800000, end) <= Final(s, ops[..k]).balance / 4
  {
    RunBounded(s, ops);
    SeenAt(s, ops, k);
    TippedInIsTipped(Final(s, ops).tips, end);
  }

  /** What left the wallet otherwise. */
  function Drained(s: State, ops: seq<Op>): nat {
    if ops == [] then 0
    else
      var n := |ops| - 1;
      Drained(s, ops[..n]) + if ops[n].Drain? && ops[n].spent <= Final(s, ops[..n]).balance then ops[n].spent else 0
  }

  /** Every recorded credit left the wallet: balance, tips and rains, and other spending add up. */
  lemma {:induction false} SpendingAddsUp(s: State, ops: seq<Op>)
    requires Fresh(s)
    ensures Final(s, ops).balance + Sum(Amounts(Final(s, ops).tips)) + Drained(s, ops) == s.balance
  {
    hide Budget, Pruned, Recorded;
    if ops == [] {
      assert Amounts(s.tips) == [];
    } else {
      var n := |ops| - 1;
      var before := Final(s, ops[..n]);
      SpendingAddsUp(s, ops[..n]);
      if Accepted(before, ops[n]) {
        AmountsPush(before.tips, Entry(ops[n].record.now, ops[n].amount));
      }
    }
  }

  /** The window has to be open at its start: two tips exactly 48 hours apart may exceed the quarter. */
  lemma ClosedWindowExceeds()
    ensures var s := START.(balance := 100);
            var later := WINDOW_MS;
            var ops := [Spend(25, Timing(0, 0, 0), Timing(0, 0, 0)),
                        Spend(18, Timing(later, later, later), Timing(later, later, later))];
            && Serial(s, ops)
            && Final(s, ops).tips == [Entry(0, 25), Entry(later, 18)]
            && Sum(Amounts(Final(s, ops).tips)) > s.balance / 4
  {
    var s, later := START.(balance := 100), WINDOW_MS;
    var zero, end := Timing(0, 0, 0), Timing(later, later, later);
    var a, b := Spend(25, zero, zero), Spend(18, end, end);
    var ops := [a, b];
    assert ops[..0] == [] && ops[..1] == [a] && ops[..2] == ops;
    assert [a][..0] == [];
    assert Amounts([]) == [];
    assert Accepted(s, a);
    var s1 := Step(s, a);
    assert s1 == State(75, Present([Entry(0, 25)], At(EXPIRY_MS)), [Entry(0, 25)], 0);
    assert After([Entry(0, 25)], 0) == [];
    assert Accepted(s1, b);
    assert Final(s, [a]) == s1;
    AmountsPush([Entry(0, 25)], Entry(later, 18));
    AmountsPush([], Entry(0, 25));
    assert [Entry(0, 25)] + [Entry(later, 18)] == [Entry(0, 25), Entry(later, 18)];
  }
}
