/** A rain: one sender pays many recipients in a single transaction. */
module Rain {
  import opened Sums
  import opened Wrappers

  type User = string

  const MAX_RECIPIENTS := 100

  datatype Refusal =
    | BadAmount | TooManyUsers | InsufficientCredits | OverBudget | NotEnoughMembers | TooSmall | Aborted

  /** What the recipient at position `i` of `count` gets: the last one takes the remainder. */
  function Share(total: nat, count: nat, i: nat): nat
    requires i < count
  {
    total / count + if i == count - 1 then total % count else 0
  }

  function Shares(total: nat, count: nat): seq<int>
    requires 0 < count
  {
    seq(count, i requires 0 <= i < count => Share(total, count, i))
  }

  /** Everyone once, and not the sender. */
  ghost predicate Distinct(recipients: seq<User>, sender: User) {
    && sender !in recipients
    && forall i, j :: 0 <= i < j < |recipients| ==> recipients[i] != recipients[j]
  }

  /** What is paid out to the first `i` recipients. */
  function Paid(total: nat, count: nat, i: nat): nat
    requires i <= count && 0 < count
  {
    i * (total / count) + if i == count then total % count else 0
  }

  lemma {:induction false} SharesPrefix(total: nat, count: nat, i: nat)
    requires 0 < count && i <= count
    ensures Sum(Shares(total, count)[..i]) == Paid(total, count, i)
  {
    if i > 0 {
      SharesPrefix(total, count, i - 1);
      var shares := Shares(total, count);
      assert shares[..i] == shares[..i - 1] + [shares[i - 1]];
      SumPush(shares[..i - 1], shares[i - 1]);
      assert i * (total / count) == (i - 1) * (total / count) + total / count;
    }
  }

  /** The shares come to exactly the total, and each is at least the even share, which is at least one. */
  lemma SharesAddUp(total: nat, count: nat)
    requires 1 <= count <= total
    ensures Sum(Shares(total, count)) == total
    ensures forall i :: 0 <= i < count ==> Shares(total, count)[i] >= total / count >= 1
  {
    SharesPrefix(total, count, count);
    assert Shares(total, count)[..count] == Shares(total, count);
    assert count * (total / count) + total % count == total;
    EvenShare(total, count);
  }

  lemma EvenShare(total: nat, count: nat)
    requires 0 < count
    ensures total / count < 1 <==> total < count
  {
    assert count * (total / count) + total % count == total;
    if total / count >= 1 {
      assert count * (total / count) >= count;
    }
  }

  lemma Multiples(count: nat, i: nat, base: nat)
    requires i < count
    ensures i * base + base == (i + 1) * base <= count * base
  {
    NonNegativeProduct(count - i - 1, base);
    assert count * base == (i + 1) * base + (count - i - 1) * base;
  }

  lemma NonNegativeProduct(a: nat, b: nat)
    ensures a * b >= 0
  {
  }

  lemma PaidStep(total: nat, count: nat, i: nat)
    requires 0 < count && i < count
    ensures Paid(total, count, i + 1) == Paid(total, count, i) + Share(total, count, i)
    ensures Paid(total, count, i + 1) <= total
  {
    Multiples(count, i, total / count);
    assert count * (total / count) + total % count == total;
  }

  /** `after` is `before` with the sender down by the total, each recipient up by their share and no one
      else touched. */
  ghost predicate RainedOn(
    before: map<User, nat>, after: map<User, nat>, sender: User, recipients: seq<User>, total: nat)
  {
    && after.Keys == before.Keys
    && sender in before && before[sender] == after[sender] + total
    && (forall i :: 0 <= i < |recipients| ==>
          recipients[i] in before && after[recipients[i]] == before[recipients[i]] + total / |recipients|
                                                              + if i == |recipients| - 1 then total % |recipients| else 0)
    && (forall u <- before :: u != sender && u !in recipients ==> after[u] == before[u])
  }

  /** The balances after the first `i` recipients were paid. */
  ghost predicate PartPaid(
    before: map<User, nat>, now: map<User, nat>, sender: User, recipients: seq<User>, total: nat, i: nat)
    requires i <= |recipients| && 0 < |recipients|
  {
    && now.Keys == before.Keys
    && (i > 0 ==> sender in before)
    && (sender in before ==> before[sender] == now[sender] + Paid(total, |recipients|, i))
    && (forall j :: 0 <= j < i ==>
          recipients[j] in before && now[recipients[j]] == before[recipients[j]] + Share(total, |recipients|, j))
    && (forall u <- before :: u != sender && u !in recipients[..i] ==> now[u] == before[u])
  }

  function Moved(b: map<User, nat>, sender: User, recipient: User, amount: nat): map<User, nat>
    requires sender in b && recipient in b && sender != recipient && amount <= b[sender]
  {
    b[sender := b[sender] - amount][recipient := b[recipient] + amount]
  }

  lemma PartPaidStep(
    before: map<User, nat>, now: map<User, nat>, sender: User, recipients: seq<User>, total: nat, i: nat)
    requires Distinct(recipients, sender) && i < |recipients| && PartPaid(before, now, sender, recipients, total, i)
    requires sender in now && recipients[i] in now && Share(total, |recipients|, i) <= now[sender]
    ensures PartPaid(before, Moved(now, sender, recipients[i], Share(total, |recipients|, i)), sender, recipients, total, i + 1)
  {
    hide Share;
    hide Paid;
    var after := Moved(now, sender, recipients[i], Share(total, |recipients|, i));
    PaidStep(total, |recipients|, i);
    assert recipients[i] in recipients;
    assert recipients[..i + 1] == recipients[..i] + [recipients[i]];
    assert recipients[i] !in recipients[..i];
    forall j | 0 <= j < i
      ensures recipients[j] in before && after[recipients[j]] == before[recipients[j]] + Share(total, |recipients|, j)
    {
      assert recipients[j] in recipients && recipients[j] != recipients[i];
    }
  }

  lemma PaidAll(total: nat, count: nat)
    requires 0 < count
    ensures Paid(total, count, count) == total
  {
    assert count * (total / count) + total % count == total;
  }

  /** The sender's wallet covers the total and every recipient has one. */
  ghost predicate CanRain(balances: map<User, nat>, sender: User, recipients: seq<User>, total: nat) {
    sender in balances && total <= balances[sender] && forall u <- recipients :: u in balances
  }

  /** If the next payment cannot be made, the whole rain could not. */
  lemma RefusedMeans(
    before: map<User, nat>, now: map<User, nat>, sender: User, recipients: seq<User>, total: nat, i: nat)
    requires i < |recipients| && PartPaid(before, now, sender, recipients, total, i)
    requires sender !in now || now[sender] < Share(total, |recipients|, i) || recipients[i] !in now
    ensures !CanRain(before, sender, recipients, total)
  {
    hide Share;
    hide Paid;
    PaidStep(total, |recipients|, i);
    assert recipients[i] in recipients;
  }

  lemma AllPaid(before: map<User, nat>, now: map<User, nat>, sender: User, recipients: seq<User>, total: nat)
    requires 0 < |recipients| && PartPaid(before, now, sender, recipients, total, |recipients|)
    ensures RainedOn(before, now, sender, recipients, total)
    ensures CanRain(before, sender, recipients, total)
  {
    PaidAll(total, |recipients|);
    assert recipients[..|recipients|] == recipients;
    forall u <- recipients
      ensures u in before
    {
      var j :| 0 <= j < |recipients| && recipients[j] == u;
    }
  }

  lemma PartPaidStart(before: map<User, nat>, sender: User, recipients: seq<User>, total: nat)
    requires 0 < |recipients|
    ensures PartPaid(before, before, sender, recipients, total, 0)
  {
    assert 0 * (total / |recipients|) == 0;
  }

  lemma MovedKeepsSum(b: map<User, nat>, sender: User, recipient: User, amount: nat)
    requires sender in b && recipient in b && sender != recipient && amount <= b[sender]
    ensures MapSum(Moved(b, sender, recipient, amount)) == MapSum(b)
  {
    hide MapSum;
    var debited := b[sender := b[sender] - amount];
    MapSumSet(b, sender, b[sender] - amount);
    MapSumSet(debited, recipient, b[recipient] + amount);
  }

  class Wallets {
    var balances: map<User, nat>

    /** Fails on a non-positive amount, a missing wallet or a balance that does not cover the amount. */
    method Debit(user: User, amount: int) returns (ok: bool)
      modifies this
      ensures ok <==> amount > 0 && user in old(balances) && old(balances)[user] >= amount
      ensures balances == if ok then old(balances)[user := old(balances)[user] - amount] else old(balances)
    {
      if amount <= 0 || user !in balances || balances[user] < amount {
        return false;
      }
      balances := balances[user := balances[user] - amount];
      return true;
    }

    method Credit(user: User, amount: int) returns (ok: bool)
      modifies this
      ensures ok <==> amount > 0 && user in old(balances)
      ensures balances == if ok then old(balances)[user := old(balances)[user] + amount] else old(balances)
    {
      if amount <= 0 || user !in balances {
        return false;
      }
      balances := balances[user := balances[user] + amount];
      return true;
    }

    /** One turn of the loop: a debit and a credit. */
    method PayOne(sender: User, recipient: User, amount: nat) returns (ok: bool)
      requires 0 < amount && sender != recipient
      modifies this
      ensures ok <==> sender in old(balances) && amount <= old(balances)[sender] && recipient in old(balances)
      ensures ok ==> balances == Moved(old(balances), sender, recipient, amount)
    {
      ok := Debit(sender, amount);
      if ok {
        ok := Credit(recipient, amount);
      }
    }

    /** The transaction: it commits exactly when the sender's wallet covers the total and every recipient has
        a wallet, and an aborted one leaves no trace. */
    method Distribute(sender: User, recipients: seq<User>, total: nat) returns (ok: bool)
      requires 1 <= |recipients| <= total && Distinct(recipients, sender)
      modifies this
      ensures ok <==> CanRain(old(balances), sender, recipients, total)
      ensures ok ==> RainedOn(old(balances), balances, sender, recipients, total)
      ensures ok ==> MapSum(balances) == MapSum(old(balances))
      ensures !ok ==> balances == old(balances)
    {
      hide PartPaid;
      hide CanRain;
      hide RainedOn;
      var count := |recipients|;
      var baseAmount := total / count;
      var remainder := total % count;
      var before := balances;
      PartPaidStart(before, sender, recipients, total);
      for i := 0 to count
        invariant PartPaid(before, balances, sender, recipients, total, i)
        invariant MapSum(balances) == MapSum(before)
      {
        var amount := baseAmount + if i == count - 1 then remainder else 0;
        ghost var start := balances;
        SharesAddUp(total, count);
        assert amount == Share(total, count, i) == Shares(total, count)[i];
        assert recipients[i] in recipients;
        var paid := PayOne(sender, recipients[i], amount);
        if !paid {
          RefusedMeans(before, start, sender, recipients, total, i);
          balances := before;
          return false;
        }
        PartPaidStep(before, start, sender, recipients, total, i);
        MovedKeepsSum(start, sender, recipients[i], amount);
      }
      AllPaid(before, balances, sender, recipients, total);
      return true;
    }

    /** The whole command, with the remaining tip budget and the shuffled active members as it found them. */
    method HandleRain(sender: User, total: int, count: int, budget: int, shuffled: seq<User>) returns (r: Option<Refusal>)
      requires Distinct(shuffled, sender)
      modifies this
      ensures r.None? ==>
                && 1 <= count <= 100 && count <= total <= budget && count <= |shuffled|
                && RainedOn(old(balances), balances, sender, shuffled[..count], total)
                && MapSum(balances) == MapSum(old(balances))
      ensures r.Some? ==> balances == old(balances)
      ensures var covered := sender in old(balances) && total <= old(balances)[sender];
              && (r == Some(BadAmount) <==> total < 1 || count < 1)
              && (r == Some(TooManyUsers) <==> 1 <= total && 100 < count)
              && (r == Some(InsufficientCredits) <==> 1 <= total && 1 <= count <= 100 && !covered)
              && (r == Some(OverBudget) <==> 1 <= total && 1 <= count <= 100 && covered && budget < total)
              && (r == Some(NotEnoughMembers) <==> 1 <= total <= budget && 1 <= count <= 100 && covered && |shuffled| < count)
              && (r == Some(TooSmall) <==> 1 <= total <= budget && total < count <= 100 && covered && count <= |shuffled|)
              && (r == Some(Aborted) <==> 1 <= count <= 100 && count <= total <= budget && covered && count <= |shuffled|
                                          && exists i :: 0 <= i < count && shuffled[i] !in old(balances))
    {
      if total < 1 || count < 1 { return Some(BadAmount); }
      if count > MAX_RECIPIENTS { return Some(TooManyUsers); }
      if sender !in balances || balances[sender] < total { return Some(InsufficientCredits); }
      if total > budget { return Some(OverBudget); }
      if |shuffled| < count { return Some(NotEnoughMembers); }
      var selected := shuffled[..count];
      EvenShare(total, count);
      if total / count < 1 { return Some(TooSmall); }
      var ok := Distribute(sender, selected, total);
      assert forall i :: 0 <= i < count ==> shuffled[i] == selected[i] && selected[i] in selected;
      return if ok then None else Some(Aborted);
    }
  }
}
