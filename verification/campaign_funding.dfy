/** How much of a cancelled campaign's pool may be refunded, judged against its wallet ledger. */
module CampaignFunding {
  import opened Wrappers
  import opened Sums

  type UserId = nat

  datatype Kind = SpendCreate | RefundCancel

  /** A wallet ledger row linked to the campaign. */
  datatype Entry = Entry(kind: Kind, completed: bool, amount: int, user: UserId)

  datatype Inconsistent = Inconsistent

  function OfKind(ledger: seq<Entry>, kind: Kind): seq<Entry> {
    if ledger == [] then []
    else
      var e := ledger[|ledger| - 1];
      OfKind(ledger[..|ledger| - 1], kind) + if e.kind == kind then [e] else []
  }

  function Amounts(rows: seq<Entry>): seq<int> {
    seq(|rows|, i requires 0 <= i < |rows| => rows[i].amount)
  }

  /** Credits debited to fund the campaign, and credits already refunded. */
  function Funded(ledger: seq<Entry>): int { -Sum(Amounts(OfKind(ledger, SpendCreate))) }

  function Refunded(ledger: seq<Entry>): int { Sum(Amounts(OfKind(ledger, RefundCancel))) }

  predicate SoundFunding(rows: seq<Entry>, owner: UserId) {
    forall i :: 0 <= i < |rows| ==> rows[i].completed && rows[i].amount < 0 && rows[i].user == owner
  }

  predicate SoundRefunds(rows: seq<Entry>, owner: UserId) {
    forall i :: 0 <= i < |rows| ==> rows[i].completed && rows[i].amount > 0 && rows[i].user == owner
  }

  /** The refund a cancellation may pay: None is a ledger that needs manual review. A campaign without any
      funding row is refunded nothing; otherwise fee, past refunds and this one must fit in the funding. */
  function Refundable(ledger: seq<Entry>, owner: UserId, fee: int, requested: int): Option<int> {
    if requested < 0 || fee < 0 then None
    else if !SoundFunding(OfKind(ledger, SpendCreate), owner) || !SoundRefunds(OfKind(ledger, RefundCancel), owner) then None
    else if OfKind(ledger, SpendCreate) == [] then
      if OfKind(ledger, RefundCancel) == [] then Some(0) else None
    else if Refunded(ledger) + requested + fee <= Funded(ledger) then Some(requested)
    else None
  }

  // ---- the same rule on the rows as they are ----

  /** What the ledger rows of one kind add up to. */
  function Flow(ledger: seq<Entry>, kind: Kind): int {
    if ledger == [] then 0
    else Flow(ledger[1..], kind) + if ledger[0].kind == kind then ledger[0].amount else 0
  }

  predicate HasFunding(ledger: seq<Entry>) { exists i :: 0 <= i < |ledger| && ledger[i].kind == SpendCreate }

  /** Every row is completed, in the owner's wallet and of the right sign, and refunds, this one and the fee
      fit into the funding; without any funding there may be no refund on the books either. */
  predicate Payable(ledger: seq<Entry>, owner: UserId, fee: int, requested: int) {
    && requested >= 0 && fee >= 0
    && (forall i :: 0 <= i < |ledger| ==>
          && ledger[i].completed && ledger[i].user == owner
          && (if ledger[i].kind == SpendCreate then ledger[i].amount < 0 else ledger[i].amount > 0))
    && if HasFunding(ledger) then Flow(ledger, RefundCancel) + requested + fee <= -Flow(ledger, SpendCreate)
       else forall i :: 0 <= i < |ledger| ==> ledger[i].kind != RefundCancel
  }

  lemma {:induction false} FlowSplit(first: seq<Entry>, more: seq<Entry>, kind: Kind)
    ensures Flow(first + more, kind) == Flow(first, kind) + Flow(more, kind)
  {
    if first == [] {
      assert first + more == more;
    } else {
      assert (first + more)[1..] == first[1..] + more;
      FlowSplit(first[1..], more, kind);
    }
  }

  lemma {:induction false} FlowIsSum(ledger: seq<Entry>, kind: Kind)
    ensures Flow(ledger, kind) == Sum(Amounts(OfKind(ledger, kind)))
  {
    if ledger != [] {
      var front, e := ledger[..|ledger| - 1], ledger[|ledger| - 1];
      FlowIsSum(front, kind);
      assert ledger == front + [e];
      FlowSplit(front, [e], kind);
      if e.kind == kind {
        assert Amounts(OfKind(ledger, kind)) == Amounts(OfKind(front, kind)) + [e.amount];
        SumPush(Amounts(OfKind(front, kind)), e.amount);
      } else {
        assert OfKind(ledger, kind) == OfKind(front, kind);
      }
    }
  }

  /** The rows of a kind are the ledger's rows of that kind. */
  lemma {:induction false} OfKindRows(ledger: seq<Entry>, kind: Kind)
    ensures forall e :: e in OfKind(ledger, kind) <==> e in ledger && e.kind == kind
  {
    if ledger != [] {
      var front := ledger[..|ledger| - 1];
      OfKindRows(front, kind);
      assert ledger == front + [ledger[|ledger| - 1]];
    }
  }

  lemma SoundRowsMeans(ledger: seq<Entry>, owner: UserId)
    ensures SoundFunding(OfKind(ledger, SpendCreate), owner) && SoundRefunds(OfKind(ledger, RefundCancel), owner)
            <==> forall e :: e in ledger ==>
                   e.completed && e.user == owner && (if e.kind == SpendCreate then e.amount < 0 else e.amount > 0)
  {
    var funding, refunds := OfKind(ledger, SpendCreate), OfKind(ledger, RefundCancel);
    OfKindRows(ledger, SpendCreate);
    OfKindRows(ledger, RefundCancel);
    hide OfKind;
    assert SoundFunding(funding, owner) <==> forall e :: e in funding ==> e.completed && e.amount < 0 && e.user == owner;
    assert SoundRefunds(refunds, owner) <==> forall e :: e in refunds ==> e.completed && e.amount > 0 && e.user == owner;
    forall e | e in ledger ensures e in funding || e in refunds {
      assert e.kind == SpendCreate || e.kind == RefundCancel;
    }
  }

  lemma KindPresent(ledger: seq<Entry>, kind: Kind)
    ensures OfKind(ledger, kind) == [] <==> forall i :: 0 <= i < |ledger| ==> ledger[i].kind != kind
  {
    OfKindRows(ledger, kind);
    var rows := OfKind(ledger, kind);
    if rows != [] {
      assert rows[0] in rows;
    }
  }

  /** The rule grants what was asked, or nothing where nothing was funded, and exactly on payable ledgers. */
  lemma RefundableIffPayable(ledger: seq<Entry>, owner: UserId, fee: int, requested: int)
    ensures Refundable(ledger, owner, fee, requested)
            == if Payable(ledger, owner, fee, requested) then Some(if HasFunding(ledger) then requested else 0) else None
  {
    SoundRowsMeans(ledger, owner);
    KindPresent(ledger, SpendCreate);
    KindPresent(ledger, RefundCancel);
    FlowIsSum(ledger, SpendCreate);
    FlowIsSum(ledger, RefundCancel);
    hide OfKind, Sum, Amounts, Flow, SoundFunding, SoundRefunds;
    assert (forall e :: e in ledger ==> e.completed && e.user == owner && (if e.kind == SpendCreate then e.amount < 0 else e.amount > 0))
      <==> forall i :: 0 <= i < |ledger| ==>
             (ledger[i].completed && ledger[i].user == owner
              && (if ledger[i].kind == SpendCreate then ledger[i].amount < 0 else ledger[i].amount > 0));
  }

  function Abs(n: int): nat { if n < 0 then -n else n }

  lemma {:induction false} PositiveSum(xs: seq<int>)
    requires forall i :: 0 <= i < |xs| ==> xs[i] > 0
    ensures Sum(xs) >= 0 && (Sum(xs) == 0 <==> xs == [])
  {
    if xs != [] {
      PositiveSum(xs[..|xs| - 1]);
    }
  }

  lemma {:induction false} NegatedSum(xs: seq<int>, ys: seq<int>)
    requires |xs| == |ys| && forall i :: 0 <= i < |xs| ==> ys[i] == -xs[i]
    ensures Sum(ys) == -Sum(xs)
  {
    if xs != [] {
      NegatedSum(xs[..|xs| - 1], ys[..|ys| - 1]);
    }
  }

  predicate SoundRow(e: Entry, kind: Kind, owner: UserId) {
    e.completed && e.user == owner && (if kind == SpendCreate then e.amount < 0 else e.amount > 0)
  }

  /** One bad row sends the whole ledger to manual review. */
  lemma BadRow(ledger: seq<Entry>, kind: Kind, i: nat, owner: UserId, fee: int, requested: int)
    requires i < |OfKind(ledger, kind)| && !SoundRow(OfKind(ledger, kind)[i], kind, owner)
    ensures Refundable(ledger, owner, fee, requested).None?
  {
    hide OfKind;
    hide Funded;
    hide Refunded;
  }

  /** The sums the loops reach, and the decision on sound rows. */
  lemma Decision(ledger: seq<Entry>, owner: UserId, fee: int, requested: int)
    requires requested >= 0 && fee >= 0
    requires SoundFunding(OfKind(ledger, SpendCreate), owner) && SoundRefunds(OfKind(ledger, RefundCancel), owner)
    ensures Refundable(ledger, owner, fee, requested) ==
              if Funded(ledger) == 0 then (if Refunded(ledger) > 0 then None else Some(0))
              else if Funded(ledger) - fee - Refunded(ledger) < requested then None
              else Some(requested)
  {
    var funding, refunds := OfKind(ledger, SpendCreate), OfKind(ledger, RefundCancel);
    var magnitudes := Magnitudes(funding);
    NegatedSum(Amounts(funding), magnitudes);
    PositiveSum(magnitudes);
    PositiveSum(Amounts(refunds));
  }

  function Magnitudes(rows: seq<Entry>): seq<int> {
    seq(|rows|, i requires 0 <= i < |rows| => -rows[i].amount)
  }

  lemma AmountsNext(rows: seq<Entry>, i: nat)
    requires i < |rows|
    ensures Sum(Magnitudes(rows[..i + 1])) == Sum(Magnitudes(rows[..i])) - rows[i].amount
    ensures Sum(Amounts(rows[..i + 1])) == Sum(Amounts(rows[..i])) + rows[i].amount
  {
    assert Magnitudes(rows[..i + 1]) == Magnitudes(rows[..i]) + [-rows[i].amount];
    assert Amounts(rows[..i + 1]) == Amounts(rows[..i]) + [rows[i].amount];
    SumPush(Magnitudes(rows[..i]), -rows[i].amount);
    SumPush(Amounts(rows[..i]), rows[i].amount);
  }

  lemma FundedSum(ledger: seq<Entry>)
    ensures Funded(ledger) == Sum(Magnitudes(OfKind(ledger, SpendCreate)))
  {
    NegatedSum(Amounts(OfKind(ledger, SpendCreate)), Magnitudes(OfKind(ledger, SpendCreate)));
  }

  /** The two validating loops over the ledger and the decision that follows them. */
  method ResolveFundedRefund(ledger: seq<Entry>, owner: UserId, fee: int, requested: int)
    returns (r: Result<int, Inconsistent>)
    ensures r.Ok? <==> Refundable(ledger, owner, fee, requested).Some?
    ensures r.Ok? ==> Some(r.value) == Refundable(ledger, owner, fee, requested)
    ensures r.Ok? <==> Payable(ledger, owner, fee, requested)
    ensures r.Ok? ==> r.value == if HasFunding(ledger) then requested else 0
  {
    RefundableIffPayable(ledger, owner, fee, requested);
    hide Payable, HasFunding;
    if requested < 0 {
      return Err(Inconsistent);
    }
    if fee < 0 {
      return Err(Inconsistent);
    }
    hide Refundable;
    hide OfKind;
    hide Sum;
    hide Magnitudes;
    hide Amounts;
    var fundingTxs := OfKind(ledger, SpendCreate);
    var funded := 0;
    assert funded == Sum(Magnitudes(fundingTxs[..0])) by {
      EmptySums(fundingTxs);
    }
    for i := 0 to |fundingTxs|
      invariant forall k :: 0 <= k < i ==> SoundRow(fundingTxs[k], SpendCreate, owner)
      invariant funded == Sum(Magnitudes(fundingTxs[..i]))
    {
      var t := fundingTxs[i];
      if !t.completed || t.amount >= 0 || t.user != owner {
        BadRow(ledger, SpendCreate, i, owner, fee, requested);
        return Err(Inconsistent);
      }
      AmountsNext(fundingTxs, i);
      funded := funded + Abs(t.amount);
    }
    assert fundingTxs[..|fundingTxs|] == fundingTxs;

    var priorRefunds := OfKind(ledger, RefundCancel);
    var refunded := 0;
    assert refunded == Sum(Amounts(priorRefunds[..0])) by {
      EmptySums(priorRefunds);
    }
    for i := 0 to |priorRefunds|
      invariant forall k :: 0 <= k < i ==> SoundRow(priorRefunds[k], RefundCancel, owner)
      invariant refunded == Sum(Amounts(priorRefunds[..i]))
    {
      var t := priorRefunds[i];
      if !t.completed || t.amount <= 0 || t.user != owner {
        BadRow(ledger, RefundCancel, i, owner, fee, requested);
        return Err(Inconsistent);
      }
      AmountsNext(priorRefunds, i);
      refunded := refunded + t.amount;
    }
    assert priorRefunds[..|priorRefunds|] == priorRefunds;

    FundedSum(ledger);
    Decision(ledger, owner, fee, requested);
    if funded == 0 {
      if refunded > 0 {
        return Err(Inconsistent);
      }
      return Ok(0);
    }
    var refundable := funded - fee - refunded;
    if refundable < 0 || refundable < requested {
      return Err(Inconsistent);
    }
    return Ok(requested);
  }

  lemma EmptySums(rows: seq<Entry>)
    ensures Sum(Magnitudes(rows[..0])) == 0 && Sum(Amounts(rows[..0])) == 0
  {
    assert Magnitudes(rows[..0]) == [] && Amounts(rows[..0]) == [];
  }

  lemma OfKindPush(ledger: seq<Entry>, e: Entry, kind: Kind)
    ensures OfKind(ledger + [e], kind) == OfKind(ledger, kind) + if e.kind == kind then [e] else []
  {
    assert (ledger + [e])[..|ledger|] == ledger;
  }

  /** A new ledger row counts towards its own kind only. */
  lemma LedgerPush(ledger: seq<Entry>, e: Entry)
    ensures Funded(ledger + [e]) == Funded(ledger) - (if e.kind == SpendCreate then e.amount else 0)
    ensures Refunded(ledger + [e]) == Refunded(ledger) + (if e.kind == RefundCancel then e.amount else 0)
  {
    forall kind ensures Sum(Amounts(OfKind(ledger + [e], kind))) ==
                        Sum(Amounts(OfKind(ledger, kind))) + (if e.kind == kind then e.amount else 0) {
      OfKindPush(ledger, e, kind);
      if e.kind == kind {
        assert Amounts(OfKind(ledger, kind) + [e]) == Amounts(OfKind(ledger, kind)) + [e.amount];
        SumPush(Amounts(OfKind(ledger, kind)), e.amount);
      } else {
        assert OfKind(ledger + [e], kind) == OfKind(ledger, kind);
      }
    }
  }
}
