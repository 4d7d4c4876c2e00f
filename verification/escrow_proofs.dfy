/** What every interleaving of challenge requests keeps. */
module EscrowProofs {
  import opened Histories
  import opened Wrappers
  import opened Sums
  import opened EscrowModel

  // ---- the joint invariant ----

  function EntriesFor(ledger: seq<Entry>, id: ChallengeId): seq<Entry> {
    if ledger == [] then []
    else
      var e := ledger[|ledger| - 1];
      EntriesFor(ledger[..|ledger| - 1], id) + if e.ref == id then [e] else []
  }

  function FeesFor(fees: seq<Revenue>, id: ChallengeId): seq<Revenue> {
    if fees == [] then []
    else
      var f := fees[|fees| - 1];
      FeesFor(fees[..|fees| - 1], id) + if f.ref == id then [f] else []
  }

  function Lookup(db: Db, id: ChallengeId): Option<Claim> {
    if id in db.claims then Some(db.claims[id]) else None
  }

  /** The challenge status, its claim and who the claimant is agree. */
  predicate Coupled(c: Challenge, claim: Option<Claim>) {
    && (claim.Some? ==> claim.value.user != c.creator)
    && match c.status
       case Open => claim.None?
       case Cancelled => claim.None?
       case Claimed => claim.Some? && claim.value.status in {Assigned, InProgress, Submitted}
       case Completed => claim.Some? && claim.value.status in {Verified, Rejected}
       case Expired => claim.None? || claim.value.status == Lapsed
  }

  /** The complete wallet history a challenge may have: one reserve, then at most one settlement. */
  function Movements(id: ChallengeId, c: Challenge, claim: Option<Claim>): seq<Entry> {
    [Entry(SpendCreate, c.creator, -c.reserved, id)] +
    if Live(c) then []
    else if c.status == Completed && claim.Some? && claim.value.status == Verified
    then [Entry(EarnTask, claim.value.user, c.reward, id)]
    else [Entry(RefundClose, c.creator, c.reserved, id)]
  }

  function FeeMovements(id: ChallengeId, c: Challenge, claim: Option<Claim>): seq<Revenue> {
    if c.status == Completed && claim.Some? && claim.value.status == Verified && c.fee > 0
    then [Revenue(id, c.fee)] else []
  }

  predicate RowOk(db: Db, id: ChallengeId)
    requires id < |db.challenges|
  {
    var c := db.challenges[id];
    && c.reserved == c.reward + c.fee
    && c.reserved > 0
    && c.creator < |db.balances|
    && Coupled(c, Lookup(db, id))
    && EntriesFor(db.ledger, id) == Movements(id, c, Lookup(db, id))
    && FeesFor(db.fees, id) == FeeMovements(id, c, Lookup(db, id))
  }

  ghost predicate Inv(db: Db) {
    && (forall id :: 0 <= id < |db.challenges| ==> RowOk(db, id))
    && (forall id :: id in db.claims ==> id < |db.challenges|)
    && (forall i :: 0 <= i < |db.ledger| ==> db.ledger[i].ref < |db.challenges|)
    && (forall i :: 0 <= i < |db.fees| ==> db.fees[i].ref < |db.challenges|)
    && (forall u :: 0 <= u < |db.balances| ==> db.balances[u] >= 0)
  }

  /** Rows are never removed and keep their terms; a settled row and its claim never change again. */
  predicate RowEvolves(before: Challenge, after: Challenge) {
    && after.creator == before.creator && after.reward == before.reward && after.fee == before.fee
    && after.reserved == before.reserved && after.expiresAt == before.expiresAt
    && (after == before
        || (before.status == Open && after.status != Open)
        || (before.status == Claimed && after.status in {Completed, Expired}))
  }

  ghost predicate Evolves(a: Db, b: Db) {
    && |a.challenges| <= |b.challenges|
    && |a.balances| == |b.balances|
    && a.ledger <= b.ledger
    && (forall id :: 0 <= id < |a.challenges| ==> RowEvolves(a.challenges[id], b.challenges[id]))
    && (forall id :: id in a.claims ==>
          id in b.claims && b.claims[id].user == a.claims[id].user && b.claims[id].expiresAt == a.claims[id].expiresAt)
    && (forall id :: 0 <= id < |a.challenges| && !Live(a.challenges[id]) ==> Lookup(b, id) == Lookup(a, id))
  }

  // ---- ledger filters ----

  lemma EntriesPush(ledger: seq<Entry>, e: Entry, id: ChallengeId)
    ensures EntriesFor(ledger + [e], id) == EntriesFor(ledger, id) + if e.ref == id then [e] else []
  {
    assert (ledger + [e])[..|ledger|] == ledger;
  }

  lemma FeesPush(fees: seq<Revenue>, f: Revenue, id: ChallengeId)
    ensures FeesFor(fees + [f], id) == FeesFor(fees, id) + if f.ref == id then [f] else []
  {
    assert (fees + [f])[..|fees|] == fees;
  }

  lemma {:induction false} EntriesUnused(ledger: seq<Entry>, id: ChallengeId)
    requires forall i :: 0 <= i < |ledger| ==> ledger[i].ref != id
    ensures EntriesFor(ledger, id) == []
  {
    if ledger != [] {
      EntriesUnused(ledger[..|ledger| - 1], id);
    }
  }

  lemma {:induction false} FeesUnused(fees: seq<Revenue>, id: ChallengeId)
    requires forall i :: 0 <= i < |fees| ==> fees[i].ref != id
    ensures FeesFor(fees, id) == []
  {
    if fees != [] {
      FeesUnused(fees[..|fees| - 1], id);
    }
  }

  lemma {:induction false} FeesPresent(fees: seq<Revenue>, id: ChallengeId)
    ensures FeesFor(fees, id) == [] <==> !exists r :: r in fees && r.ref == id
  {
    if fees != [] {
      var front, f := fees[..|fees| - 1], fees[|fees| - 1];
      FeesPresent(front, id);
      assert fees == front + [f];
      if f.ref == id {
        assert f in fees;
      } else if r :| r in fees && r.ref == id {
        assert r in front;
      }
    }
  }

  // ---- wallets and the ledger ----

  /** What the ledger posted to one user's wallet. */
  function Posted(ledger: seq<Entry>, user: UserId): int {
    if ledger == [] then 0
    else
      var e := ledger[|ledger| - 1];
      Posted(ledger[..|ledger| - 1], user) + if e.user == user then e.amount else 0
  }

  lemma PostedPush(ledger: seq<Entry>, e: Entry, user: UserId)
    ensures Posted(ledger + [e], user) == Posted(ledger, user) + if e.user == user then e.amount else 0
  {
    assert (ledger + [e])[..|ledger|] == ledger;
  }

  // ---- one transaction ----

  /** What settling or moving one row owes the invariant: everything else is framed. */
  ghost predicate OnlyRow(a: Db, b: Db, id: ChallengeId) {
    && id < |a.challenges| == |b.challenges|
    && |b.balances| == |a.balances|
    && (forall j :: 0 <= j < |a.challenges| && j != id ==>
          && b.challenges[j] == a.challenges[j] && Lookup(b, j) == Lookup(a, j)
          && EntriesFor(b.ledger, j) == EntriesFor(a.ledger, j) && FeesFor(b.fees, j) == FeesFor(a.fees, j))
    && (forall j :: j in b.claims ==> j in a.claims || j == id)
    && (forall i :: 0 <= i < |b.ledger| ==> b.ledger[i].ref < |b.challenges|)
    && (forall i :: 0 <= i < |b.fees| ==> b.fees[i].ref < |b.challenges|)
    && (forall u :: 0 <= u < |b.balances| ==> b.balances[u] >= 0)
  }

  lemma OnlyRowKeepsInv(a: Db, b: Db, id: ChallengeId)
    requires Inv(a) && OnlyRow(a, b, id) && RowOk(b, id)
    ensures Inv(b)
  {
    forall j | 0 <= j < |b.challenges| ensures RowOk(b, j) {
      if j != id { assert RowOk(a, j); }
    }
  }

  /** Closing a live row with one payment to a wallet, and possibly one fee row. */
  function Closed(a: Db, id: ChallengeId, status: Status, claims: map<ChallengeId, Claim>, e: Entry, fees: seq<Revenue>): Db
    requires id < |a.challenges| && e.user < |a.balances|
  {
    Post(a.(challenges := a.challenges[id := a.challenges[id].(status := status)], claims := claims,
            fees := a.fees + fees), e)
  }

  lemma {:induction false} ClosedFrame(a: Db, id: ChallengeId, status: Status, claims: map<ChallengeId, Claim>, e: Entry, fees: seq<Revenue>)
    requires Inv(a) && id < |a.challenges| && e.user < |a.balances| && e.ref == id && e.amount > 0
    requires forall j :: j != id ==> (j in claims <==> j in a.claims) && (j in claims ==> claims[j] == a.claims[j])
    requires |fees| <= 1 && forall i :: 0 <= i < |fees| ==> fees[i].ref == id
    ensures
      var b := Closed(a, id, status, claims, e, fees);
      && OnlyRow(a, b, id)
      && EntriesFor(b.ledger, id) == EntriesFor(a.ledger, id) + [e]
      && FeesFor(b.fees, id) == FeesFor(a.fees, id) + fees
  {
    forall j: nat ensures EntriesFor(a.ledger + [e], j) == EntriesFor(a.ledger, j) + if j == id then [e] else [] {
      EntriesPush(a.ledger, e, j);
    }
    forall j: nat ensures FeesFor(a.fees + fees, j) == FeesFor(a.fees, j) + if j == id then fees else [] {
      if fees == [] {
        assert a.fees + fees == a.fees;
      } else {
        assert fees == [fees[0]];
        FeesPush(a.fees, fees[0], j);
      }
    }
  }

  /** What closing a live row asks for: the claim and the single payment fit the new status. */
  ghost predicate Closing(
    a: Db, id: ChallengeId, status: Status, claims: map<ChallengeId, Claim>, e: Entry, fees: seq<Revenue>)
  {
    && id < |a.challenges| && Live(a.challenges[id])
    && e.user < |a.balances| && e.ref == id && e.amount > 0
    && (forall j :: j != id ==> (j in claims <==> j in a.claims) && (j in claims ==> claims[j] == a.claims[j]))
    && (var c := a.challenges[id].(status := status);
        var claim := if id in claims then Some(claims[id]) else None;
        && !Live(c) && Coupled(c, claim)
        && [e] == Movements(id, c, claim)[1..] && fees == FeeMovements(id, c, claim))
    && (id in a.claims ==>
          id in claims && claims[id].user == a.claims[id].user && claims[id].expiresAt == a.claims[id].expiresAt)
    && (a.challenges[id].status == Claimed ==> status in {Completed, Expired})
  }

  lemma {:induction false} CloseRow(a: Db, id: ChallengeId, status: Status, claims: map<ChallengeId, Claim>, e: Entry, fees: seq<Revenue>)
    requires Inv(a) && Closing(a, id, status, claims, e, fees)
    ensures var b := Closed(a, id, status, claims, e, fees); OnlyRow(a, b, id) && RowOk(b, id)
  {
    var b := Closed(a, id, status, claims, e, fees);
    ClosedFrame(a, id, status, claims, e, fees);
    assert RowOk(a, id);
    MovementsSplit(id, a.challenges[id], Lookup(a, id));
    MovementsSplit(id, b.challenges[id], Lookup(b, id));
    hide EntriesFor, FeesFor, Inv, OnlyRow, Movements, FeeMovements, Coupled;
  }

  /** A live challenge has its reserve and no fee on the books; a settled one has one more entry. */
  lemma MovementsSplit(id: ChallengeId, c: Challenge, claim: Option<Claim>)
    ensures var reserve := [Entry(SpendCreate, c.creator, -c.reserved, id)];
            && Movements(id, c, claim) == reserve + Movements(id, c, claim)[1..]
            && (Live(c) ==> Movements(id, c, claim) == reserve && FeeMovements(id, c, claim) == [])
  {
  }

  lemma CloseEvolves(a: Db, id: ChallengeId, status: Status, claims: map<ChallengeId, Claim>, e: Entry, fees: seq<Revenue>)
    requires Closing(a, id, status, claims, e, fees)
    ensures Evolves(a, Closed(a, id, status, claims, e, fees))
  {
    hide Movements;
    hide FeeMovements;
    hide Coupled;
  }

  lemma CloseOk(a: Db, id: ChallengeId, status: Status, claims: map<ChallengeId, Claim>, e: Entry, fees: seq<Revenue>)
    requires Inv(a) && Closing(a, id, status, claims, e, fees)
    ensures
      var b := Closed(a, id, status, claims, e, fees);
      Inv(b) && Evolves(a, b)
  {
    CloseRow(a, id, status, claims, e, fees);
    CloseEvolves(a, id, status, claims, e, fees);
    hide Inv;
    hide OnlyRow;
    hide RowOk;
    hide Evolves;
    hide Closed;
    OnlyRowKeepsInv(a, Closed(a, id, status, claims, e, fees), id);
  }

  lemma CreateOk(a: Db, creator: UserId, reward: int, fee: int, expiresAt: int)
    requires Inv(a)
    ensures var t := CreateTx(a, creator, reward, fee, expiresAt);
            t.Some? ==> Inv(t.value) && Evolves(a, t.value)
  {
    var t := CreateTx(a, creator, reward, fee, expiresAt);
    if t.Some? {
      var b, n := t.value, |a.challenges|;
      var e := Entry(SpendCreate, creator, -(reward + fee), n);
      assert b.ledger == a.ledger + [e];
      forall id: nat ensures EntriesFor(b.ledger, id) == EntriesFor(a.ledger, id) + if id == n then [e] else [] {
        EntriesPush(a.ledger, e, id);
      }
      EntriesUnused(a.ledger, n);
      FeesUnused(a.fees, n);
      hide EntriesFor;
      hide FeesFor;
      hide Sum;
      assert n !in a.claims;
      assert RowOk(b, n);
      forall id | 0 <= id < n ensures RowOk(b, id) {
        assert RowOk(a, id);
      }
    }
  }

  lemma ClaimOk(a: Db, user: UserId, id: ChallengeId, snap: Challenge, now: int)
    requires Inv(a)
    requires id < |a.challenges| ==> a.challenges[id].creator != user
    ensures var t := ClaimTx(a, user, id, snap, now);
            t.Some? ==> Inv(t.value) && Evolves(a, t.value)
  {
    var t := ClaimTx(a, user, id, snap, now);
    if t.Some? {
      assert RowOk(a, id);
      assert RowOk(t.value, id);
      OnlyRowKeepsInv(a, t.value, id);
    }
  }

  lemma SubmitOk(a: Db, id: ChallengeId)
    requires Inv(a)
    ensures var t := SubmitTx(a, id);
            t.Some? ==> Inv(t.value) && Evolves(a, t.value)
  {
    var t := SubmitTx(a, id);
    if t.Some? {
      assert RowOk(a, id);
      assert RowOk(t.value, id);
      OnlyRowKeepsInv(a, t.value, id);
    }
  }

  /** A snapshot carries the terms the row still has, however stale it is. */
  predicate SameTerms(snap: Challenge, c: Challenge) {
    snap.creator == c.creator && snap.reward == c.reward && snap.fee == c.fee && snap.reserved == c.reserved
  }

  lemma {:induction false} CancelOk(a: Db, id: ChallengeId, snap: Challenge)
    requires Inv(a) && id < |a.challenges| && SameTerms(snap, a.challenges[id])
    ensures var t := CancelTx(a, snap.creator, id, snap);
            && (t.Some? <==> a.challenges[id].status == Open)
            && (t.Some? ==> Inv(t.value) && Evolves(a, t.value) && Total(t.value) == Total(a) && Minted(t.value) == Minted(a))
  {
    assert RowOk(a, id);
    if a.challenges[id].status == Open {
      var e := Entry(RefundClose, snap.creator, snap.reserved, id);
      hide EntriesFor, FeesFor, Evolves, Total, Minted;
      CloseOk(a, id, Cancelled, a.claims, e, []);
      CloseTotal(a, id, Cancelled, a.claims, e, []);
      assert Closed(a, id, Cancelled, a.claims, e, []) == CancelTx(a, snap.creator, id, snap).value;
    }
  }

  lemma {:induction false} SweepOpenOk(a: Db, id: ChallengeId, snap: Challenge, now: int)
    requires Inv(a) && id < |a.challenges| && SameTerms(snap, a.challenges[id])
    ensures var t := SweepOpenTx(a, id, snap, now);
            && t.Some?
            && Inv(t.value) && Evolves(a, t.value) && Total(t.value) == Total(a) && Minted(t.value) == Minted(a)
  {
    assert RowOk(a, id);
    if a.challenges[id].status == Open && a.challenges[id].expiresAt <= now {
      var e := Entry(RefundClose, snap.creator, snap.reserved, id);
      hide EntriesFor, FeesFor, Evolves, Total, Minted;
      CloseOk(a, id, Expired, a.claims, e, []);
      CloseTotal(a, id, Expired, a.claims, e, []);
      assert Closed(a, id, Expired, a.claims, e, []) == SweepOpenTx(a, id, snap, now).value;
    }
  }

  /** The abandoned-claim sweep either changes nothing or closes and refunds: a lapsed claim always
      comes with an expired challenge. */
  lemma {:induction false} SweepClaimedOk(a: Db, id: ChallengeId, snap: Challenge)
    requires Inv(a) && id < |a.challenges| && SameTerms(snap, a.challenges[id])
    ensures var t := SweepClaimedTx(a, id, snap);
            && t.Some?
            && (t.value == a || (HasStatus(a, id, Claimed) && HasStatus(t.value, id, Expired)))
            && Inv(t.value) && Evolves(a, t.value) && Total(t.value) == Total(a) && Minted(t.value) == Minted(a)
  {
    assert RowOk(a, id);
    if ClaimIn(a, id, SUBMITTABLE) {
      var e := Entry(RefundClose, snap.creator, snap.reserved, id);
      var claims := a.claims[id := a.claims[id].(status := Lapsed)];
      hide EntriesFor, FeesFor, Evolves, Total, Minted;
      CloseOk(a, id, Expired, claims, e, []);
      CloseTotal(a, id, Expired, claims, e, []);
      assert Closed(a, id, Expired, claims, e, []) == SweepClaimedTx(a, id, snap).value;
    }
  }

  lemma {:induction false} RejectOk(a: Db, id: ChallengeId, snap: Challenge)
    requires Inv(a) && id < |a.challenges| && SameTerms(snap, a.challenges[id])
    ensures var t := RejectTx(a, id, snap);
            && (t.Some? <==> ClaimIn(a, id, {Submitted}))
            && (t.Some? ==> Inv(t.value) && Evolves(a, t.value) && Total(t.value) == Total(a) && Minted(t.value) == Minted(a))
  {
    assert RowOk(a, id);
    if ClaimIn(a, id, {Submitted}) {
      var e := Entry(RefundClose, snap.creator, snap.reserved, id);
      var claims := a.claims[id := a.claims[id].(status := Rejected)];
      CloseOk(a, id, Completed, claims, e, []);
      CloseTotal(a, id, Completed, claims, e, []);
      assert Closed(a, id, Completed, claims, e, []) == RejectTx(a, id, snap).value;
    }
  }

  /** The claims table and revenue row an approval leaves. */
  function ApprovedClaims(a: Db, id: ChallengeId, reward: int): map<ChallengeId, Claim>
    requires id in a.claims
  {
    a.claims[id := a.claims[id].(status := Verified, creditsEarned := reward)]
  }

  function FeeRows(id: ChallengeId, fee: int): seq<Revenue> { if fee > 0 then [Revenue(id, fee)] else [] }

  lemma ApproveCloses(a: Db, id: ChallengeId, snap: Challenge, claimant: UserId)
    requires Inv(a) && id < |a.challenges| && SameTerms(snap, a.challenges[id])
    ensures var t := ApproveTx(a, id, snap, claimant);
            && (t.Some? <==> ClaimIn(a, id, {Submitted}) && CanCredit(a, claimant, snap.reward))
            && (t.Some? ==> t.value == Closed(a, id, Completed, ApprovedClaims(a, id, snap.reward),
                                              Entry(EarnTask, claimant, snap.reward, id), FeeRows(id, snap.fee)))
  {
    assert RowOk(a, id);
    FeesPresent(a.fees, id);
    assert a.fees + [] == a.fees;
  }

  lemma ApproveMints(a: Db, id: ChallengeId, reward: int, e: Entry, fees: seq<Revenue>)
    requires id < |a.challenges| && id in a.claims && !Awarded(a, id) && e.user < |a.balances|
    ensures var b := Closed(a, id, Completed, ApprovedClaims(a, id, reward), e, fees);
            Minted(b) == Minted(a) + (if a.challenges[id].fee < 0 then -a.challenges[id].fee else 0)
  {
    var b := Closed(a, id, Completed, ApprovedClaims(a, id, reward), e, fees);
    var extra := if a.challenges[id].fee < 0 then -a.challenges[id].fee else 0;
    forall j | 0 <= j < |a.challenges| && j != id ensures Awarded(b, j) == Awarded(a, j) {}
    assert MintedColumn(b) == MintedColumn(a)[id := extra];
    SumSet(MintedColumn(a), id, extra);
  }

  /** An approval keeps the total exactly when the fee is not negative; otherwise it pays the difference. */
  lemma {:induction false} ApproveOk(a: Db, id: ChallengeId, snap: Challenge, claimant: UserId)
    requires Inv(a) && id < |a.challenges| && SameTerms(snap, a.challenges[id])
    requires id in a.claims ==> a.claims[id].user == claimant
    ensures var t := ApproveTx(a, id, snap, claimant);
            && (t.Some? <==> ClaimIn(a, id, {Submitted}) && CanCredit(a, claimant, snap.reward))
            && (t.Some? ==>
                  && Inv(t.value) && Evolves(a, t.value)
                  && Total(t.value) - Minted(t.value) == Total(a) - Minted(a)
                  && (Total(t.value) == Total(a) <==> snap.fee >= 0))
  {
    ApproveCloses(a, id, snap, claimant);
    if ApproveTx(a, id, snap, claimant).Some? {
      assert RowOk(a, id);
      var e := Entry(EarnTask, claimant, snap.reward, id);
      var claims := ApprovedClaims(a, id, snap.reward);
      CloseOk(a, id, Completed, claims, e, FeeRows(id, snap.fee));
      CloseTotal(a, id, Completed, claims, e, FeeRows(id, snap.fee));
      ApproveMints(a, id, snap.reward, e, FeeRows(id, snap.fee));
    }
  }

  // ---- totals ----

  /** Closing a live row takes its reserve out of escrow and adds the payment and the fee. */
  lemma CloseMints(a: Db, id: ChallengeId, status: Status, claims: map<ChallengeId, Claim>, e: Entry, fees: seq<Revenue>)
    requires id < |a.challenges| && e.user < |a.balances|
    requires forall j: nat :: (j in claims && claims[j].status == Verified) <==> Awarded(a, j)
    ensures Minted(Closed(a, id, status, claims, e, fees)) == Minted(a)
  {
    var b := Closed(a, id, status, claims, e, fees);
    forall j | 0 <= j < |a.challenges| ensures Awarded(b, j) == Awarded(a, j) {
      assert (j in claims && claims[j].status == Verified) <==> Awarded(a, j);
    }
    assert MintedColumn(b) == MintedColumn(a);
  }

  lemma CloseTotal(a: Db, id: ChallengeId, status: Status, claims: map<ChallengeId, Claim>, e: Entry, fees: seq<Revenue>)
    requires id < |a.challenges| && Live(a.challenges[id]) && status in {Completed, Expired, Cancelled}
    requires e.user < |a.balances| && |fees| <= 1
    ensures var b := Closed(a, id, status, claims, e, fees);
            && Total(b) == Total(a) - a.challenges[id].reserved + e.amount + (if fees == [] then 0 else fees[0].amount)
            && ((forall j: nat :: (j in claims && claims[j].status == Verified) <==> Awarded(a, j)) ==> Minted(b) == Minted(a))
  {
    var b := Closed(a, id, status, claims, e, fees);
    SumSet(a.balances, e.user, a.balances[e.user] + e.amount);
    assert HeldColumn(b.challenges) == HeldColumn(a.challenges)[id := 0];
    SumSet(HeldColumn(a.challenges), id, 0);
    if fees == [] {
      assert b.fees == a.fees;
    } else {
      assert FeeColumn(b.fees) == FeeColumn(a.fees) + [fees[0].amount];
      SumPush(FeeColumn(a.fees), fees[0].amount);
    }
    hide Minted;
    if forall j: nat :: (j in claims && claims[j].status == Verified) <==> Awarded(a, j) {
      CloseMints(a, id, status, claims, e, fees);
    }
  }

  lemma CreateTotal(a: Db, creator: UserId, reward: int, fee: int, expiresAt: int)
    requires Inv(a)
    ensures var t := CreateTx(a, creator, reward, fee, expiresAt);
            t.Some? ==> Total(t.value) == Total(a) && Minted(t.value) == Minted(a)
  {
    var t := CreateTx(a, creator, reward, fee, expiresAt);
    if t.Some? {
      var b := t.value;
      hide Sum, Coupled, Movements, FeeMovements, EntriesFor, FeesFor;
      SumSet(a.balances, creator, a.balances[creator] - (reward + fee));
      assert HeldColumn(b.challenges) == HeldColumn(a.challenges) + [reward + fee];
      SumPush(HeldColumn(a.challenges), reward + fee);
      assert MintedColumn(b) == MintedColumn(a) + [0];
      SumPush(MintedColumn(a), 0);
    }
  }

  lemma ClaimTotal(a: Db, user: UserId, id: ChallengeId, snap: Challenge, now: int)
    ensures var t := ClaimTx(a, user, id, snap, now);
            t.Some? ==> Total(t.value) == Total(a) && Minted(t.value) == Minted(a)
  {
    var t := ClaimTx(a, user, id, snap, now);
    if t.Some? {
      assert HeldColumn(t.value.challenges) == HeldColumn(a.challenges);
      assert MintedColumn(t.value) == MintedColumn(a);
    }
  }

  lemma SubmitTotal(a: Db, id: ChallengeId)
    ensures var t := SubmitTx(a, id);
            t.Some? ==> Total(t.value) == Total(a) && Minted(t.value) == Minted(a)
  {
    var t := SubmitTx(a, id);
    if t.Some? {
      assert MintedColumn(t.value) == MintedColumn(a);
    }
  }

  // ---- histories ----

  /** Every state of a history keeps the invariant and every past state evolves to the present one. */
  ghost predicate GoodHistory(h: seq<Db>) {
    h != [] && forall k :: 0 <= k < |h| ==> Inv(h[k]) && Evolves(h[k], Last(h))
  }

  lemma EvolvesTransitive(a: Db, b: Db, c: Db)
    requires Evolves(a, b) && Evolves(b, c)
    ensures Evolves(a, c)
  {
    forall id | 0 <= id < |a.challenges| ensures RowEvolves(a.challenges[id], c.challenges[id]) {
      assert RowEvolves(a.challenges[id], b.challenges[id]) && RowEvolves(b.challenges[id], c.challenges[id]);
    }
    forall id | 0 <= id < |a.challenges| && !Live(a.challenges[id]) ensures Lookup(c, id) == Lookup(a, id) {
      assert RowEvolves(a.challenges[id], b.challenges[id]);
      assert Lookup(b, id) == Lookup(a, id);
    }
  }

  /** A state a request may leave: the invariant holds, nothing settled moved, and only approvals of
      negative fees changed the total. */
  ghost predicate GoodStep(a: Db, b: Db) {
    Inv(b) && Evolves(a, b) && Total(b) - Minted(b) == Total(a) - Minted(a)
  }

  lemma StaleTerms(h: seq<Db>, k: nat, id: ChallengeId)
    requires GoodHistory(h) && id < |At(h, k).challenges|
    ensures id < |Last(h).challenges| && SameTerms(At(h, k).challenges[id], Last(h).challenges[id])
  {
    assert Evolves(At(h, k), Last(h));
    assert RowEvolves(At(h, k).challenges[id], Last(h).challenges[id]);
  }

  lemma EvolvesReflexive(a: Db)
    ensures Evolves(a, a)
  {
  }

  lemma {:induction false} ReviewOk(h: seq<Db>, r: Request)
    requires GoodHistory(h) && r.Review?
    ensures GoodStep(Last(h), Perform(h, r))
  {
    var a := Last(h);
    EvolvesReflexive(a);
    var seen, seenClaims := At(h, r.readAt).challenges, At(h, r.claimReadAt).claims;
    if r.id < |seen| && r.id in seenClaims {
      StaleTerms(h, r.readAt, r.id);
      assert Evolves(At(h, r.claimReadAt), a);
      if r.approve {
        ApproveOk(a, r.id, seen[r.id], seenClaims[r.id].user);
      } else {
        RejectOk(a, r.id, seen[r.id]);
      }
    }
  }

  lemma {:induction false} SweepOpenStep(h: seq<Db>, r: Request)
    requires GoodHistory(h) && r.SweepOpen?
    ensures GoodStep(Last(h), Perform(h, r))
  {
    EvolvesReflexive(Last(h));
    if r.id < |At(h, r.rereadAt).challenges| {
      StaleTerms(h, r.rereadAt, r.id);
      SweepOpenOk(Last(h), r.id, At(h, r.rereadAt).challenges[r.id], r.now);
    }
    hide Inv, Evolves, Total, Minted, SweepOpenTx;
  }

  lemma {:induction false} SweepClaimedStep(h: seq<Db>, r: Request)
    requires GoodHistory(h) && r.SweepClaimed?
    ensures GoodStep(Last(h), Perform(h, r))
  {
    EvolvesReflexive(Last(h));
    if r.id < |At(h, r.readAt).challenges| {
      StaleTerms(h, r.readAt, r.id);
      SweepClaimedOk(Last(h), r.id, At(h, r.readAt).challenges[r.id]);
    }
    hide Inv, Evolves, Total, Minted, SweepClaimedTx;
  }

  lemma {:induction false} PublishOk(h: seq<Db>, r: Request)
    requires GoodHistory(h) && r.Create?
    ensures GoodStep(Last(h), Perform(h, r))
  {
    var ttl := if r.ttlHours.Some? then r.ttlHours.value else r.config.defaultTtlHours;
    EvolvesReflexive(Last(h));
    hide Inv, Evolves, Total, Minted;
    CreateOk(Last(h), r.creator, r.reward, FeeFor(r.reward, r.config.feeRate), r.now + ttl * HOUR_MS);
    CreateTotal(Last(h), r.creator, r.reward, FeeFor(r.reward, r.config.feeRate), r.now + ttl * HOUR_MS);
  }

  /** One request, whatever its reads saw and whatever the clock says. */
  lemma {:induction false} RequestOk(h: seq<Db>, r: Request)
    requires GoodHistory(h)
    ensures GoodStep(Last(h), Perform(h, r))
  {
    var a := Last(h);
    EvolvesReflexive(a);
    match r {
      case Create(_, _, _, _, _) => PublishOk(h, r);
      case ClaimIt(user, id, readAt, readTime, now) =>
        if id < |At(h, readAt).challenges| {
          var snap := At(h, readAt).challenges[id];
          StaleTerms(h, readAt, id);
          if snap.creator != user {
            ClaimOk(a, user, id, snap, now);
            ClaimTotal(a, user, id, snap, now);
          }
        }
      case Cancel(user, id, readAt) =>
        if id < |At(h, readAt).challenges| {
          StaleTerms(h, readAt, id);
          CancelOk(a, id, At(h, readAt).challenges[id]);
        }
      case Submit(user, id, readAt, readTime) =>
        SubmitOk(a, id);
        SubmitTotal(a, id);
      case Review(_, _, _, _, _) => ReviewOk(h, r);
      case SweepOpen(_, _, _, _, _) => SweepOpenStep(h, r);
      case SweepClaimed(_, _, _) => SweepClaimedStep(h, r);
    }
  }

  lemma {:induction false} HistoryIsGood(start: Db, rs: seq<Request>)
    requires Inv(start)
    ensures GoodHistory(History(start, rs))
    ensures forall k :: 0 <= k <= |rs| ==>
              Total(History(start, rs)[k]) - Minted(History(start, rs)[k]) == Total(start) - Minted(start)
  {
    if rs != [] {
      var h := History(start, rs[..|rs| - 1]);
      HistoryIsGood(start, rs[..|rs| - 1]);
      RequestOk(h, rs[|rs| - 1]);
      var b := Perform(h, rs[|rs| - 1]);
      forall k | 0 <= k < |h| ensures Evolves(h[k], b) {
        EvolvesTransitive(h[k], Last(h), b);
      }
    }
  }
}
