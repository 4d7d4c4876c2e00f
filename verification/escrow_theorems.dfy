/** The escrow guarantees over whole histories of interleaved, stale requests. */
module EscrowTheorems {
  import opened Histories
  import opened Wrappers
  import opened Sums
  import opened EscrowModel
  import opened EscrowProofs

  /** A database with wallets and no challenge yet. */
  predicate Fresh(db: Db) {
    && db.challenges == [] && db.claims == map[] && db.ledger == [] && db.fees == []
    && forall u :: 0 <= u < |db.balances| ==> db.balances[u] >= 0
  }

  lemma {:induction false} HistoryPrefix(start: Db, rs: seq<Request>, k: nat)
    requires k <= |rs|
    ensures History(start, rs)[..k + 1] == History(start, rs[..k])
  {
    if k == |rs| {
      assert rs[..k] == rs;
    } else {
      var front := rs[..|rs| - 1];
      HistoryPrefix(start, front, k);
      assert front[..k] == rs[..k];
      assert History(start, rs)[..k + 1] == History(start, front)[..k + 1];
    }
  }

  /** Between any two moments of a history the rows only evolve. */
  lemma {:induction false} EvolvesBetween(start: Db, rs: seq<Request>, i: nat, j: nat)
    requires Inv(start) && i <= j <= |rs|
    ensures Inv(History(start, rs)[j]) && Evolves(History(start, rs)[i], History(start, rs)[j])
  {
    HistoryIsGood(start, rs[..j]);
    HistoryPrefix(start, rs, j);
    assert History(start, rs[..j])[i] == History(start, rs)[i];
  }

  // ---- the joint invariant and its consequences ----

  /** Every reachable state couples the challenge to its claim and to the wallet ledger: nothing is held
      twice, settled twice or paid to anyone but the claimant, the platform or the creator. */
  lemma {:induction false} ReachableStatesAreCoupled(start: Db, rs: seq<Request>, k: nat, id: ChallengeId)
    requires Fresh(start) && k <= |rs|
    ensures var db := History(start, rs)[k];
            && (id in db.claims ==> id < |db.challenges| && db.claims[id].user != db.challenges[id].creator)
            && (id < |db.challenges| ==>
                  var c := db.challenges[id];
                  && Coupled(c, Lookup(db, id))
                  && c.reserved == c.reward + c.fee > 0
                  && EntriesFor(db.ledger, id) == Movements(id, c, Lookup(db, id))
                  && FeesFor(db.fees, id) == FeeMovements(id, c, Lookup(db, id)))
  {
    HistoryIsGood(start, rs);
    var db := History(start, rs)[k];
    if id < |db.challenges| {
      assert RowOk(db, id);
    }
  }

  /** On reachable states the claim's compare-and-set matches exactly when the challenge's does, so the
      second early return of the abandoned-claim sweep and the "no longer reviewable" errors are dead. */
  lemma {:induction false} ClaimGuardImpliesChallengeGuard(start: Db, rs: seq<Request>, k: nat, id: ChallengeId)
    requires Fresh(start) && k <= |rs|
    ensures var db := History(start, rs)[k];
            ClaimIn(db, id, {Assigned, InProgress, Submitted}) <==> HasStatus(db, id, Claimed)
  {
    hide Inv, History, ClaimIn, HasStatus;
    HistoryIsGood(start, rs);
    assert Inv(History(start, rs)[k]);
    GuardsAgree(History(start, rs)[k], id);
  }

  lemma GuardsAgree(db: Db, id: ChallengeId)
    requires Inv(db)
    ensures ClaimIn(db, id, {Assigned, InProgress, Submitted}) <==> HasStatus(db, id, Claimed)
  {
    hide Movements, FeeMovements, EntriesFor, FeesFor;
    if id < |db.challenges| {
      assert RowOk(db, id);
    }
  }

  /** Request `k` moves the reserve of challenge `id` out of escrow. */
  predicate Settles(h: seq<Db>, k: nat, id: ChallengeId)
    requires k + 1 < |h|
  {
    && id < |h[k].challenges| && id < |h[k + 1].challenges|
    && Live(h[k].challenges[id]) && !Live(h[k + 1].challenges[id])
  }

  /** Of all the reviews, cancellations and sweeps that race for a challenge at most one settles it, and
      what it wrote stays. */
  lemma {:induction false} SettledAtMostOnce(start: Db, rs: seq<Request>, i: nat, j: nat, id: ChallengeId)
    requires Fresh(start) && i < j < |rs| && Settles(History(start, rs), i, id)
    ensures var h := History(start, rs);
            && !Settles(h, j, id)
            && id < |h[j].challenges| && h[j].challenges[id] == h[i + 1].challenges[id]
            && Lookup(h[j], id) == Lookup(h[i + 1], id)
            && EntriesFor(h[j].ledger, id) == EntriesFor(h[i + 1].ledger, id)
  {
    var h := History(start, rs);
    EvolvesBetween(start, rs, 0, i + 1);
    EvolvesBetween(start, rs, i + 1, j);
    assert RowEvolves(h[i + 1].challenges[id], h[j].challenges[id]);
    assert RowOk(h[i + 1], id) && RowOk(h[j], id);
  }

  // ---- conservation ----

  lemma {:induction false} ZeroSum(xs: seq<int>)
    requires forall i :: 0 <= i < |xs| ==> xs[i] >= 0
    ensures Sum(xs) >= 0
    ensures Sum(xs) == 0 <==> forall i :: 0 <= i < |xs| ==> xs[i] == 0
  {
    if xs != [] {
      var front := xs[..|xs| - 1];
      ZeroSum(front);
      assert forall i :: 0 <= i < |front| ==> front[i] == xs[i];
    }
  }

  /** Wallets, held reserves and recorded fees add up to the same total at every moment of every
      interleaving, exactly as long as no challenge with a negative fee has been awarded. */
  lemma {:induction false} ConservedExactly(start: Db, rs: seq<Request>, k: nat)
    requires Fresh(start) && k <= |rs|
    ensures var db := History(start, rs)[k];
            && Total(db) == Total(start) + Minted(db)
            && Minted(db) >= 0
            && (Total(db) == Total(start) <==>
                  forall id :: 0 <= id < |db.challenges| && Awarded(db, id) ==> db.challenges[id].fee >= 0)
  {
    HistoryIsGood(start, rs);
    var db := History(start, rs)[k];
    assert MintedColumn(start) == [];
    ZeroSum(MintedColumn(db));
    var column := MintedColumn(db);
    if Minted(db) == 0 {
      forall id | 0 <= id < |db.challenges| && Awarded(db, id) ensures db.challenges[id].fee >= 0 {
        assert column[id] == 0;
      }
    }
  }

  /** The quote is the smallest integer fee that covers the rate, and is negative exactly when the rate
      asks for at most minus one credit. */
  lemma QuoteRounding(reward: int, rate: real)
    ensures var fee := FeeFor(reward, rate);
            && reward as real * rate <= fee as real < reward as real * rate + 1.0
            && (fee >= 0 <==> reward as real * rate > -1.0)
  {
  }

  predicate QuotesNonNegative(r: Request) {
    r.Create? ==> r.reward as real * r.config.feeRate > -1.0
  }

  /** Only publishing adds a row, and its fee is the quote. */
  lemma NewRowIsQuoted(h: seq<Db>, r: Request, id: ChallengeId)
    requires h != [] && |Last(h).challenges| <= id < |Perform(h, r).challenges|
    ensures r.Create? && Perform(h, r).challenges[id].fee == FeeFor(r.reward, r.config.feeRate)
  {
  }

  ghost predicate FeesNonNegative(db: Db) {
    forall id :: 0 <= id < |db.challenges| ==> db.challenges[id].fee >= 0
  }

  lemma {:induction false} FeesStayNonNegative(start: Db, rs: seq<Request>)
    requires Fresh(start) && forall i :: 0 <= i < |rs| ==> QuotesNonNegative(rs[i])
    ensures forall k :: 0 <= k <= |rs| ==> FeesNonNegative(History(start, rs)[k])
  {
    if rs != [] {
      var n := |rs| - 1;
      var h := History(start, rs[..n]);
      FeesStayNonNegative(start, rs[..n]);
      HistoryIsGood(start, rs[..n]);
      RequestOk(h, rs[n]);
      var a, b := Last(h), Perform(h, rs[n]);
      assert FeesNonNegative(h[n]);
      forall id | 0 <= id < |b.challenges| ensures b.challenges[id].fee >= 0 {
        if id < |a.challenges| {
          assert RowEvolves(a.challenges[id], b.challenges[id]);
        } else {
          NewRowIsQuoted(h, rs[n], id);
          assert QuotesNonNegative(rs[n]);
          QuoteRounding(rs[n].reward, rs[n].config.feeRate);
        }
      }
    }
  }

  /** With a configured rate that never quotes a negative fee the total is the same at every moment. */
  lemma {:induction false} Conserved(start: Db, rs: seq<Request>, k: nat)
    requires Fresh(start) && k <= |rs|
    requires forall i :: 0 <= i < |rs| ==> QuotesNonNegative(rs[i])
    ensures Total(History(start, rs)[k]) == Total(start)
  {
    FeesStayNonNegative(start, rs);
    assert FeesNonNegative(History(start, rs)[k]);
    ConservedExactly(start, rs, k);
  }

  // ---- a configured rate of minus one half: a reward of ten reserves five credits, the award pays ten ----

  const LOSS_CONFIG := Config(-0.5, 10, 500, 48, 168)
  const LOSS_START := Db([], map[], [5, 0], [], [])
  const LOSS_RUN: seq<Request> :=
    [Create(0, 10, None, LOSS_CONFIG, 0), ClaimIt(1, 0, 1, 0, 0), Submit(1, 0, 2, 0), Review(Some(0), 0, 3, 3, true)]

  const LOSS_CLAIMED: Db := Db(
    [Challenge(0, 10, -5, 5, 48 * HOUR_MS, Status.Claimed, Some(1))], map[0 := Claim.Claim(1, Assigned, 48 * HOUR_MS, 0)],
    [0, 0], [Entry(SpendCreate, 0, -5, 0)], [])

  lemma LossClaimed()
    ensures Last(History(LOSS_START, LOSS_RUN[..2])) == LOSS_CLAIMED
  {
    var r0, r1 := LOSS_RUN[0], LOSS_RUN[1];
    assert FeeFor(10, -0.5) == -5;
    var d1 := Db([Challenge(0, 10, -5, 5, 48 * HOUR_MS, Open, None)], map[], [0, 0], [Entry(SpendCreate, 0, -5, 0)], []);
    assert LOSS_RUN[..2][..1] == [r0] && LOSS_RUN[..2] == [r0, r1] && [r0][..0] == [];
    assert Perform([LOSS_START], r0) == d1;
    assert History(LOSS_START, []) == [LOSS_START];
    assert History(LOSS_START, [r0]) == [LOSS_START, d1];
    assert Perform([LOSS_START, d1], r1) == LOSS_CLAIMED;
  }

  lemma LossSubmitted()
    ensures Last(History(LOSS_START, LOSS_RUN[..3])) == SetClaim(LOSS_CLAIMED, 0, Submitted, 0)
  {
    LossClaimed();
    assert LOSS_RUN[..3][..2] == LOSS_RUN[..2];
    assert Last(History(LOSS_START, LOSS_RUN[..2])) == LOSS_CLAIMED;
  }

  /** The rate is read from configuration unchecked, and a negative one breaks conservation. */
  lemma NegativeRateMints()
    ensures Fresh(LOSS_START) && Total(Last(History(LOSS_START, LOSS_RUN))) == Total(LOSS_START) + 5
  {
    LossSubmitted();
    var h := History(LOSS_START, LOSS_RUN[..3]);
    var d3 := Last(h);
    var d4 := Perform(h, LOSS_RUN[3]);
    assert d4 == ApproveTx(d3, 0, d3.challenges[0], 1).value;
    assert LOSS_RUN == LOSS_RUN[..3] + [LOSS_RUN[3]];
    assert Last(History(LOSS_START, LOSS_RUN)) == d4;
    ConservedExactly(LOSS_START, LOSS_RUN, 4);
    assert MintedColumn(d4) == [5];
    assert [5][..0] == [] && Sum([]) == 0 && Sum([5]) == 5;
  }
}
