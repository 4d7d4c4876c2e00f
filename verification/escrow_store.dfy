/** The challenge service as it runs: each method is one transaction body over the tables, with its
    guarded updates in order and a rollback when one of them throws. */
module EscrowStore {
  import opened Wrappers
  import opened Sums
  import opened EscrowModel
  import opened EscrowProofs

  datatype Failure = Conflict | NotPending | NotReviewable | WalletRefused

  /** Challenges still on offer past their deadline. */
  function OverdueOpen(db: Db, now: int): set<ChallengeId> {
    set id | 0 <= id < |db.challenges| && db.challenges[id].status == Open && db.challenges[id].expiresAt <= now
  }

  /** Claimed challenges whose claim passed its deadline without a submission. */
  function Abandoned(db: Db, now: int): set<ChallengeId> {
    set id | 0 <= id < |db.challenges| && db.challenges[id].status == Claimed
             && ClaimIn(db, id, SUBMITTABLE) && db.claims[id].expiresAt <= now
  }

  const SWEEP_PAGE := 100

  class ChallengeStore {
    var challenges: seq<Challenge>
    var claims: map<ChallengeId, Claim>
    var balances: seq<int>
    var ledger: seq<Entry>
    var fees: seq<Revenue>

    function Tables(): Db
      reads this
    {
      Db(challenges, claims, balances, ledger, fees)
    }

    /** Undo every write of the running transaction. */
    method Rollback(saved: Db)
      modifies this
      ensures Tables() == saved
    {
      challenges, claims, balances, ledger, fees := saved.challenges, saved.claims, saved.balances, saved.ledger, saved.fees;
    }

    method Credit(user: UserId, amount: int, kind: Kind, ref: ChallengeId) returns (ok: bool)
      modifies this`balances, this`ledger
      ensures ok == CanCredit(old(Tables()), user, amount)
      ensures Tables() == if ok then Post(old(Tables()), Entry(kind, user, amount, ref)) else old(Tables())
    {
      if amount <= 0 || user >= |balances| {
        return false;
      }
      balances := balances[user := balances[user] + amount];
      ledger := ledger + [Entry(kind, user, amount, ref)];
      return true;
    }

    method Debit(user: UserId, amount: int, kind: Kind, ref: ChallengeId) returns (ok: bool)
      modifies this`balances, this`ledger
      ensures ok == CanDebit(old(Tables()), user, amount)
      ensures Tables() == if ok then Post(old(Tables()), Entry(kind, user, -amount, ref)) else old(Tables())
    {
      if amount <= 0 || user >= |balances| || balances[user] < amount {
        return false;
      }
      balances := balances[user := balances[user] - amount];
      ledger := ledger + [Entry(kind, user, -amount, ref)];
      return true;
    }

    /** A guarded status update of one challenge row; the count is 1 when the guard matched. */
    method UpdateChallenge(id: ChallengeId, from: Status, to: Status) returns (count: nat)
      modifies this`challenges
      ensures count == if HasStatus(old(Tables()), id, from) then 1 else 0
      ensures Tables() == if count == 1 then SetStatus(old(Tables()), id, to) else old(Tables())
    {
      if id < |challenges| && challenges[id].status == from {
        challenges := challenges[id := challenges[id].(status := to)];
        return 1;
      }
      return 0;
    }

    /** A guarded status update of one claim row. */
    method UpdateClaim(id: ChallengeId, from: set<ClaimStatus>, to: ClaimStatus, earned: Option<int>) returns (count: nat)
      modifies this`claims
      ensures count == if ClaimIn(old(Tables()), id, from) then 1 else 0
      ensures Tables() == if count == 1
                          then SetClaim(old(Tables()), id, to, if earned.Some? then earned.value else old(claims)[id].creditsEarned)
                          else old(Tables())
    {
      if id in claims && claims[id].status in from {
        var credits := if earned.Some? then earned.value else claims[id].creditsEarned;
        claims := claims[id := claims[id].(status := to, creditsEarned := credits)];
        return 1;
      }
      return 0;
    }

    /** Insert the row, then debit the reserve; an unpayable reserve takes the row back. */
    method Publish(creator: UserId, reward: int, fee: int, expiresAt: int) returns (r: Result<ChallengeId, Failure>)
      modifies this
      ensures r.Ok? <==> CreateTx(old(Tables()), creator, reward, fee, expiresAt).Some?
      ensures r.Ok? ==> Some(Tables()) == CreateTx(old(Tables()), creator, reward, fee, expiresAt) && r.value == |old(challenges)|
      ensures r.Err? ==> Tables() == old(Tables())
    {
      var saved := Tables();
      var id := |challenges|;
      challenges := challenges + [Challenge(creator, reward, fee, reward + fee, expiresAt, Open, None)];
      var ok := Debit(creator, reward + fee, SpendCreate, id);
      if !ok {
        Rollback(saved);
        return Err(WalletRefused);
      }
      return Ok(id);
    }

    method ClaimChallenge(user: UserId, id: ChallengeId, snap: Challenge, now: int) returns (r: Result<(), Failure>)
      modifies this
      ensures r.Ok? <==> ClaimTx(old(Tables()), user, id, snap, now).Some?
      ensures r.Ok? ==> Some(Tables()) == ClaimTx(old(Tables()), user, id, snap, now)
      ensures r.Err? ==> Tables() == old(Tables())
    {
      var saved := Tables();
      if !(id < |challenges| && challenges[id].status == Open && challenges[id].expiresAt > now) {
        return Err(Conflict);
      }
      challenges := challenges[id := challenges[id].(status := Claimed, claimedBy := Some(user))];
      if id in claims {
        Rollback(saved);
        return Err(Conflict);
      }
      claims := claims[id := EscrowModel.Claim.Claim(user, Assigned, snap.expiresAt, 0)];
      return Ok(());
    }

    method CancelChallenge(user: UserId, id: ChallengeId, snap: Challenge) returns (r: Result<(), Failure>)
      modifies this
      ensures r.Ok? <==> CancelTx(old(Tables()), user, id, snap).Some?
      ensures r.Ok? ==> Some(Tables()) == CancelTx(old(Tables()), user, id, snap)
      ensures r.Err? ==> Tables() == old(Tables())
    {
      var saved := Tables();
      var closed := UpdateChallenge(id, Open, Cancelled);
      if closed != 1 {
        return Err(Conflict);
      }
      var ok := Credit(user, snap.reserved, RefundClose, id);
      if !ok {
        Rollback(saved);
        return Err(WalletRefused);
      }
      return Ok(());
    }

    method SubmitProof(id: ChallengeId) returns (r: Result<(), Failure>)
      modifies this
      ensures r.Ok? <==> SubmitTx(old(Tables()), id).Some?
      ensures r.Ok? ==> Some(Tables()) == SubmitTx(old(Tables()), id)
      ensures r.Err? ==> Tables() == old(Tables())
    {
      var count := UpdateClaim(id, SUBMITTABLE, Submitted, None);
      return if count == 1 then Ok(()) else Err(Conflict);
    }

    /** Claim the completion, close the challenge, pay the claimant, record the fee. */
    method Approve(id: ChallengeId, snap: Challenge, claimant: UserId) returns (r: Result<(), Failure>)
      modifies this
      ensures r.Ok? <==> ApproveTx(old(Tables()), id, snap, claimant).Some?
      ensures r.Ok? ==> Some(Tables()) == ApproveTx(old(Tables()), id, snap, claimant)
      ensures r.Err? ==> Tables() == old(Tables())
    {
      var saved := Tables();
      var claim := UpdateClaim(id, {Submitted}, Verified, Some(snap.reward));
      if claim != 1 {
        return Err(NotPending);
      }
      var closed := UpdateChallenge(id, Claimed, Completed);
      if closed != 1 {
        Rollback(saved);
        return Err(NotReviewable);
      }
      var ok := Credit(claimant, snap.reward, EarnTask, id);
      if !ok {
        Rollback(saved);
        return Err(WalletRefused);
      }
      if snap.fee > 0 {
        if exists row :: row in fees && row.ref == id {
          Rollback(saved);
          return Err(Conflict);
        }
        fees := fees + [Revenue(id, snap.fee)];
      }
      return Ok(());
    }

    method Reject(id: ChallengeId, snap: Challenge) returns (r: Result<(), Failure>)
      modifies this
      ensures r.Ok? <==> RejectTx(old(Tables()), id, snap).Some?
      ensures r.Ok? ==> Some(Tables()) == RejectTx(old(Tables()), id, snap)
      ensures r.Err? ==> Tables() == old(Tables())
    {
      var saved := Tables();
      var claim := UpdateClaim(id, {Submitted}, Rejected, None);
      if claim != 1 {
        return Err(NotPending);
      }
      var closed := UpdateChallenge(id, Claimed, Completed);
      if closed != 1 {
        Rollback(saved);
        return Err(NotReviewable);
      }
      var ok := Credit(snap.creator, snap.reserved, RefundClose, id);
      if !ok {
        Rollback(saved);
        return Err(WalletRefused);
      }
      return Ok(());
    }

    /** Reads the row, then closes it if it is still open and overdue. */
    method CloseWithoutAward(id: ChallengeId, now: int) returns (r: Result<(), Failure>)
      modifies this
      ensures id < |old(challenges)| ==>
                var t := SweepOpenTx(old(Tables()), id, old(challenges)[id], now);
                && (r.Ok? <==> t.Some?)
                && (r.Ok? ==> Some(Tables()) == t)
      ensures r.Err? || id >= |old(challenges)| ==> Tables() == old(Tables())
    {
      if id >= |challenges| {
        return Ok(());
      }
      var saved, snap := Tables(), challenges[id];
      if !(challenges[id].status == Open && challenges[id].expiresAt <= now) {
        return Ok(());
      }
      challenges := challenges[id := challenges[id].(status := Expired)];
      var ok := Credit(snap.creator, snap.reserved, RefundClose, id);
      if !ok {
        Rollback(saved);
        return Err(WalletRefused);
      }
      return Ok(());
    }

    /** One abandoned claim; both early returns keep what was written before them. */
    method ExpireAbandoned(id: ChallengeId, snap: Challenge) returns (r: Result<(), Failure>)
      modifies this
      ensures r.Ok? <==> SweepClaimedTx(old(Tables()), id, snap).Some?
      ensures r.Ok? ==> Some(Tables()) == SweepClaimedTx(old(Tables()), id, snap)
      ensures r.Err? ==> Tables() == old(Tables())
    {
      var saved := Tables();
      var expired := UpdateClaim(id, SUBMITTABLE, Lapsed, None);
      if expired != 1 {
        return Ok(());
      }
      var closed := UpdateChallenge(id, Claimed, Expired);
      if closed != 1 {
        return Ok(());
      }
      var ok := Credit(snap.creator, snap.reserved, RefundClose, id);
      if !ok {
        Rollback(saved);
        return Err(WalletRefused);
      }
      return Ok(());
    }

    /** The scheduled sweep: a page of overdue offers, then a page of abandoned claims, each closed in its
        own transaction. A sweep that runs alone closes and refunds a hundred overdue offers and a hundred
        abandoned claims, or all there are, and moves nothing else. */
    method SweepExpired(now: int)
      requires Inv(Tables())
      modifies this
      ensures Kept(old(Tables()), Tables()) && OneSweep(old(Tables()), Tables(), now)
      ensures OnlyDueRowsMove(old(Tables()), Tables(), now)
      ensures |challenges| == |old(challenges)|
      ensures var due := set id: nat | id < |old(challenges)| && old(challenges)[id].status == Open
                                       && old(challenges)[id].expiresAt <= now;
              var closed := set id | id in due && challenges[id].status == Expired;
              |closed| == (if |due| <= 100 then |due| else 100) && (|due| <= 100 ==> closed == due)
      ensures var due := set id: nat | id < |old(challenges)| && old(challenges)[id].status == Claimed && id in old(claims)
                                       && old(claims)[id].status in {Assigned, InProgress} && old(claims)[id].expiresAt <= now;
              var closed := set id | id in due && challenges[id].status == Expired;
              |closed| == (if |due| <= 100 then |due| else 100) && (|due| <= 100 ==> closed == due)
    {
      ghost var before := Tables();
      var offers := TakePage(OverdueOpen(Tables(), now), SWEEP_PAGE);
      SweepOffers(offers, now);
      OffersSwept(before, offers, now);
      assert Inv(Tables()) by { KeptInv(before, Tables()); }
      var lapsed := TakePage(Abandoned(Tables(), now), SWEEP_PAGE);
      hide Inv, Kept, Swept, OneSweep, OverdueOpen, Abandoned;
      SweepClaims(lapsed, now);
      WholeSweep(before, offers, lapsed, now);
      SweepMovesOnlyDue(before, Tables(), now);
      ghost var expired, dropped :| Swept(before, Tables(), now, expired, dropped)
        && |expired| == Min(SWEEP_PAGE, |OverdueOpen(before, now)|) && |dropped| == Min(SWEEP_PAGE, |Abandoned(before, now)|);
      OfferPage(before, Tables(), now, expired, dropped);
      ClaimPage(before, Tables(), now, expired, dropped);
    }

    /** The first loop: each overdue offer in its own transaction, at its own reading of the clock. */
    method SweepOffers(offers: seq<ChallengeId>, now: int)
      requires Inv(Tables()) && Distinct(offers) && Elements(offers) <= OverdueOpen(Tables(), now)
      modifies this
      ensures Tables() == CloseOffers(old(Tables()), offers, now)
    {
      hide Inv, OverdueOpen, SweepOpenTx;
      for i := 0 to |offers|
        invariant Tables() == CloseOffers(old(Tables()), offers[..i], now)
      {
        var later :| later >= now;
        OfferTurn(old(Tables()), offers, i, now, later);
        var r := CloseWithoutAward(offers[i], later);
      }
      assert offers[..|offers|] == offers;
    }

    /** The second loop: each abandoned claim in its own transaction. */
    method SweepClaims(lapsed: seq<ChallengeId>, now: int)
      requires Inv(Tables()) && Distinct(lapsed) && Elements(lapsed) <= Abandoned(Tables(), now)
      modifies this
      ensures Tables() == CloseClaims(old(Tables()), lapsed)
    {
      hide Inv, Abandoned, SweepClaimedTx;
      for i := 0 to |lapsed|
        invariant Tables() == CloseClaims(old(Tables()), lapsed[..i])
      {
        ClaimTurn(old(Tables()), lapsed, i, now);
        var r := ExpireAbandoned(lapsed[i], challenges[lapsed[i]]);
      }
      assert lapsed[..|lapsed|] == lapsed;
    }
  }

  /** The rows a `take`-limited query without an order may return: distinct matches, as many as there are up to the limit. */
  method TakePage(matches: set<ChallengeId>, take: nat) returns (page: seq<ChallengeId>)
    ensures |page| == Min(take, |matches|)
    ensures Distinct(page) && Elements(page) <= matches
  {
    page := [];
    var rest := matches;
    while |page| < take && rest != {}
      invariant |page| <= take && |page| + |rest| == |matches| && rest <= matches
      invariant forall i :: 0 <= i < |page| ==> page[i] in matches && page[i] !in rest
      invariant forall i, j :: 0 <= i < j < |page| ==> page[i] != page[j]
      decreases rest
    {
      var id :| id in rest;
      page := page + [id];
      rest := rest - {id};
    }
  }

  // ---- what the two loops of the sweep compute ----

  function CloseOffers(db: Db, page: seq<ChallengeId>, now: int): Db {
    if page == [] then db
    else
      var n := |page| - 1;
      var front := CloseOffers(db, page[..n], now);
      if page[n] >= |front.challenges| then front
      else
        match SweepOpenTx(front, page[n], front.challenges[page[n]], now)
        case Some(next) => next
        case None => front
  }

  function CloseClaims(db: Db, page: seq<ChallengeId>): Db {
    if page == [] then db
    else
      var n := |page| - 1;
      var front := CloseClaims(db, page[..n]);
      if page[n] >= |front.challenges| then front
      else
        match SweepClaimedTx(front, page[n], front.challenges[page[n]])
        case Some(next) => next
        case None => front
  }

  function Elements(page: seq<ChallengeId>): set<ChallengeId> { set id | id in page }

  predicate Distinct(page: seq<ChallengeId>) {
    forall i, j :: 0 <= i < j < |page| ==> page[i] != page[j]
  }

  /** The invariant and the credits survive, and settled rows stay settled. */
  ghost predicate Kept(a: Db, b: Db) {
    Inv(b) && Evolves(a, b) && Total(b) == Total(a) && WalletsPosted(a, b)
  }

  /** Wallets moved by what the ledger posted to them. */
  ghost predicate WalletsPosted(a: Db, b: Db) {
    && |b.balances| == |a.balances|
    && forall u :: 0 <= u < |a.balances| ==>
         b.balances[u] - a.balances[u] == Posted(b.ledger, u) - Posted(a.ledger, u)
  }

  lemma PostPosts(a: Db, b: Db, e: Entry)
    requires e.user < |a.balances| && b.ledger == a.ledger + [e]
    requires b.balances == a.balances[e.user := a.balances[e.user] + e.amount]
    ensures WalletsPosted(a, b)
  {
    forall u | 0 <= u < |a.balances| ensures Posted(b.ledger, u) - Posted(a.ledger, u) == if e.user == u then e.amount else 0 {
      PostedPush(a.ledger, e, u);
    }
  }

  /** Exactly the `offers` and the claims in `lapsed` were closed. */
  ghost predicate Swept(a: Db, b: Db, now: int, offers: set<ChallengeId>, lapsed: set<ChallengeId>) {
    && |a.challenges| == |b.challenges|
    && offers <= OverdueOpen(a, now) && OverdueOpen(b, now) == OverdueOpen(a, now) - offers
    && lapsed <= Abandoned(a, now) && Abandoned(b, now) == Abandoned(a, now) - lapsed
    && (forall id :: 0 <= id < |a.challenges| ==>
          && b.challenges[id] == (if id in offers + lapsed then a.challenges[id].(status := Expired) else a.challenges[id])
          && Lookup(b, id) == (if id in lapsed && id in a.claims then Some(a.claims[id].(status := Lapsed)) else Lookup(a, id)))
  }

  lemma KeptTransitive(a: Db, b: Db, c: Db)
    requires Kept(a, b) && Kept(b, c)
    ensures Kept(a, c)
  {
    EvolvesTransitive(a, b, c);
  }

  lemma SweptBoth(a: Db, b: Db, c: Db, now: int, offers: set<ChallengeId>, lapsed: set<ChallengeId>)
    requires Swept(a, b, now, offers, {}) && Swept(b, c, now, {}, lapsed)
    ensures Swept(a, c, now, offers, lapsed)
  {
  }

  lemma {:induction false} OfferSwept(a: Db, now: int, id: ChallengeId)
    requires Inv(a) && id in OverdueOpen(a, now)
    ensures var t := SweepOpenTx(a, id, a.challenges[id], now);
            t.Some? && Kept(a, t.value) && Swept(a, t.value, now, {id}, {})
  {
    SweepOpenOk(a, id, a.challenges[id], now);
    var b := SweepOpenTx(a, id, a.challenges[id], now).value;
    PostPosts(a, b, Entry(RefundClose, a.challenges[id].creator, a.challenges[id].reserved, id));
    assert OverdueOpen(b, now) == OverdueOpen(a, now) - {id};
    assert Abandoned(b, now) == Abandoned(a, now);
  }

  lemma {:induction false} ClaimSwept(a: Db, now: int, id: ChallengeId)
    requires Inv(a) && id in Abandoned(a, now)
    ensures var t := SweepClaimedTx(a, id, a.challenges[id]);
            t.Some? && Kept(a, t.value) && Swept(a, t.value, now, {}, {id})
  {
    assert RowOk(a, id);
    SweepClaimedOk(a, id, a.challenges[id]);
    hide Inv, RowOk, Total, Minted, Evolves, Abandoned;
    ClaimSweptRow(a, now, id);
  }

  lemma ClaimSweptRow(a: Db, now: int, id: ChallengeId)
    requires id in Abandoned(a, now) && CanCredit(a, a.challenges[id].creator, a.challenges[id].reserved)
    ensures var t := SweepClaimedTx(a, id, a.challenges[id]);
            t.Some? && WalletsPosted(a, t.value) && Swept(a, t.value, now, {}, {id})
  {
    var b := SweepClaimedTx(a, id, a.challenges[id]).value;
    assert b.challenges == a.challenges[id := a.challenges[id].(status := Expired)];
    assert b.claims == a.claims[id := a.claims[id].(status := Lapsed)];
    PostPosts(a, b, Entry(RefundClose, a.challenges[id].creator, a.challenges[id].reserved, id));
    hide WalletsPosted, SweepClaimedTx;
    LapsedRow(a, b, now, id);
  }

  lemma LapsedRow(a: Db, b: Db, now: int, id: ChallengeId)
    requires id in Abandoned(a, now)
    requires b.challenges == a.challenges[id := a.challenges[id].(status := Expired)]
    requires b.claims == a.claims[id := a.claims[id].(status := Lapsed)]
    ensures Swept(a, b, now, {}, {id})
  {
    assert Abandoned(b, now) == Abandoned(a, now) - {id};
    assert OverdueOpen(b, now) == OverdueOpen(a, now);
  }

  lemma SweptMore(a: Db, b: Db, c: Db, now: int, offers: set<ChallengeId>, lapsed: set<ChallengeId>,
                  moreOffers: set<ChallengeId>, moreLapsed: set<ChallengeId>)
    requires Swept(a, b, now, offers, lapsed) && Swept(b, c, now, moreOffers, moreLapsed)
    ensures Swept(a, c, now, offers + moreOffers, lapsed + moreLapsed)
  {
  }

  lemma {:induction false} OfferStep(db: Db, front: Db, done: set<ChallengeId>, id: ChallengeId, now: int)
    requires Kept(db, front) && Swept(db, front, now, done, {}) && id in OverdueOpen(db, now) && id !in done
    ensures id < |front.challenges|
    ensures var t := SweepOpenTx(front, id, front.challenges[id], now);
            t.Some? && Kept(db, t.value) && Swept(db, t.value, now, done + {id}, {})
  {
    OfferSwept(front, now, id);
    var b := SweepOpenTx(front, id, front.challenges[id], now).value;
    KeptTransitive(db, front, b);
    SweptMore(db, front, b, now, done, {}, {id}, {});
  }

  lemma StillAbandoned(db: Db, front: Db, done: set<ChallengeId>, id: ChallengeId, now: int)
    requires Swept(db, front, now, {}, done) && id in Abandoned(db, now) && id !in done
    ensures id < |front.challenges| && id in Abandoned(front, now)
  {
  }

  lemma {:induction false} ClaimStep(db: Db, front: Db, done: set<ChallengeId>, id: ChallengeId, now: int)
    requires Kept(db, front) && Swept(db, front, now, {}, done) && id in Abandoned(db, now) && id !in done
    ensures id < |front.challenges|
    ensures var t := SweepClaimedTx(front, id, front.challenges[id]);
            t.Some? && Kept(db, t.value) && Swept(db, t.value, now, {}, done + {id})
  {
    hide Inv, Kept, Swept, Abandoned, OverdueOpen, SweepClaimedTx;
    KeptInv(db, front);
    StillAbandoned(db, front, done, id, now);
    ClaimSwept(front, now, id);
    var b := SweepClaimedTx(front, id, front.challenges[id]).value;
    KeptTransitive(db, front, b);
    var none: set<ChallengeId> := {};
    SweptMore(db, front, b, now, none, done, none, {id});
    assert none + none == none;
  }

  lemma DistinctLast(page: seq<ChallengeId>)
    requires page != [] && Distinct(page)
    ensures var n := |page| - 1;
            && Distinct(page[..n]) && page[n] !in Elements(page[..n])
            && Elements(page) == Elements(page[..n]) + {page[n]}
  {
    var n := |page| - 1;
    assert page == page[..n] + [page[n]];
  }

  lemma {:induction false} DistinctSize(page: seq<ChallengeId>)
    requires Distinct(page)
    ensures |Elements(page)| == |page|
  {
    if page != [] {
      DistinctLast(page);
      DistinctSize(page[..|page| - 1]);
    }
  }

  /** A page of overdue offers leaves escrow whole: closed, refunded, the rest untouched. */
  lemma {:induction false} OffersSwept(db: Db, page: seq<ChallengeId>, now: int)
    requires Inv(db) && Distinct(page) && Elements(page) <= OverdueOpen(db, now)
    ensures Kept(db, CloseOffers(db, page, now)) && Swept(db, CloseOffers(db, page, now), now, Elements(page), {})
  {
    if page == [] {
      EvolvesReflexive(db);
    } else {
      var n := |page| - 1;
      DistinctLast(page);
      OffersSwept(db, page[..n], now);
      OfferStep(db, CloseOffers(db, page[..n], now), Elements(page[..n]), page[n], now);
    }
  }

  lemma {:induction false} ClaimsSwept(db: Db, page: seq<ChallengeId>, now: int)
    requires Inv(db) && Distinct(page) && Elements(page) <= Abandoned(db, now)
    ensures Kept(db, CloseClaims(db, page)) && Swept(db, CloseClaims(db, page), now, {}, Elements(page))
  {
    if page == [] {
      EvolvesReflexive(db);
    } else {
      var n := |page| - 1;
      DistinctLast(page);
      ClaimsSwept(db, page[..n], now);
      ClaimStep(db, CloseClaims(db, page[..n]), Elements(page[..n]), page[n], now);
    }
  }

  /** A candidate whose turn comes still exists, and an overdue offer is still open whenever the clock is read. */
  lemma OfferTurn(db: Db, page: seq<ChallengeId>, i: nat, now: int, later: int)
    requires Inv(db) && Distinct(page) && Elements(page) <= OverdueOpen(db, now) && i < |page| && now <= later
    ensures var front := CloseOffers(db, page[..i], now);
            && page[i] < |front.challenges|
            && SweepOpenTx(front, page[i], front.challenges[page[i]], later) == Some(CloseOffers(db, page[..i + 1], now))
  {
    NextOnPage(page, i);
    OffersSwept(db, page[..i], now);
    OfferStep(db, CloseOffers(db, page[..i], now), Elements(page[..i]), page[i], now);
    hide Inv, Kept, Elements, Distinct;
  }

  lemma NextOnPage(page: seq<ChallengeId>, i: nat)
    requires Distinct(page) && i < |page|
    ensures page[i] in Elements(page) && page[i] !in Elements(page[..i])
    ensures Distinct(page[..i]) && Elements(page[..i]) <= Elements(page)
    ensures page[..i + 1] != [] && page[..i + 1][..i] == page[..i]
  {
  }

  lemma ClaimTurn(db: Db, page: seq<ChallengeId>, i: nat, now: int)
    requires Inv(db) && Distinct(page) && Elements(page) <= Abandoned(db, now) && i < |page|
    ensures var front := CloseClaims(db, page[..i]);
            && page[i] < |front.challenges|
            && SweepClaimedTx(front, page[i], front.challenges[page[i]]) == Some(CloseClaims(db, page[..i + 1]))
  {
    hide Inv, Kept, Swept, SweepClaimedTx, Abandoned, Elements, Distinct;
    NextOnPage(page, i);
    ClaimsSwept(db, page[..i], now);
    ClaimStep(db, CloseClaims(db, page[..i]), Elements(page[..i]), page[i], now);
  }

  lemma {:induction false} WholeSweep(a: Db, offers: seq<ChallengeId>, lapsed: seq<ChallengeId>, now: int)
    requires Inv(a) && Distinct(offers) && Distinct(lapsed)
    requires Elements(offers) <= OverdueOpen(a, now) && |offers| == Min(SWEEP_PAGE, |OverdueOpen(a, now)|)
    requires var b := CloseOffers(a, offers, now);
             Elements(lapsed) <= Abandoned(b, now) && |lapsed| == Min(SWEEP_PAGE, |Abandoned(b, now)|)
    ensures var c := CloseClaims(CloseOffers(a, offers, now), lapsed);
            Kept(a, c) && OneSweep(a, c, now)
  {
    hide Inv, CloseOffers, CloseClaims, Evolves, OverdueOpen, Abandoned;
    var b := CloseOffers(a, offers, now);
    OffersSwept(a, offers, now);
    assert Inv(b) by { KeptInv(a, b); }
    ClaimsSwept(b, lapsed, now);
    var c := CloseClaims(b, lapsed);
    KeptTransitive(a, b, c);
    SweptBoth(a, b, c, now, Elements(offers), Elements(lapsed));
    DistinctSize(offers);
    DistinctSize(lapsed);
    assert Abandoned(b, now) == Abandoned(a, now);
  }

  lemma KeptInv(a: Db, b: Db)
    requires Kept(a, b)
    ensures Inv(b)
  {
  }

  /** A full page, or all there is, of overdue offers and of abandoned claims is closed, and nothing else moves. */
  ghost predicate OneSweep(a: Db, b: Db, now: int) {
    exists offers, lapsed :: Swept(a, b, now, offers, lapsed)
      && |offers| == Min(SWEEP_PAGE, |OverdueOpen(a, now)|)
      && |lapsed| == Min(SWEEP_PAGE, |Abandoned(a, now)|)
  }

  /** What a sweep may do to a row, with its terms written out: an offer past its deadline expires; a claim
      past its own that was not handed in lapses and its challenge expires; the creator is refunded, once.
      Any other row, claim, wallet or ledger entry stays as it was: a submitted claim above all. */
  ghost predicate OnlyDueRowsMove(a: Db, b: Db, now: int) {
    && |b.challenges| == |a.challenges| && a.ledger <= b.ledger && |b.balances| == |a.balances|
    && (forall id :: 0 <= id < |a.challenges| ==> RowMove(a, b, now, id))
    && (forall id :: id in a.claims && a.claims[id].status == Submitted ==>
          id in b.claims && b.claims[id] == a.claims[id]
          && id < |a.challenges| && b.challenges[id] == a.challenges[id])
    && (forall u :: 0 <= u < |a.balances| ==>
          b.balances[u] - a.balances[u] == Posted(b.ledger, u) - Posted(a.ledger, u))
  }

  ghost predicate RowMove(a: Db, b: Db, now: int, id: ChallengeId)
    requires id < |a.challenges| == |b.challenges| && a.ledger <= b.ledger
  {
    || (b.challenges[id] == a.challenges[id] && Lookup(b, id) == Lookup(a, id)
        && forall i :: |a.ledger| <= i < |b.ledger| ==> b.ledger[i].ref != id)
    || (a.challenges[id].status == Open && a.challenges[id].expiresAt <= now
        && id !in a.claims && id !in b.claims && Refunded(a, b, id))
    || (a.challenges[id].status == Claimed && id in a.claims
        && (a.claims[id].status == Assigned || a.claims[id].status == InProgress) && a.claims[id].expiresAt <= now
        && id in b.claims && b.claims[id] == a.claims[id].(status := Lapsed) && Refunded(a, b, id))
  }

  /** The row expired, and its whole reserve went back to its creator in one new ledger row. */
  ghost predicate Refunded(a: Db, b: Db, id: ChallengeId)
    requires id < |a.challenges| && id < |b.challenges| && a.ledger <= b.ledger
  {
    && b.challenges[id] == a.challenges[id].(status := Expired)
    && exists i :: |a.ledger| <= i < |b.ledger|
         && b.ledger[i] == Entry(RefundClose, a.challenges[id].creator, a.challenges[id].reserved, id)
         && forall j :: |a.ledger| <= j < |b.ledger| && j != i ==> b.ledger[j].ref != id
  }

  lemma {:induction false} EntriesSplit(first: seq<Entry>, more: seq<Entry>, id: ChallengeId)
    ensures EntriesFor(first + more, id) == EntriesFor(first, id) + EntriesFor(more, id)
  {
    if more == [] {
      assert first + more == first;
    } else {
      var front, e := more[..|more| - 1], more[|more| - 1];
      EntriesSplit(first, front, id);
      assert first + more == first + front + [e] && more == front + [e];
      EntriesPush(first + front, e, id);
      EntriesPush(front, e, id);
    }
  }

  /** The rows of one challenge among new ledger rows: none, or a single one. */
  lemma {:induction false} NoEntry(more: seq<Entry>, id: ChallengeId)
    requires EntriesFor(more, id) == []
    ensures forall i :: 0 <= i < |more| ==> more[i].ref != id
  {
    if more != [] {
      NoEntry(more[..|more| - 1], id);
    }
  }

  lemma {:induction false} OneEntry(more: seq<Entry>, id: ChallengeId, e: Entry) returns (at: nat)
    requires EntriesFor(more, id) == [e]
    ensures at < |more| && more[at] == e && forall i :: 0 <= i < |more| && i != at ==> more[i].ref != id
  {
    var front := more[..|more| - 1];
    if more[|more| - 1].ref == id {
      var earlier := EntriesFor(front, id);
      assert EntriesFor(more, id) == earlier + [more[|more| - 1]] && |earlier| == 0;
      assert (earlier + [more[|more| - 1]])[0] == e;
      NoEntry(front, id);
      at := |more| - 1;
    } else {
      at := OneEntry(front, id, e);
    }
  }

  lemma NewEntries(a: Db, b: Db, id: ChallengeId)
    requires Inv(a) && Inv(b) && a.ledger <= b.ledger && id < |a.challenges| <= |b.challenges|
    ensures Movements(id, b.challenges[id], Lookup(b, id))
         == Movements(id, a.challenges[id], Lookup(a, id)) + EntriesFor(b.ledger[|a.ledger|..], id)
  {
    assert RowOk(a, id) && RowOk(b, id);
    assert b.ledger == a.ledger + b.ledger[|a.ledger|..];
    EntriesSplit(a.ledger, b.ledger[|a.ledger|..], id);
  }

  lemma RowRefunded(a: Db, b: Db, id: ChallengeId)
    requires Inv(a) && Inv(b) && a.ledger <= b.ledger && id < |a.challenges| <= |b.challenges| && Live(a.challenges[id])
    requires b.challenges[id] == a.challenges[id].(status := Expired)
    ensures Refunded(a, b, id)
  {
    NewEntries(a, b, id);
    hide Inv, EntriesFor;
    var e := Entry(RefundClose, a.challenges[id].creator, a.challenges[id].reserved, id);
    var reserve := [Entry(SpendCreate, a.challenges[id].creator, -a.challenges[id].reserved, id)];
    assert reserve + [e] == reserve + EntriesFor(b.ledger[|a.ledger|..], id);
    assert EntriesFor(b.ledger[|a.ledger|..], id) == [e] by {
      assert (reserve + [e])[1..] == [e] && (reserve + EntriesFor(b.ledger[|a.ledger|..], id))[1..] == EntriesFor(b.ledger[|a.ledger|..], id);
    }
    var at := OneEntry(b.ledger[|a.ledger|..], id, e);
    assert b.ledger[|a.ledger| + at] == e;
    forall j | |a.ledger| <= j < |b.ledger| && j != |a.ledger| + at ensures b.ledger[j].ref != id {
      assert b.ledger[j] == b.ledger[|a.ledger|..][j - |a.ledger|];
    }
  }

  lemma RowUnmoved(a: Db, b: Db, id: ChallengeId)
    requires Inv(a) && Inv(b) && a.ledger <= b.ledger && id < |a.challenges| <= |b.challenges|
    requires b.challenges[id] == a.challenges[id] && Lookup(b, id) == Lookup(a, id)
    ensures forall i :: |a.ledger| <= i < |b.ledger| ==> b.ledger[i].ref != id
  {
    NewEntries(a, b, id);
    NoEntry(b.ledger[|a.ledger|..], id);
    forall j | |a.ledger| <= j < |b.ledger| ensures b.ledger[j].ref != id {
      assert b.ledger[j] == b.ledger[|a.ledger|..][j - |a.ledger|];
    }
  }

  lemma SweptRow(a: Db, b: Db, now: int, offers: set<ChallengeId>, lapsed: set<ChallengeId>, id: ChallengeId)
    requires Inv(a) && Kept(a, b) && Swept(a, b, now, offers, lapsed) && id < |a.challenges|
    ensures RowMove(a, b, now, id)
  {
    assert RowOk(a, id);
    hide Inv, EntriesFor, FeesFor, Movements, FeeMovements, Refunded, Total;
    if id in offers + lapsed {
      RowRefunded(a, b, id);
    } else {
      RowUnmoved(a, b, id);
    }
  }

  lemma SubmittedStays(a: Db, b: Db, now: int, offers: set<ChallengeId>, lapsed: set<ChallengeId>, id: ChallengeId)
    requires Inv(a) && Swept(a, b, now, offers, lapsed) && id in a.claims && a.claims[id].status == Submitted
    ensures id < |a.challenges| && b.challenges[id] == a.challenges[id]
    ensures id in b.claims && b.claims[id] == a.claims[id]
  {
    assert id < |a.challenges| && RowOk(a, id);
    hide Inv, EntriesFor, FeesFor, Movements, FeeMovements;
    assert id !in offers + lapsed;
    assert Lookup(b, id) == Lookup(a, id);
  }

  lemma {:induction false} SweepMovesOnlyDue(a: Db, b: Db, now: int)
    requires Inv(a) && Kept(a, b) && OneSweep(a, b, now)
    ensures OnlyDueRowsMove(a, b, now)
  {
    hide Inv, RowMove, Total, OverdueOpen, Abandoned;
    var offers, lapsed :| Swept(a, b, now, offers, lapsed);
    forall id | 0 <= id < |a.challenges| ensures RowMove(a, b, now, id) {
      SweptRow(a, b, now, offers, lapsed, id);
    }
    forall id | id in a.claims && a.claims[id].status == Submitted
      ensures id < |a.challenges| && b.challenges[id] == a.challenges[id]
      ensures id in b.claims && b.claims[id] == a.claims[id]
    {
      SubmittedStays(a, b, now, offers, lapsed, id);
    }
  }

  lemma {:induction false} OfferPage(a: Db, b: Db, now: int, offers: set<ChallengeId>, lapsed: set<ChallengeId>)
    requires Swept(a, b, now, offers, lapsed) && |offers| == Min(SWEEP_PAGE, |OverdueOpen(a, now)|)
    ensures |b.challenges| == |a.challenges|
    ensures var due := set id: nat | id < |a.challenges| && a.challenges[id].status == Open && a.challenges[id].expiresAt <= now;
            var closed := set id | id in due && b.challenges[id].status == Expired;
            |closed| == (if |due| <= 100 then |due| else 100) && (|due| <= 100 ==> closed == due)
  {
    DueSets(a, now);
    ExpiredAmong(a, b, now, offers, lapsed);
    PageOf(offers, OverdueOpen(a, now));
    hide Swept, OverdueOpen, Abandoned;
  }

  lemma {:induction false} ClaimPage(a: Db, b: Db, now: int, offers: set<ChallengeId>, lapsed: set<ChallengeId>)
    requires Swept(a, b, now, offers, lapsed) && |lapsed| == Min(SWEEP_PAGE, |Abandoned(a, now)|)
    ensures |b.challenges| == |a.challenges|
    ensures var due := set id: nat | id < |a.challenges| && a.challenges[id].status == Claimed && id in a.claims
                                     && a.claims[id].status in {Assigned, InProgress} && a.claims[id].expiresAt <= now;
            var closed := set id | id in due && b.challenges[id].status == Expired;
            |closed| == (if |due| <= 100 then |due| else 100) && (|due| <= 100 ==> closed == due)
  {
    DueSets(a, now);
    ExpiredAmong(a, b, now, offers, lapsed);
    PageOf(lapsed, Abandoned(a, now));
    hide Swept, OverdueOpen, Abandoned;
  }

  lemma ExpiredAmong(a: Db, b: Db, now: int, offers: set<ChallengeId>, lapsed: set<ChallengeId>)
    requires Swept(a, b, now, offers, lapsed)
    ensures forall id :: id in OverdueOpen(a, now) ==> id < |b.challenges|
    ensures forall id :: id in Abandoned(a, now) ==> id < |b.challenges|
    ensures offers == set id | id in OverdueOpen(a, now) && b.challenges[id].status == Expired
    ensures lapsed == set id | id in Abandoned(a, now) && b.challenges[id].status == Expired
  {
  }

  lemma PageOf(page: set<ChallengeId>, due: set<ChallengeId>)
    requires page <= due && |page| == Min(SWEEP_PAGE, |due|)
    ensures |due| <= 100 ==> page == due
  {
    if page != due {
      assert |due - page| == |due| - |page| && |due - page| > 0;
    }
  }

  /** Sweeps in a row with nothing in between: each takes a hundred of either kind while there are so many,
      so `ceil(max(n, m) / 100)` of them leave no offer and no unsubmitted claim past its deadline. */
  lemma SweepsFinish(states: seq<Db>, now: int)
    requires states != [] && forall i :: 0 <= i < |states| - 1 ==> OneSweep(states[i], states[i + 1], now)
    ensures
      var runs, first, last := |states| - 1, states[0], states[|states| - 1];
      var offers := set id: nat | id < |first.challenges| && first.challenges[id].status == Open
                                  && first.challenges[id].expiresAt <= now;
      var left := set id: nat | id < |last.challenges| && last.challenges[id].status == Open
                                && last.challenges[id].expiresAt <= now;
      var claims := set id: nat | id < |first.challenges| && first.challenges[id].status == Claimed && id in first.claims
                                  && first.claims[id].status in {Assigned, InProgress} && first.claims[id].expiresAt <= now;
      var leftClaims := set id: nat | id < |last.challenges| && last.challenges[id].status == Claimed && id in last.claims
                                      && last.claims[id].status in {Assigned, InProgress} && last.claims[id].expiresAt <= now;
      && |left| == (if |offers| > 100 * runs then |offers| - 100 * runs else 0)
      && |leftClaims| == (if |claims| > 100 * runs then |claims| - 100 * runs else 0)
      && left <= offers && leftClaims <= claims
  {
    SweepsCount(states, now);
    DueSets(states[0], now);
    DueSets(states[|states| - 1], now);
  }

  lemma DueSets(db: Db, now: int)
    ensures OverdueOpen(db, now) == set id: nat | id < |db.challenges| && db.challenges[id].status == Open
                                                  && db.challenges[id].expiresAt <= now
    ensures Abandoned(db, now) == set id: nat | id < |db.challenges| && db.challenges[id].status == Claimed && id in db.claims
                                                && db.claims[id].status in {Assigned, InProgress} && db.claims[id].expiresAt <= now
  {
  }

  lemma {:induction false} SweepsCount(states: seq<Db>, now: int)
    requires states != [] && forall i :: 0 <= i < |states| - 1 ==> OneSweep(states[i], states[i + 1], now)
    ensures var runs, last := |states| - 1, states[|states| - 1];
            && |OverdueOpen(last, now)| == Max(0, |OverdueOpen(states[0], now)| - runs * SWEEP_PAGE)
            && |Abandoned(last, now)| == Max(0, |Abandoned(states[0], now)| - runs * SWEEP_PAGE)
            && OverdueOpen(last, now) <= OverdueOpen(states[0], now) && Abandoned(last, now) <= Abandoned(states[0], now)
  {
    var n := |states| - 1;
    if n > 0 {
      var front := states[..n];
      SweepsCount(front, now);
      assert OneSweep(states[n - 1], states[(n - 1) + 1], now);
      OneSweepCounts(states[n - 1], states[n], now);
      hide OneSweep, OverdueOpen, Abandoned;
      assert (n - 1) * SWEEP_PAGE + SWEEP_PAGE == n * SWEEP_PAGE;
      assert front[n - 1] == states[n - 1] && front[0] == states[0];
    }
  }

  lemma OneSweepCounts(a: Db, b: Db, now: int)
    requires OneSweep(a, b, now)
    ensures |OverdueOpen(b, now)| == Max(0, |OverdueOpen(a, now)| - SWEEP_PAGE)
    ensures |Abandoned(b, now)| == Max(0, |Abandoned(a, now)| - SWEEP_PAGE)
    ensures OverdueOpen(b, now) <= OverdueOpen(a, now) && Abandoned(b, now) <= Abandoned(a, now)
  {
    hide OverdueOpen, Abandoned;
    var offers, lapsed :| Swept(a, b, now, offers, lapsed)
      && |offers| == Min(SWEEP_PAGE, |OverdueOpen(a, now)|) && |lapsed| == Min(SWEEP_PAGE, |Abandoned(a, now)|);
    assert |OverdueOpen(b, now)| == |OverdueOpen(a, now)| - |offers|;
    assert |Abandoned(b, now)| == |Abandoned(a, now)| - |lapsed|;
  }
}
