/** What every interleaving of suppression passes keeps. */
module SuppressionTheorems {
  import opened Wrappers
  import opened TabindexTexts
  import opened SuppressionModel

  /** Every record is of a live pass, and members, records and markers say the same. */
  ghost predicate Coherent(s: State) {
    && s.live <= s.passes.Keys
    && (forall p <- s.passes :: p <= s.counter)
    && (forall el <- s.ownership :: s.ownership[el].pass in s.live)
    && (forall p: PassId, el: Element :: p in s.live ==> (el in s.passes[p].members <==> Owns(s, p, el)))
    && s.marker.Keys == s.ownership.Keys
    && (forall el <- s.ownership :: s.marker[el] == s.ownership[el].pass)
  }

  /** An element the application left alone while it was owned shows what the application wrote, or is
      hidden with that on record. */
  predicate Restorable(s: State, el: Element) {
    if el in s.ownership
    then s.ownership[el].original == Attr(s.app, el) && Attr(s.tab, el) == Some(HIDDEN)
    else Attr(s.tab, el) == Attr(s.app, el)
  }

  ghost predicate Inv(s: State) {
    && Coherent(s)
    && (forall el: Element :: el !in s.touched ==> Restorable(s, el))
    && (forall el <- s.ownership :: Attr(s.tab, el) == Some(HIDDEN) || Attr(s.tab, el) == Attr(s.app, el))
  }

  lemma LetGoCoherent(s: State, p: PassId, els: set<Element>, members: set<Element>)
    requires Coherent(s) && p in s.live && els <= s.passes[p].members && members == s.passes[p].members - els
    ensures Coherent(WithMembers(RestoreAll(s, p, els), p, members))
  {
    var r := WithMembers(RestoreAll(s, p, els), p, members);
    forall el: Element
      ensures el in r.ownership <==> el in s.ownership && !(el in els && Owns(s, p, el))
      ensures el in r.ownership ==> r.ownership[el] == s.ownership[el]
      ensures el in r.marker <==> el in s.marker && !(el in els && Owns(s, p, el))
      ensures el in r.marker ==> r.marker[el] == s.marker[el]
    {
      RestoreAllAttrs(s, p, els, el);
    }
    assert r.live == s.live && r.counter == s.counter;
    assert r.passes == s.passes[p := s.passes[p].(members := members)];
    hide RestoreAll;
    hide WithMembers;
    forall q: PassId, el: Element | q in r.live
      ensures el in r.passes[q].members <==> Owns(r, q, el)
    {
      assert el in s.passes[q].members <==> Owns(s, q, el);
      assert el in els ==> Owns(s, p, el);
    }
  }

  /** Letting go gives back what is on record, or leaves what was written meanwhile. */
  lemma LetGoRestores(s: State, p: PassId, els: set<Element>, el: Element)
    requires Inv(s)
    ensures var r := RestoreAll(s, p, els);
            && (el !in s.touched ==> Restorable(r, el))
            && (el in r.ownership ==> Attr(r.tab, el) == Some(HIDDEN) || Attr(r.tab, el) == Attr(s.app, el))
  {
    RestoreAllAttrs(s, p, els, el);
    var r := RestoreAll(s, p, els);
    assert r.app == s.app;
    hide RestoreAll;
    hide Attr;
    hide Coherent;
    assert el !in s.touched ==> Restorable(s, el);
  }

  lemma {:induction false} LetGoKeepsInv(s: State, p: PassId, els: set<Element>, members: set<Element>)
    requires Inv(s) && p in s.live && els <= s.passes[p].members && members == s.passes[p].members - els
    ensures Inv(WithMembers(RestoreAll(s, p, els), p, members))
  {
    var r := WithMembers(RestoreAll(s, p, els), p, members);
    LetGoCoherent(s, p, els, members);
    hide Coherent;
    hide Attr;
    forall el: Element
      ensures el !in r.touched ==> Restorable(r, el)
      ensures el in r.ownership ==> Attr(r.tab, el) == Some(HIDDEN) || Attr(r.tab, el) == Attr(r.app, el)
    {
      LetGoRestores(s, p, els, el);
    }
  }

  /** Records of dead passes do not exist, so none is ever adopted. */
  lemma NothingToAdopt(s: State, p: PassId, el: Element)
    requires Inv(s) && p in s.live
    ensures Suppress(s, p, el) ==
              if Owns(s, p, el) then Hide(s, p, el)
              else if el in s.ownership || !WouldBeTabbable(s, el, Attr(s.tab, el)) then s
              else Hide(WithMembers(s.(ownership := s.ownership[el := Ownership(p, Attr(s.tab, el))]), p,
                                    s.passes[p].members + {el}), p, el)
  {
    hide WouldBeTabbable;
    assert Owns(s, p, el) ==> s.passes[p].members + {el} == s.passes[p].members;
    assert s.passes[p := s.passes[p]] == s.passes;
  }

  lemma HideKeepsInv(s: State, p: PassId, el: Element)
    requires Inv(s) && Owns(s, p, el)
    ensures Inv(Hide(s, p, el))
  {
  }

  /** Taking a free element puts what the application wrote on record. */
  lemma {:induction false} TakeKeepsInv(s: State, p: PassId, el: Element)
    requires Inv(s) && p in s.live && el !in s.ownership
    ensures Inv(Hide(WithMembers(s.(ownership := s.ownership[el := Ownership(p, Attr(s.tab, el))]), p,
                                 s.passes[p].members + {el}), p, el))
  {
    var r := Hide(WithMembers(s.(ownership := s.ownership[el := Ownership(p, Attr(s.tab, el))]), p,
                              s.passes[p].members + {el}), p, el);
    forall q: PassId, x: Element | q in r.live
      ensures x in r.passes[q].members <==> Owns(r, q, x)
    {
      assert x in s.passes[q].members <==> Owns(s, q, x);
    }
    forall x: Element | x !in r.touched
      ensures Restorable(r, x)
    {
      assert Restorable(s, x);
    }
  }

  lemma {:induction false} SuppressKeepsInv(s: State, p: PassId, el: Element)
    requires Inv(s) && p in s.live
    ensures Inv(Suppress(s, p, el)) && Suppress(s, p, el).live == s.live
  {
    hide WouldBeTabbable;
    NothingToAdopt(s, p, el);
    if Owns(s, p, el) {
      HideKeepsInv(s, p, el);
    } else if el !in s.ownership {
      TakeKeepsInv(s, p, el);
    }
    hide Inv;
    hide Coherent;
  }

  lemma {:induction false} SuppressAllKeepsInv(s: State, p: PassId, els: seq<Element>)
    requires Inv(s) && p in s.live
    ensures Inv(SuppressAll(s, p, els)) && SuppressAll(s, p, els).live == s.live
  {
    if els != [] {
      var n := |els| - 1;
      var front := SuppressAll(s, p, els[..n]);
      SuppressAllKeepsInv(s, p, els[..n]);
      SuppressKeepsInv(front, p, els[n]);
    }
  }

  lemma {:induction false} StepKeepsInv(s: State, op: Op)
    requires Inv(s)
    ensures Inv(Step(s, op))
  {
    hide WouldBeTabbable;
    match op
    case CreatePass => CreateKeepsInv(s);
    case KeepTarget(p, el) => KeepKeepsInv(s, p, el);
    case ReconcilePass(p, els) =>
      if p in s.live {
        var stale := set el | el in s.passes[p].members && Stale(s, p, el);
        LetGoKeepsInv(s, p, stale, s.passes[p].members - stale);
        SuppressAllKeepsInv(DropStale(s, p), p, els);
      }
    case ReleasePass(p) =>
      if p in s.live {
        ReleaseKeepsInv(s, p);
      }
    case WriteTabindex(el, v) => WriteKeepsInv(s, el, v);
    case ChangePage(_, _) =>
  }

  lemma CreateKeepsInv(s: State)
    requires Inv(s)
    ensures Inv(Create(s))
  {
    assert s.counter + 1 !in s.passes;
  }

  lemma KeepKeepsInv(s: State, p: PassId, el: Option<Element>)
    requires Inv(s)
    ensures Inv(SetKeep(s, p, el))
  {
  }

  lemma WriteKeepsInv(s: State, el: Element, v: Option<string>)
    requires Inv(s)
    ensures Inv(AppWrites(s, el, v))
  {
  }

  lemma {:induction false} ReleaseKeepsInv(s: State, p: PassId)
    requires Inv(s) && p in s.live
    ensures Inv(Release(s, p))
  {
    LetGoKeepsInv(s, p, s.passes[p].members, {});
    var r := WithMembers(RestoreAll(s, p, s.passes[p].members), p, {});
    forall el | el in r.ownership
      ensures r.ownership[el].pass in s.live - {p}
    {
      assert Owns(r, p, el) <==> el in r.passes[p].members;
    }
    hide RestoreAll;
  }

  lemma {:induction false} RunKeepsInv(tab: map<Element, string>, ops: seq<Op>)
    ensures Inv(Run(Start(tab), ops))
  {
    if ops != [] {
      RunKeepsInv(tab, ops[..|ops| - 1]);
      StepKeepsInv(Run(Start(tab), ops[..|ops| - 1]), ops[|ops| - 1]);
    }
  }

  /** In every interleaving an element is owned by a live pass exactly when it is among that pass's members,
      is marked with that pass, and no record or mark of a dead pass survives. */
  lemma {:induction false} OwnersAreLiveMembers(tab: map<Element, string>, ops: seq<Op>, p: PassId, el: Element)
    ensures var s := Run(Start(tab), ops);
            && (Owns(s, p, el) <==> p in s.live && p in s.passes && el in s.passes[p].members)
            && (Owns(s, p, el) <==> el in s.marker && s.marker[el] == p)
  {
    RunKeepsInv(tab, ops);
  }

  /** Once all passes are released nothing of the tour is left on the page, and every element the application
      did not write while it was owned has the tabindex the application last gave it. */
  lemma {:induction false} AllReleasedRestores(tab: map<Element, string>, ops: seq<Op>)
    requires Run(Start(tab), ops).live == {}
    ensures var s := Run(Start(tab), ops);
            && s.ownership == map[] && s.marker == map[]
            && forall el: Element :: el !in s.touched ==> Attr(s.tab, el) == Attr(s.app, el)
  {
    RunKeepsInv(tab, ops);
    var s := Run(Start(tab), ops);
    assert forall el: Element :: el !in s.touched ==> Restorable(s, el);
  }

  /** A write during ownership survives the release exactly when it was neither re-hidden nor itself "-1",
      or asked for the tabindex already on record. */
  lemma {:induction false} WriteSurvivesRelease(tab: map<Element, string>, ops: seq<Op>, p: PassId, el: Element)
    requires Owns(Run(Start(tab), ops), p, el)
    ensures var s := Run(Start(tab), ops);
            Attr(Release(s, p).tab, el) == Attr(s.app, el)
            <==> Attr(s.tab, el) != Some(HIDDEN) || s.ownership[el].original == Attr(s.app, el)
  {
    RunKeepsInv(tab, ops);
    var s := Run(Start(tab), ops);
    RestoreAllAttrs(s, p, s.passes[p].members, el);
  }

  // ---- what a reconcile achieves ----

  /** After `Suppress` the element cannot be tabbed to, unless another live pass owns it. */
  predicate Hidden(s: State, p: PassId, el: Element) {
    if el in s.ownership then Owns(s, p, el) ==> Attr(s.tab, el) == Some(HIDDEN)
    else !WouldBeTabbable(s, el, Attr(s.tab, el))
  }

  lemma SuppressHides(s: State, p: PassId, el: Element, other: Element)
    requires Inv(s) && p in s.live
    ensures Hidden(Suppress(s, p, el), p, el)
    ensures Hidden(s, p, other) ==> Hidden(Suppress(s, p, el), p, other)
    ensures Owns(Suppress(s, p, el), p, other) ==> other == el || Owns(s, p, other)
    ensures Suppress(s, p, el).passes[p].keep == s.passes[p].keep
  {
    NothingToAdopt(s, p, el);
    hide Inv;
    hide Coherent;
  }

  lemma {:induction false} SuppressAllHides(s: State, p: PassId, els: seq<Element>)
    requires Inv(s) && p in s.live
    ensures var r := SuppressAll(s, p, els);
            && r.passes[p].keep == s.passes[p].keep
            && (forall el <- els :: s.passes[p].keep != Some(el) ==> Hidden(r, p, el))
            && (forall el :: s.passes[p].keep == Some(el) && Owns(r, p, el) ==> Owns(s, p, el))
  {
    if els != [] {
      var n := |els| - 1;
      var front, r := SuppressAll(s, p, els[..n]), SuppressAll(s, p, els);
      SuppressAllHides(s, p, els[..n]);
      SuppressAllKeepsInv(s, p, els[..n]);
      hide Hidden;
      hide Suppress;
      hide Inv;
      forall el <- els | s.passes[p].keep != Some(el)
        ensures Hidden(r, p, el)
      {
        SuppressHides(front, p, els[n], el);
        assert el == els[n] || el in els[..n];
      }
      forall el | s.passes[p].keep == Some(el) && Owns(r, p, el)
        ensures Owns(s, p, el)
      {
        SuppressHides(front, p, els[n], el);
      }
    }
  }

  /** An element is in the tab order when it is not disabled and its tabindex is a number from zero up, or, with
      a tabindex that is no number or none at all, when it is a native control. */
  ghost predicate InTabOrder(s: State, el: Element, tabindex: Option<string>) {
    && el !in s.disabled
    && if tabindex.Some? && exists value :: StandsFor(tabindex.value, value)
       then exists value :: StandsFor(tabindex.value, value) && value >= 0
       else el in s.native
  }

  lemma TabbableMeans(s: State, el: Element, tabindex: Option<string>)
    ensures WouldBeTabbable(s, el, tabindex) <==> InTabOrder(s, el, tabindex)
  {
    if tabindex.Some? {
      TextsAreNumbers(tabindex.value);
      hide IsInteger, IsNegative, StandsFor;
    }
  }

  /** A free element of the list that the pass takes. */
  predicate Takes(s: State, p: PassId, els: seq<Element>, el: Element)
    requires p in s.passes
  {
    el in els && s.passes[p].keep != Some(el) && el !in s.ownership && WouldBeTabbable(s, el, Attr(s.tab, el))
  }

  predicate SameRecord(a: State, b: State, el: Element) {
    (el in a.ownership <==> el in b.ownership) && (el in a.ownership ==> a.ownership[el] == b.ownership[el])
  }

  /** What the second phase does to one element. */
  predicate Phase2(s: State, r: State, p: PassId, els: seq<Element>, el: Element)
    requires p in s.passes
  {
    if Takes(s, p, els, el) then
      el in r.ownership && r.ownership[el] == Ownership(p, Attr(s.tab, el)) && Attr(r.tab, el) == Some("-1")
    else
      && SameRecord(r, s, el)
      && Attr(r.tab, el) == if Owns(s, p, el) && el in els && s.passes[p].keep != Some(el) then Some("-1") else Attr(s.tab, el)
  }

  /** Nothing but the element's own text and record may differ in what the loop looks at. */
  predicate SameRules(r: State, s: State, p: PassId) {
    && r.disabled == s.disabled && r.native == s.native && r.passes.Keys == s.passes.Keys
    && p in s.passes && r.passes[p].keep == s.passes[p].keep
  }

  /** What suppressing `x` does to `el`. */
  predicate Suppressed(s: State, r: State, p: PassId, x: Element, el: Element) {
    if el != x || (!Owns(s, p, x) && (x in s.ownership || !WouldBeTabbable(s, x, Attr(s.tab, x)))) then
      SameRecord(r, s, el) && Attr(r.tab, el) == Attr(s.tab, el)
    else if Owns(s, p, x) then SameRecord(r, s, el) && Attr(r.tab, el) == Some("-1")
    else el in r.ownership && r.ownership[el] == Ownership(p, Attr(s.tab, el)) && Attr(r.tab, el) == Some("-1")
  }

  lemma SuppressEffect(s: State, p: PassId, x: Element, el: Element)
    requires Inv(s) && p in s.live
    ensures var r := Suppress(s, p, x); SameRules(r, s, p) && Suppressed(s, r, p, x, el)
  {
    NothingToAdopt(s, p, x);
    hide Inv, Coherent, WouldBeTabbable, Suppress;
  }

  lemma Phase2Step(s: State, front: State, r: State, p: PassId, els: seq<Element>, el: Element)
    requires els != [] && SameRules(front, s, p) && Phase2(s, front, p, els[..|els| - 1], el)
    requires var x := els[|els| - 1];
             if s.passes[p].keep == Some(x) then r == front else Suppressed(front, r, p, x, el)
    ensures Phase2(s, r, p, els, el)
  {
    var x := els[|els| - 1];
    assert els == els[..|els| - 1] + [x];
    assert forall text :: WouldBeTabbable(front, el, text) == WouldBeTabbable(s, el, text);
    hide WouldBeTabbable, Attr;
    assert el in els <==> el in els[..|els| - 1] || el == x;
  }

  lemma {:induction false} SuppressAllEffect(s: State, p: PassId, els: seq<Element>, el: Element)
    requires Inv(s) && p in s.live
    ensures var r := SuppressAll(s, p, els); SameRules(r, s, p) && Phase2(s, r, p, els, el)
  {
    hide Inv, Suppress, WouldBeTabbable, Suppressed;
    LivePass(s, p);
    if els == [] {
      assert Phase2(s, s, p, [], el);
    } else {
      var n := |els| - 1;
      var front := SuppressAll(s, p, els[..n]);
      SuppressAllEffect(s, p, els[..n], el);
      SuppressAllKeepsInv(s, p, els[..n]);
      hide Phase2;
      SuppressEffect(front, p, els[n], el);
      Phase2Step(s, front, SuppressAll(s, p, els), p, els, el);
    }
  }

  lemma LivePass(s: State, p: PassId)
    requires Inv(s) && p in s.live
    ensures p in s.passes
  {
  }

  /** What a reconcile does to one element, in full. A pass lets go of what it owns when it became the target or
      left the tab order, keeps the rest, and takes every listed element that is then free, not the target and
      in the tab order; everything else is as it was. */
  ghost predicate Reconciled(s: State, r: State, p: PassId, focusable: seq<Element>, el: Element)
    requires p in s.passes
  {
    var target := s.passes[p].keep == Some(el);
    var mine := el in s.ownership && s.ownership[el].pass == p;
    var kept := mine && !target && InTabOrder(s, el, s.ownership[el].original);
    var shown := if mine && !kept && Attr(s.tab, el) == Some("-1") then s.ownership[el].original else Attr(s.tab, el);
    if kept then
      && SameRecord(r, s, el)
      && Attr(r.tab, el) == if el in focusable then Some("-1") else Attr(s.tab, el)
    else if el in focusable && !target && (mine || el !in s.ownership) && InTabOrder(s, el, shown) then
      el in r.ownership && r.ownership[el] == Ownership(p, shown) && Attr(r.tab, el) == Some("-1")
    else
      && Attr(r.tab, el) == shown
      && if mine then el !in r.ownership else SameRecord(r, s, el)
  }

  /** The first phase, element by element. */
  lemma DropStaleEffect(s: State, p: PassId, el: Element)
    requires Inv(s) && p in s.live
    ensures var t := DropStale(s, p);
            var lost := Owns(s, p, el) && (s.passes[p].keep == Some(el) || !WouldBeTabbable(s, el, s.ownership[el].original));
            && t.disabled == s.disabled && t.native == s.native && t.live == s.live && t.passes.Keys == s.passes.Keys
            && t.passes[p].keep == s.passes[p].keep
            && Attr(t.tab, el) == (if lost then LetGo(s, el) else Attr(s.tab, el))
            && (if lost then el !in t.ownership else SameRecord(t, s, el))
  {
    var stale := set x | x in s.passes[p].members && Stale(s, p, x);
    RestoreAllAttrs(s, p, stale, el);
    assert Coherent(s);
    assert el in s.passes[p].members <==> Owns(s, p, el);
    hide WouldBeTabbable, Coherent, Inv, Attr;
  }

  lemma {:induction false} ReconcileIsExact(tab: map<Element, string>, ops: seq<Op>, p: PassId, focusable: seq<Element>, el: Element)
    requires var s := Run(Start(tab), ops); p in s.live && p in s.passes
    ensures var s := Run(Start(tab), ops); Reconciled(s, Reconcile(s, p, focusable), p, focusable, el)
  {
    RunKeepsInv(tab, ops);
    var s := Run(Start(tab), ops);
    var t := DropStale(s, p);
    var stale := set x | x in s.passes[p].members && Stale(s, p, x);
    LetGoKeepsInv(s, p, stale, s.passes[p].members - stale);
    DropStaleEffect(s, p, el);
    SuppressAllEffect(t, p, focusable, el);
    ReconciledBy(s, t, SuppressAll(t, p, focusable), p, focusable, el);
  }

  lemma {:induction false} ReconciledBy(s: State, t: State, r: State, p: PassId, focusable: seq<Element>, el: Element)
    requires p in s.passes && p in t.passes
    requires t.disabled == s.disabled && t.native == s.native && t.passes[p].keep == s.passes[p].keep
    requires var lost := Owns(s, p, el) && (s.passes[p].keep == Some(el) || !WouldBeTabbable(s, el, s.ownership[el].original));
             && Attr(t.tab, el) == (if lost then LetGo(s, el) else Attr(s.tab, el))
             && (if lost then el !in t.ownership else SameRecord(t, s, el))
    requires Phase2(t, r, p, focusable, el)
    ensures Reconciled(s, r, p, focusable, el)
  {
    forall text ensures WouldBeTabbable(s, el, text) == InTabOrder(s, el, text) == WouldBeTabbable(t, el, text) {
      TabbableMeans(s, el, text);
    }
    hide WouldBeTabbable, InTabOrder, Attr;
  }

  /** After a live pass reconciles, every listed element but the kept one is out of the tab order, or hidden by
      this pass, or owned by another live one; and the kept one is not owned by this pass. */
  lemma {:induction false} ReconcileHides(tab: map<Element, string>, ops: seq<Op>, p: PassId, focusable: seq<Element>, el: Element)
    requires var s := Run(Start(tab), ops); p in s.live && p in s.passes
    ensures var s := Run(Start(tab), ops);
            var r := Reconcile(s, p, focusable);
            && (el in focusable && s.passes[p].keep != Some(el) ==>
                  if el !in r.ownership then !InTabOrder(r, el, Attr(r.tab, el))
                  else if r.ownership[el].pass == p then Attr(r.tab, el) == Some("-1")
                  else r.ownership[el].pass in r.live)
            && (s.passes[p].keep == Some(el) ==> el !in r.ownership || r.ownership[el].pass != p)
  {
    RunKeepsInv(tab, ops);
    var s := Run(Start(tab), ops);
    var r := Reconcile(s, p, focusable);
    var stale := set el | el in s.passes[p].members && Stale(s, p, el);
    LetGoKeepsInv(s, p, stale, s.passes[p].members - stale);
    SuppressAllHides(DropStale(s, p), p, focusable);
    SuppressAllKeepsInv(DropStale(s, p), p, focusable);
    RestoreAllAttrs(s, p, stale, el);
    TabbableMeans(r, el, Attr(r.tab, el));
    HiddenMeans(r, p, el);
  }

  lemma HiddenMeans(r: State, p: PassId, el: Element)
    requires Inv(r)
    ensures el in r.ownership ==> r.ownership[el].pass in r.live
  {
  }

  /** A release gives back, of what the pass owns, every tabindex still hidden, leaves one the application wrote
      meanwhile, and touches nothing else; a second release does nothing. */
  lemma {:induction false} ReleaseIsExact(tab: map<Element, string>, ops: seq<Op>, p: PassId, el: Element)
    ensures var s := Run(Start(tab), ops);
            var r := Release(s, p);
            && Release(r, p) == r
            && if el in s.ownership && s.ownership[el].pass == p then
                 && el !in r.ownership && el !in r.marker
                 && Attr(r.tab, el) == (if Attr(s.tab, el) == Some("-1") then s.ownership[el].original else Attr(s.tab, el))
               else
                 && SameRecord(r, s, el) && (el in r.marker <==> el in s.marker)
                 && Attr(r.tab, el) == Attr(s.tab, el)
  {
    RunKeepsInv(tab, ops);
    var s := Run(Start(tab), ops);
    if p in s.live {
      RestoreAllAttrs(s, p, s.passes[p].members, el);
      assert el in s.passes[p].members <==> Owns(s, p, el);
    }
    hide Inv, Attr, RestoreAll;
  }
}
