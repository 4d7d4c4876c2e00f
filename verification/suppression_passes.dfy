/** The passes as the tour runs them: closures over shared maps, with loops over members and page elements. */
module SuppressionPasses {
  import opened Wrappers
  import opened TabindexTexts
  import opened SuppressionModel

  function StaleAmong(s: State, p: PassId, els: set<Element>): (r: set<Element>)
    requires p in s.passes
    ensures r <= els
  {
    set el | el in els && Stale(s, p, el)
  }

  /** The state after the stale ones among `done` were dropped. */
  function Dropped(s: State, p: PassId, done: set<Element>): State
    requires p in s.passes
  {
    WithMembers(RestoreAll(s, p, StaleAmong(s, p, done)), p, s.passes[p].members - StaleAmong(s, p, done))
  }

  lemma RestoreNone(s: State, p: PassId)
    ensures RestoreAll(s, p, {}) == s
  {
  }

  lemma SetAttrAt(attrs: map<Element, string>, el: Element, v: Option<string>, x: Element)
    ensures Attr(SetAttr(attrs, el, v), x) == if x == el then v else Attr(attrs, x)
  {
  }

  lemma {:induction false} RestoreOneMoreAt(s: State, p: PassId, done: set<Element>, el: Element, x: Element)
    ensures var one, all := RestoreOne(RestoreAll(s, p, done), p, el), RestoreAll(s, p, done + {el});
            && Attr(one.tab, x) == Attr(all.tab, x)
            && (x in one.ownership <==> x in all.ownership)
            && (x in one.ownership ==> one.ownership[x] == all.ownership[x])
            && (x in one.marker <==> x in all.marker)
            && (x in one.marker ==> one.marker[x] == all.marker[x])
  {
    var some := RestoreAll(s, p, done);
    RestoreAllAttrs(s, p, done, x);
    RestoreAllAttrs(s, p, done, el);
    RestoreAllAttrs(s, p, done + {el}, x);
    if Owns(some, p, el) {
      SetAttrAt(some.tab, el, LetGo(some, el), x);
    }
    hide RestoreAll;
    hide Attr;
    hide SetAttr;
  }

  /** Restoring one more is restoring a larger set. */
  lemma {:induction false} RestoreOneMore(s: State, p: PassId, done: set<Element>, el: Element)
    ensures RestoreOne(RestoreAll(s, p, done), p, el) == RestoreAll(s, p, done + {el})
  {
    var one, all := RestoreOne(RestoreAll(s, p, done), p, el), RestoreAll(s, p, done + {el});
    RestoreFrame(s, p, done + {el}, el);
    RestoreFrame(s, p, done, el);
    RestoreFrame(RestoreAll(s, p, done), p, done, el);
    hide RestoreAll;
    hide RestoreOne;
    forall x: Element
      ensures Attr(one.tab, x) == Attr(all.tab, x)
      ensures x in one.ownership <==> x in all.ownership
      ensures x in one.ownership ==> one.ownership[x] == all.ownership[x]
      ensures x in one.marker <==> x in all.marker
      ensures x in one.marker ==> one.marker[x] == all.marker[x]
    {
      RestoreOneMoreAt(s, p, done, el, x);
    }
    SameAttrs(one.tab, all.tab);
    assert one.ownership == all.ownership;
    assert one.marker == all.marker;
  }

  lemma SameAttrs(a: map<Element, string>, b: map<Element, string>)
    requires forall x: Element :: Attr(a, x) == Attr(b, x)
    ensures a == b
  {
    assert forall x: Element :: x in a ==> Attr(b, x) == Some(a[x]);
    assert forall x: Element :: x in b ==> Attr(a, x) == Some(b[x]);
  }

  lemma RestoreFrame(s: State, p: PassId, els: set<Element>, el: Element)
    ensures var r := RestoreAll(s, p, els);
            r == s.(tab := r.tab, marker := r.marker, ownership := r.ownership)
    ensures var r := RestoreOne(s, p, el);
            r == s.(tab := r.tab, marker := r.marker, ownership := r.ownership)
  {
  }

  lemma DroppedNone(s: State, p: PassId)
    requires p in s.passes
    ensures Dropped(s, p, {}) == s
  {
    RestoreNone(s, p);
    WithMembersTwice(s, p, {}, {});
    assert StaleAmong(s, p, {}) == {};
    assert s.passes[p].members - {} == s.passes[p].members;
  }

  lemma WithMembersTwice(s: State, p: PassId, a: set<Element>, b: set<Element>)
    requires p in s.passes
    ensures WithMembers(WithMembers(s, p, a), p, b) == WithMembers(s, p, b)
    ensures WithMembers(s, p, s.passes[p].members) == s
  {
    assert s.passes[p := s.passes[p]] == s.passes;
  }

  /** One turn of the first loop of a reconcile. */
  lemma DropOneMore(s: State, p: PassId, done: set<Element>, el: Element)
    requires p in s.passes && el !in done
    ensures var t := Dropped(s, p, done);
            && (Stale(t, p, el) <==> Stale(s, p, el))
            && Dropped(s, p, done + {el}) == if !Stale(t, p, el) then t
                                             else WithMembers(RestoreOne(t, p, el), p, t.passes[p].members - {el})
  {
    var stale, more := StaleAmong(s, p, done), StaleAmong(s, p, done + {el});
    var members := s.passes[p].members;
    var t := Dropped(s, p, done);
    RestoreOneMore(s, p, stale, el);
    assert t.ownership == RestoreAll(s, p, stale).ownership;
    assert el !in stale;
    assert Owns(t, p, el) <==> Owns(s, p, el);
    if Stale(s, p, el) {
      assert more == stale + {el};
      assert members - stale - {el} == members - more;
      RestoreKeepsMembers(RestoreAll(s, p, stale), p, el, members - stale);
      WithMembersTwice(RestoreOne(RestoreAll(s, p, stale), p, el), p, members - stale, members - more);
    } else {
      assert more == stale;
    }
  }

  lemma RestoreKeepsMembers(s: State, p: PassId, el: Element, members: set<Element>)
    requires p in s.passes
    ensures RestoreOne(WithMembers(s, p, members), p, el) == WithMembers(RestoreOne(s, p, el), p, members)
  {
  }

  class TourPasses {
    var tab: map<Element, string>
    var marker: map<Element, PassId>
    var disabled: set<Element>
    var native: set<Element>
    var ownership: map<Element, Ownership>
    var livePasses: set<PassId>
    var passCounter: nat
    var passes: map<PassId, Pass>
    ghost var app: map<Element, string>
    ghost var touched: set<Element>

    ghost function Abstract(): State
      reads this
    {
      State(tab, marker, disabled, native, ownership, livePasses, passCounter, passes, app, touched)
    }

    method CreateSuppressionPass() returns (id: PassId)
      modifies this
      ensures Abstract() == Create(old(Abstract())) && id == passCounter == old(passCounter) + 1
      ensures livePasses == old(livePasses) + {id} && passes == old(passes)[id := Pass({}, None)]
      ensures tab == old(tab) && marker == old(marker) && ownership == old(ownership)
    {
      passCounter := passCounter + 1;
      id := passCounter;
      livePasses := livePasses + {id};
      passes := passes[id := Pass({}, None)];
    }

    method KeepTarget(p: PassId, target: Option<Element>)
      modifies this
      ensures Abstract() == SetKeep(old(Abstract()), p, target)
      ensures p in old(passes) ==> passes == old(passes)[p := Pass(old(passes)[p].members, target)]
      ensures tab == old(tab) && marker == old(marker) && ownership == old(ownership) && livePasses == old(livePasses)
    {
      if p in passes {
        passes := passes[p := passes[p].(keep := target)];
      }
    }

    predicate Tabbable(el: Element, original: Option<string>)
      reads this
      ensures Tabbable(el, original) == WouldBeTabbable(Abstract(), el, original)
    {
      if el in disabled then false
      else if original.Some? && IsInteger(original.value) then !IsNegative(original.value)
      else el in native
    }

    method RestoreElement(p: PassId, el: Element)
      modifies this
      ensures Abstract() == RestoreOne(old(Abstract()), p, el)
    {
      if el !in ownership || ownership[el].pass != p {
        return;
      }
      if el in tab && tab[el] == HIDDEN {
        tab := SetAttr(tab, el, ownership[el].original);
      }
      assert tab == SetAttr(old(tab), el, LetGo(old(Abstract()), el));
      marker := marker - {el};
      ownership := ownership - {el};
    }

    method SuppressElement(p: PassId, el: Element)
      requires p in passes
      modifies this
      ensures Abstract() == Suppress(old(Abstract()), p, el)
    {
      hide IsInteger;
      hide IsNegative;
      var members := passes[p].members;
      if el in ownership && ownership[el].pass == p {
        tab := tab[el := HIDDEN];
        marker := marker[el := p];
        passes := passes[p := passes[p].(members := members + {el})];
        return;
      }
      if el in ownership && ownership[el].pass in livePasses {
        return;
      }
      var original := if el in ownership then ownership[el].original else Attr(tab, el);
      var tabbable := Tabbable(el, original);
      if el !in ownership && !tabbable {
        return;
      }
      ownership := ownership[el := Ownership(p, original)];
      if !tabbable {
        RestoreElement(p, el);
        passes := passes[p := passes[p].(members := members - {el})];
        return;
      }
      passes := passes[p := passes[p].(members := members + {el})];
      tab := tab[el := HIDDEN];
      marker := marker[el := p];
    }

    method ReconcileAll(p: PassId, focusable: seq<Element>)
      modifies this
      ensures Abstract() == Reconcile(old(Abstract()), p, focusable)
    {
      if p !in livePasses || p !in passes {
        return;
      }
      DropStaleMembers(p);
      ghost var dropped := Abstract();
      for i := 0 to |focusable|
        invariant p in passes
        invariant Abstract() == SuppressAll(dropped, p, focusable[..i])
      {
        assert focusable[..i + 1][..i] == focusable[..i];
        if passes[p].keep != Some(focusable[i]) {
          SuppressElement(p, focusable[i]);
        }
      }
      assert focusable[..|focusable|] == focusable;
    }

    method DropStaleMembers(p: PassId)
      requires p in passes
      modifies this
      ensures Abstract() == DropStale(old(Abstract()), p)
    {
      hide IsInteger;
      hide IsNegative;
      ghost var start := Abstract();
      var all := passes[p].members;
      var rest := all;
      DroppedNone(start, p);
      assert all - rest == {};
      while rest != {}
        invariant rest <= all && p in passes
        invariant Abstract() == Dropped(start, p, all - rest)
        decreases rest
      {
        var el :| el in rest;
        DropOneMore(start, p, all - rest, el);
        assert all - (rest - {el}) == all - rest + {el};
        if el !in ownership || ownership[el].pass != p {
          passes := passes[p := passes[p].(members := passes[p].members - {el})];
        } else {
          var tabbable := Tabbable(el, ownership[el].original);
          if passes[p].keep == Some(el) || !tabbable {
            RestoreElement(p, el);
            passes := passes[p := passes[p].(members := passes[p].members - {el})];
          }
        }
        rest := rest - {el};
      }
      assert all - rest == all;
    }

    method ReleaseAll(p: PassId)
      modifies this
      ensures Abstract() == Release(old(Abstract()), p)
    {
      if p !in livePasses || p !in passes {
        return;
      }
      ghost var start := Abstract();
      var all := passes[p].members;
      var rest := all;
      RestoreNone(start, p);
      assert all - rest == {};
      while rest != {}
        invariant rest <= all
        invariant Abstract() == RestoreAll(start, p, all - rest)
        decreases rest
      {
        var el :| el in rest;
        RestoreOneMore(start, p, all - rest, el);
        assert all - (rest - {el}) == all - rest + {el};
        RestoreElement(p, el);
        rest := rest - {el};
      }
      assert all - rest == all;
      passes := passes[p := passes[p].(members := {})];
      livePasses := livePasses - {p};
    }
  }
}
