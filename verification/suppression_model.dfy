/** Keyboard suppression of the onboarding tour: several live passes share one ownership record per element. */
module SuppressionModel {
  import opened Wrappers
  import opened TabindexTexts

  type Element = nat
  type PassId = nat

  /** Who took an element out of the tab order, and the tabindex it had then. */
  datatype Ownership = Ownership(pass: PassId, original: Option<string>)

  datatype Pass = Pass(members: set<Element>, keep: Option<Element>)

  /** The page, the shared ownership records and the passes. A missing key is a missing attribute.
      `app` is the tabindex the application last wrote, and `touched` the elements it wrote while owned. */
  datatype State = State(
    tab: map<Element, string>, marker: map<Element, PassId>, disabled: set<Element>, native: set<Element>,
    ownership: map<Element, Ownership>, live: set<PassId>, counter: nat, passes: map<PassId, Pass>,
    app: map<Element, string>, touched: set<Element>)

  const HIDDEN := "-1"

  function Attr(attrs: map<Element, string>, el: Element): Option<string> {
    if el in attrs then Some(attrs[el]) else None
  }

  function SetAttr(attrs: map<Element, string>, el: Element, v: Option<string>): map<Element, string> {
    if v.Some? then attrs[el := v.value] else attrs - {el}
  }

  /** Would the element be in the tab order if the tour had not hidden it? */
  predicate WouldBeTabbable(s: State, el: Element, original: Option<string>) {
    if el in s.disabled then false
    else if original.Some? && IsInteger(original.value) then !IsNegative(original.value)
    else el in s.native
  }

  // ---- one element ----

  predicate Owns(s: State, p: PassId, el: Element) { el in s.ownership && s.ownership[el].pass == p }

  /** The tabindex of an element once its owner lets go: an attribute changed meanwhile is left alone. */
  function LetGo(s: State, el: Element): Option<string>
    requires el in s.ownership
  {
    if Attr(s.tab, el) == Some(HIDDEN) then s.ownership[el].original else Attr(s.tab, el)
  }

  function RestoreOne(s: State, p: PassId, el: Element): State {
    if !Owns(s, p, el) then s
    else s.(tab := SetAttr(s.tab, el, LetGo(s, el)), marker := s.marker - {el}, ownership := s.ownership - {el})
  }

  function Hide(s: State, p: PassId, el: Element): State {
    s.(tab := s.tab[el := HIDDEN], marker := s.marker[el := p])
  }

  function WithMembers(s: State, p: PassId, members: set<Element>): State
    requires p in s.passes
  {
    s.(passes := s.passes[p := s.passes[p].(members := members)])
  }

  function Suppress(s: State, p: PassId, el: Element): State
    requires p in s.passes
  {
    var more := WithMembers(s, p, s.passes[p].members + {el});
    if Owns(s, p, el) then Hide(more, p, el)
    else if el in s.ownership && s.ownership[el].pass in s.live then s
    else
      var original := if el in s.ownership then s.ownership[el].original else Attr(s.tab, el);
      if !WouldBeTabbable(s, el, original) then
        // the record of a dead pass is adopted and let go at once
        if el in s.ownership then
          var let := RestoreOne(s.(ownership := s.ownership[el := Ownership(p, original)]), p, el);
          WithMembers(let, p, s.passes[p].members - {el})
        else s
      else Hide(more.(ownership := s.ownership[el := Ownership(p, original)]), p, el)
  }

  // ---- the methods of a pass ----

  function Create(s: State): State {
    var p := s.counter + 1;
    s.(counter := p, live := s.live + {p}, passes := s.passes[p := Pass({}, None)])
  }

  function SetKeep(s: State, p: PassId, el: Option<Element>): State {
    if p in s.passes then s.(passes := s.passes[p := s.passes[p].(keep := el)]) else s
  }

  /** All of `els` that the pass owns are restored. */
  function RestoreAll(s: State, p: PassId, els: set<Element>): State {
    var let := set el | el in s.ownership && el in els && Owns(s, p, el);
    var kept := map el | el in s.tab && el !in let :: s.tab[el];
    var back := map el | el in let && LetGo(s, el).Some? :: LetGo(s, el).value;
    s.(tab := kept + back, marker := s.marker - let, ownership := s.ownership - let)
  }

  /** What changes on the page and in the records is fixed element by element. */
  lemma RestoreAllAttrs(s: State, p: PassId, els: set<Element>, el: Element)
    ensures Attr(RestoreAll(s, p, els).tab, el)
            == if el in els && Owns(s, p, el) then LetGo(s, el) else Attr(s.tab, el)
    ensures el in RestoreAll(s, p, els).ownership <==> el in s.ownership && !(el in els && Owns(s, p, el))
    ensures el in RestoreAll(s, p, els).ownership ==> RestoreAll(s, p, els).ownership[el] == s.ownership[el]
    ensures el in RestoreAll(s, p, els).marker <==> el in s.marker && !(el in els && Owns(s, p, el))
    ensures el in RestoreAll(s, p, els).marker ==> RestoreAll(s, p, els).marker[el] == s.marker[el]
  {
  }

  /** A member the pass lost, that became the kept target or that stopped being tabbable. */
  predicate Stale(s: State, p: PassId, el: Element)
    requires p in s.passes
  {
    !Owns(s, p, el) || s.passes[p].keep == Some(el) || !WouldBeTabbable(s, el, s.ownership[el].original)
  }

  function DropStale(s: State, p: PassId): State
    requires p in s.passes
  {
    var stale := set el | el in s.passes[p].members && Stale(s, p, el);
    WithMembers(RestoreAll(s, p, stale), p, s.passes[p].members - stale)
  }

  function SuppressAll(s: State, p: PassId, els: seq<Element>): (r: State)
    requires p in s.passes
    ensures r.passes.Keys == s.passes.Keys
  {
    if els == [] then s
    else
      var n := |els| - 1;
      var front := SuppressAll(s, p, els[..n]);
      if front.passes[p].keep == Some(els[n]) then front else Suppress(front, p, els[n])
  }

  /** `focusable` lists what the tour scopes contain, in document order. */
  function Reconcile(s: State, p: PassId, focusable: seq<Element>): State {
    if p !in s.live || p !in s.passes then s else SuppressAll(DropStale(s, p), p, focusable)
  }

  function Release(s: State, p: PassId): State {
    if p !in s.live || p !in s.passes then s
    else
      var restored := RestoreAll(s, p, s.passes[p].members);
      WithMembers(restored, p, {}).(live := s.live - {p})
  }

  // ---- the application around the tour ----

  function AppWrites(s: State, el: Element, v: Option<string>): State {
    s.(tab := SetAttr(s.tab, el, v), app := SetAttr(s.app, el, v),
       touched := if el in s.ownership then s.touched + {el} else s.touched - {el})
  }

  datatype Op =
    | CreatePass
    | KeepTarget(pass: PassId, target: Option<Element>)
    | ReconcilePass(pass: PassId, focusable: seq<Element>)
    | ReleasePass(pass: PassId)
    | WriteTabindex(element: Element, value: Option<string>)
    | ChangePage(disabled: set<Element>, native: set<Element>)

  function Step(s: State, op: Op): State {
    match op
    case CreatePass => Create(s)
    case KeepTarget(p, el) => SetKeep(s, p, el)
    case ReconcilePass(p, els) => Reconcile(s, p, els)
    case ReleasePass(p) => Release(s, p)
    case WriteTabindex(el, v) => AppWrites(s, el, v)
    case ChangePage(disabled, native) => s.(disabled := disabled, native := native)
  }

  function Run(s: State, ops: seq<Op>): State {
    if ops == [] then s else Step(Run(s, ops[..|ops| - 1]), ops[|ops| - 1])
  }

  /** Before the first pass: the page as the application wrote it. */
  function Start(tab: map<Element, string>): State {
    State(tab, map[], {}, {}, map[], {}, 0, map[], tab, {})
  }
}
