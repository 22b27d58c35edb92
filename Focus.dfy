/**
 * Accessible focus handling (assets/js/app.ts): the `Focus` helpers adapted
 * from the WAI-ARIA Authoring Practices example code, and the
 * `js:focus-closest` window listener.
 *
 * A DOM node is an `Element` value. Whether it is laid out (`isVisible`) is
 * one of its fields, and focusing a node succeeds exactly when it is
 * focusable. Text and comment nodes are elements with node name "#text" or
 * "#comment", tab index -1 and no children.
 */
module Focus {
  import opened Wrappers

  datatype Element = Element(
    nodeName: string,
    tabIndex: int,
    hasTabIndexAttr: bool,
    disabled: bool,
    href: string,
    rel: string,
    inputType: string,
    visible: bool,
    children: seq<Element>)

  // ---------------------------------------------------------------------------
  // isFocusable and attemptFocus

  /** `Focus.isFocusable(el)`. */
  predicate IsFocusable(el: Element) {
    if el.tabIndex > 0 || (el.tabIndex == 0 && el.hasTabIndexAttr) then true
    else if el.disabled then false
    else if el.nodeName == "A" then el.href != "" && el.rel != "ignore"
    else if el.nodeName == "INPUT" then el.inputType != "hidden" && el.inputType != "file"
    else el.nodeName == "BUTTON" || el.nodeName == "SELECT" || el.nodeName == "TEXTAREA"
  }

  /** The element is in the tab order because of its tab index. */
  predicate TabIndexed(el: Element) {
    el.tabIndex > 0 || (el.tabIndex == 0 && el.hasTabIndexAttr)
  }

  /** The rules of `isFocusable`, one case at a time. */
  lemma FocusableCases(el: Element)
    ensures TabIndexed(el) ==> IsFocusable(el)
    ensures !TabIndexed(el) && el.disabled ==> !IsFocusable(el)
    ensures !TabIndexed(el) && !el.disabled && el.nodeName == "A" ==>
      (IsFocusable(el) <==> el.href != "" && el.rel != "ignore")
    ensures !TabIndexed(el) && !el.disabled && el.nodeName == "INPUT" ==>
      (IsFocusable(el) <==> el.inputType != "hidden" && el.inputType != "file")
    ensures !TabIndexed(el) && !el.disabled && el.nodeName in {"BUTTON", "SELECT", "TEXTAREA"} ==> IsFocusable(el)
    ensures !TabIndexed(el) && el.nodeName !in {"A", "INPUT", "BUTTON", "SELECT", "TEXTAREA"} ==> !IsFocusable(el)
  {
  }

  /** `Focus.attemptFocus(el)`: falsy for a missing element, otherwise whether focus landed on it. */
  function AttemptFocus(el: Option<Element>): (focused: bool)
    ensures focused <==> el.Some? && IsFocusable(el.value)
  {
    match el
    case None => false
    case Some(e) => IsFocusable(e)
  }

  // ---------------------------------------------------------------------------
  // Descendant search

  /** No proper descendant of `el` is focusable. */
  predicate NoFocusableBelow(el: Element)
    decreases el
  {
    forall k :: 0 <= k < |el.children| ==>
      !IsFocusable(el.children[k]) && NoFocusableBelow(el.children[k])
  }

  /** `path` leads from `el` through child indices to a node. */
  predicate IsPath(el: Element, path: seq<nat>)
    decreases |path|
  {
    path == [] || (path[0] < |el.children| && IsPath(el.children[path[0]], path[1..]))
  }

  /** The node `path` leads to. */
  function At(el: Element, path: seq<nat>): Element
    requires IsPath(el, path)
    decreases |path|
  {
    if path == [] then el else At(el.children[path[0]], path[1..])
  }

  /**
   * `path` leads to the first focusable proper descendant of `el` in document
   * order: children left to right, each child before its own descendants.
   */
  predicate FirstFocusableAt(el: Element, path: seq<nat>)
    decreases |path|
  {
    && |path| > 0 && path[0] < |el.children|
    && (forall k :: 0 <= k < path[0] ==> !IsFocusable(el.children[k]) && NoFocusableBelow(el.children[k]))
    && if |path| == 1 then IsFocusable(el.children[path[0]])
       else !IsFocusable(el.children[path[0]]) && FirstFocusableAt(el.children[path[0]], path[1..])
  }

  /**
   * `path` leads to the first focusable proper descendant of `el` when children
   * are taken right to left, each child before its own descendants.
   */
  predicate LastFocusableAt(el: Element, path: seq<nat>)
    decreases |path|
  {
    && |path| > 0 && path[0] < |el.children|
    && (forall k :: path[0] < k < |el.children| ==> !IsFocusable(el.children[k]) && NoFocusableBelow(el.children[k]))
    && if |path| == 1 then IsFocusable(el.children[path[0]])
       else !IsFocusable(el.children[path[0]]) && LastFocusableAt(el.children[path[0]], path[1..])
  }

  /** The node the search settles on is a focusable descendant. */
  lemma {:induction false} FirstFocusableIsFocusable(el: Element, path: seq<nat>)
    requires FirstFocusableAt(el, path)
    ensures IsPath(el, path) && IsFocusable(At(el, path))
    decreases |path|
  {
    if |path| == 1 {
      assert path[1..] == [];
      assert At(el, path) == At(el.children[path[0]], []) == el.children[path[0]];
    } else {
      FirstFocusableIsFocusable(el.children[path[0]], path[1..]);
    }
  }

  /** There is at most one first focusable descendant. */
  lemma {:induction false} FirstFocusableUnique(el: Element, p: seq<nat>, q: seq<nat>)
    requires FirstFocusableAt(el, p) && FirstFocusableAt(el, q)
    ensures p == q
    decreases |p|
  {
    if p[0] < q[0] {
      assert !IsFocusable(el.children[p[0]]) && NoFocusableBelow(el.children[p[0]]);
      if |p| > 1 {
        FirstFocusableBelow(el.children[p[0]], p[1..]);
      }
    } else if q[0] < p[0] {
      assert !IsFocusable(el.children[q[0]]) && NoFocusableBelow(el.children[q[0]]);
      if |q| > 1 {
        FirstFocusableBelow(el.children[q[0]], q[1..]);
      }
    } else if |p| > 1 && |q| > 1 {
      FirstFocusableUnique(el.children[p[0]], p[1..], q[1..]);
      assert p == [p[0]] + p[1..] && q == [q[0]] + q[1..];
    }
  }

  /** The node the backward search settles on is a focusable descendant. */
  lemma {:induction false} LastFocusableIsFocusable(el: Element, path: seq<nat>)
    requires LastFocusableAt(el, path)
    ensures IsPath(el, path) && IsFocusable(At(el, path))
    decreases |path|
  {
    if |path| == 1 {
      assert path[1..] == [];
      assert At(el, path) == At(el.children[path[0]], []) == el.children[path[0]];
    } else {
      LastFocusableIsFocusable(el.children[path[0]], path[1..]);
    }
  }

  /** There is at most one last focusable descendant. */
  lemma {:induction false} LastFocusableUnique(el: Element, p: seq<nat>, q: seq<nat>)
    requires LastFocusableAt(el, p) && LastFocusableAt(el, q)
    ensures p == q
    decreases |p|
  {
    if p[0] > q[0] {
      assert !IsFocusable(el.children[p[0]]) && NoFocusableBelow(el.children[p[0]]);
      if |p| > 1 {
        LastFocusableBelow(el.children[p[0]], p[1..]);
      }
    } else if q[0] > p[0] {
      assert !IsFocusable(el.children[q[0]]) && NoFocusableBelow(el.children[q[0]]);
      if |q| > 1 {
        LastFocusableBelow(el.children[q[0]], q[1..]);
      }
    } else if |p| > 1 && |q| > 1 {
      LastFocusableUnique(el.children[p[0]], p[1..], q[1..]);
      assert p == [p[0]] + p[1..] && q == [q[0]] + q[1..];
    }
  }

  /** A first focusable descendant is a focusable descendant. */
  lemma {:induction false} FirstFocusableBelow(el: Element, path: seq<nat>)
    requires FirstFocusableAt(el, path)
    ensures !NoFocusableBelow(el)
    decreases |path|
  {
    if |path| > 1 {
      FirstFocusableBelow(el.children[path[0]], path[1..]);
    }
  }

  /** A last focusable descendant is a focusable descendant. */
  lemma {:induction false} LastFocusableBelow(el: Element, path: seq<nat>)
    requires LastFocusableAt(el, path)
    ensures !NoFocusableBelow(el)
    decreases |path|
  {
    if |path| > 1 {
      LastFocusableBelow(el.children[path[0]], path[1..]);
    }
  }

  /**
   * `Focus.focusFirstDescendant(el)`: `found` tells whether some descendant
   * took the focus, and `path` leads to it.
   */
  method FocusFirstDescendant(el: Element) returns (found: bool, path: seq<nat>)
    ensures found ==> FirstFocusableAt(el, path)
    ensures !found ==> NoFocusableBelow(el)
    decreases el
  {
    var i := 0;
    while i < |el.children|
      invariant 0 <= i <= |el.children|
      invariant forall k :: 0 <= k < i ==> !IsFocusable(el.children[k]) && NoFocusableBelow(el.children[k])
    {
      var child := el.children[i];
      if AttemptFocus(Some(child)) {
        return true, [i];
      }
      var below, p := FocusFirstDescendant(child);
      if below {
        assert ([i] + p)[1..] == p;
        return true, [i] + p;
      }
      i := i + 1;
    }
    return false, [];
  }

  /**
   * `Focus.focusLastDescendant(element)`: the same search with the children
   * taken from last to first.
   */
  method FocusLastDescendant(el: Element) returns (found: bool, path: seq<nat>)
    ensures found ==> LastFocusableAt(el, path)
    ensures !found ==> NoFocusableBelow(el)
    decreases el
  {
    var i := |el.children|;
    while i > 0
      invariant 0 <= i <= |el.children|
      invariant forall k :: i <= k < |el.children| ==> !IsFocusable(el.children[k]) && NoFocusableBelow(el.children[k])
    {
      var child := el.children[i - 1];
      if AttemptFocus(Some(child)) {
        return true, [i - 1];
      }
      var below, p := FocusLastDescendant(child);
      if below {
        assert ([i - 1] + p)[1..] == p;
        return true, [i - 1] + p;
      }
      i := i - 1;
    }
    return false, [];
  }

  // ---------------------------------------------------------------------------
  // js:focus-closest

  /** Where the focus ends up. */
  datatype Outcome = Sibling(index: nat) | Parent | Main

  /** A sibling that takes the focus: `isVisible(sibling) && Focus.attemptFocus(sibling)`. */
  predicate Candidate(el: Element) {
    el.visible && AttemptFocus(Some(el))
  }

  /**
   * `k` is the sibling `js:focus-closest` settles on: the nearest candidate
   * after the target, else the nearest candidate before it; `None` when no
   * sibling other than the target is a candidate. `siblings` are the element
   * children of the target's parent in document order, the target being
   * `siblings[target]`.
   */
  predicate Closest(siblings: seq<Element>, target: nat, k: Option<nat>)
    requires target < |siblings|
  {
    match k
    case None => forall j :: 0 <= j < |siblings| && j != target ==> !Candidate(siblings[j])
    case Some(i) =>
      && i < |siblings| && i != target && Candidate(siblings[i])
      && (i > target ==> forall j :: target < j < i ==> !Candidate(siblings[j]))
      && (i < target ==>
            (forall j :: target < j < |siblings| ==> !Candidate(siblings[j])) &&
            (forall j :: i < j < target ==> !Candidate(siblings[j])))
  }

  /** The order of the two loops decides the sibling: at most one satisfies `Closest`. */
  lemma ClosestUnique(siblings: seq<Element>, target: nat, k1: Option<nat>, k2: Option<nat>)
    requires target < |siblings|
    requires Closest(siblings, target, k1) && Closest(siblings, target, k2)
    ensures k1 == k2
  {
  }

  /** The two sibling loops of `js:focus-closest`: the siblings after the target, nearest first, then those before it, nearest first. */
  method ClosestSibling(siblings: seq<Element>, target: nat) returns (k: Option<nat>)
    requires target < |siblings|
    ensures Closest(siblings, target, k)
  {
    var i := target + 1;
    while i < |siblings|
      invariant target + 1 <= i <= |siblings|
      invariant forall j :: target < j < i ==> !Candidate(siblings[j])
    {
      if Candidate(siblings[i]) {
        return Some(i);
      }
      i := i + 1;
    }
    i := target;
    while i > 0
      invariant 0 <= i <= target
      invariant forall j :: i <= j < target ==> !Candidate(siblings[j])
    {
      if Candidate(siblings[i - 1]) {
        return Some(i - 1);
      }
      i := i - 1;
    }
    return None;
  }

  /** The last line of the listener: `attemptFocus(parent) || focusMain()`. */
  function Fallback(parent: Option<Element>): (r: Outcome)
    ensures r == Parent <==> parent.Some? && IsFocusable(parent.value)
    ensures r == Main <==> !(parent.Some? && IsFocusable(parent.value))
  {
    if AttemptFocus(parent) then Parent else Main
  }

  /**
   * The listener as written. It passes `(el as any).parent`, a property DOM
   * elements do not have, so `attemptFocus` receives `undefined`.
   */
  method FocusClosest(siblings: seq<Element>, target: nat) returns (outcome: Outcome)
    requires target < |siblings|
    ensures outcome.Sibling? ==> outcome.index < |siblings| && outcome.index != target && Candidate(siblings[outcome.index])
    ensures outcome.Sibling? ==> Closest(siblings, target, Some(outcome.index))
    ensures outcome == Main <==> forall j :: 0 <= j < |siblings| && j != target ==> !Candidate(siblings[j])
    ensures outcome != Parent
  {
    var k := ClosestSibling(siblings, target);
    if k.Some? {
      return Sibling(k.value);
    }
    var parentProperty: Option<Element> := None;
    outcome := Fallback(parentProperty);
  }

  /** With no sibling to take the focus, the listener as written skips a focusable parent. */
  lemma ParentNeverTried(parent: Element)
    requires IsFocusable(parent)
    ensures Fallback(None) == Main
    ensures Fallback(Some(parent)) == Parent
  {
  }

  /** The listener with the parent element passed to `attemptFocus`. */
  method FocusClosestOrParent(siblings: seq<Element>, target: nat, parent: Option<Element>)
    returns (outcome: Outcome)
    requires target < |siblings|
    ensures outcome.Sibling? ==> outcome.index < |siblings| && outcome.index != target && Candidate(siblings[outcome.index])
    ensures outcome.Sibling? ==> Closest(siblings, target, Some(outcome.index))
    ensures !outcome.Sibling? ==> Closest(siblings, target, None)
    ensures outcome.Sibling? <==> exists j :: 0 <= j < |siblings| && j != target && Candidate(siblings[j])
    ensures !outcome.Sibling? ==> (outcome == Parent <==> parent.Some? && IsFocusable(parent.value))
  {
    var k := ClosestSibling(siblings, target);
    if k.Some? {
      return Sibling(k.value);
    }
    outcome := Fallback(parent);
  }
}
