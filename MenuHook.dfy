/**
 * The Menu hook (assets/js/app.ts): a drop-down whose items are walked with
 * the arrow keys. One item at a time carries the menu's active class.
 * The items are the `[role=menuitem]` elements of the menu, each represented
 * by its class list; the list is fixed while the model runs.
 */
module MenuHook {
  import opened Wrappers

  // ---------------------------------------------------------------------------
  // Choosing the item to activate

  /**
   * `menuItems[index] || menuItems[fallbackIndex]`: an index outside the list
   * reads `undefined`, which is falsy; items themselves are always truthy.
   */
  function Pick(index: int, fallback: Option<int>, n: nat): (k: Option<nat>)
    ensures k.Some? ==> k.value < n
    ensures 0 <= index < n ==> k == Some(index)
    ensures k.Some? && k.value != index ==> fallback == Some(k.value)
    ensures k.None? <==> !(0 <= index < n) && (fallback.None? || !(0 <= fallback.value < n))
  {
    if 0 <= index < n then Some(index)
    else if fallback.Some? && 0 <= fallback.value < n then Some(fallback.value)
    else None
  }

  /** `menuItems.indexOf(this.activeItem)`: -1 while no item is active. */
  function IndexOf(active: Option<nat>): int {
    if active.Some? then active.value else -1
  }

  /** The item ArrowDown activates. */
  function ArrowDownTarget(active: Option<nat>, n: nat): Option<nat> {
    Pick(IndexOf(active) + 1, Some(0), n)
  }

  /** The item ArrowUp activates. */
  function ArrowUpTarget(active: Option<nat>, n: nat): Option<nat> {
    Pick(IndexOf(active) - 1, Some(n - 1), n)
  }

  /** ArrowDown moves one item down, wrapping from the last item to the first; from no item it picks the first. */
  lemma ArrowDownWraps(active: Option<nat>, n: nat)
    requires n > 0 && (active.Some? ==> active.value < n)
    ensures ArrowDownTarget(active, n) == Some(if active.None? then 0 else (active.value + 1) % n)
  {
  }

  /** ArrowUp moves one item up, wrapping from the first item to the last; from no item it picks the last. */
  lemma ArrowUpWraps(active: Option<nat>, n: nat)
    requires n > 0 && (active.Some? ==> active.value < n)
    ensures ArrowUpTarget(active, n) == Some(if active.None? then n - 1 else (active.value + n - 1) % n)
  {
  }

  /** ArrowDown then ArrowUp comes back to the item one started from, and so does ArrowUp then ArrowDown. */
  lemma ArrowsUndoEachOther(i: nat, n: nat)
    requires i < n
    ensures ArrowUpTarget(ArrowDownTarget(Some(i), n), n) == Some(i)
    ensures ArrowDownTarget(ArrowUpTarget(Some(i), n), n) == Some(i)
  {
  }

  /** On an empty menu neither arrow finds an item. */
  lemma EmptyMenuHasNoTarget(active: Option<nat>)
    ensures ArrowDownTarget(active, 0).None? && ArrowUpTarget(active, 0).None?
  {
  }

  // ---------------------------------------------------------------------------
  // Class lists

  /** `deactivate(items)`: the active class removed from every item. */
  function Deactivated(items: seq<set<string>>, cls: string): (r: seq<set<string>>)
    ensures |r| == |items|
    ensures forall i :: 0 <= i < |r| ==> cls !in r[i]
    ensures forall i :: 0 <= i < |r| ==> r[i] - {cls} == items[i] - {cls}
  {
    seq(|items|, i requires 0 <= i < |items| => items[i] - {cls})
  }

  /** Item `k` is the only one carrying `cls`. */
  predicate OnlyActive(items: seq<set<string>>, cls: string, k: nat) {
    forall i :: 0 <= i < |items| ==> (cls in items[i] <==> i == k)
  }

  /** No item carries `cls`. */
  predicate NoneActive(items: seq<set<string>>, cls: string) {
    forall i :: 0 <= i < |items| ==> cls !in items[i]
  }

  /** Adding the class to one item of a deactivated list leaves exactly that item active. */
  lemma ActivateAfterDeactivate(items: seq<set<string>>, cls: string, k: nat)
    requires k < |items|
    ensures var d := Deactivated(items, cls); OnlyActive(d[k := d[k] + {cls}], cls, k)
  {
  }

  // ---------------------------------------------------------------------------
  // The handlers as transitions

  /** The hook's state: the keyboard flag, the active item, the items' class lists, the window listener. */
  datatype MenuState = MenuState(enabled: bool, activeItem: Option<nat>, items: seq<set<string>>, keyListener: bool)

  /** The active item, if any, is one of the items. */
  predicate InRange(s: MenuState) {
    s.activeItem.Some? ==> s.activeItem.value < |s.items|
  }

  /** `reset()` with active class `cls`. */
  function ResetState(s: MenuState, cls: string): MenuState {
    MenuState(false, None, Deactivated(s.items, cls), false)
  }

  /**
   * `activate(index, fallbackIndex)`: the state afterwards, and whether the
   * call completed (it fails on `undefined.classList` when no item is picked).
   */
  function ActivateState(s: MenuState, cls: string, index: int, fallback: Option<int>): (MenuState, bool) {
    var k := Pick(index, fallback, |s.items|);
    if k.None? then (s.(activeItem := None), false)
    else (s.(activeItem := k, items := s.items[k.value := s.items[k.value] + {cls}]), true)
  }

  /** `onKeyDown(e)` for a key named `key`: the state afterwards, and whether the handler completed. */
  function KeyDown(s: MenuState, cls: string, key: string): (MenuState, bool) {
    if key == "Escape" then (ResetState(s, cls), true)
    else if key == "Enter" && s.activeItem.None? then ActivateState(s, cls, 0, None)
    else if key == "ArrowDown" then
      ActivateState(s.(items := Deactivated(s.items, cls)), cls, IndexOf(s.activeItem) + 1, Some(0))
    else if key == "ArrowUp" then
      ActivateState(s.(items := Deactivated(s.items, cls)), cls, IndexOf(s.activeItem) - 1, Some(|s.items| - 1))
    else (s, true)
  }

  /** Escape closes everything: keyboard mode off, nothing active, no item carrying the class, listener gone. */
  lemma KeyDownEscape(s: MenuState, cls: string)
    ensures var (t, ok) := KeyDown(s, cls, "Escape");
      ok && !t.enabled && t.activeItem.None? && !t.keyListener && NoneActive(t.items, cls) &&
      t.items == Deactivated(s.items, cls)
  {
  }

  /** Enter with nothing active activates the first item, and fails on an empty menu without touching the items. */
  lemma KeyDownEnter(s: MenuState, cls: string)
    requires s.activeItem.None?
    ensures var (t, ok) := KeyDown(s, cls, "Enter");
      && ok == (|s.items| > 0)
      && (ok ==> t.activeItem == Some(0) && t.items == s.items[0 := s.items[0] + {cls}])
      && (!ok ==> t.items == s.items && t.activeItem.None?)
      && t.enabled == s.enabled && t.keyListener == s.keyListener
  {
  }

  /** ArrowDown and ArrowUp move to the cyclic neighbour, after which exactly that item is active. */
  lemma KeyDownArrows(s: MenuState, cls: string, key: string)
    requires InRange(s)
    requires key == "ArrowDown" || key == "ArrowUp"
    ensures var (t, ok) := KeyDown(s, cls, key);
      && t.activeItem == (if key == "ArrowDown" then ArrowDownTarget(s.activeItem, |s.items|)
                          else ArrowUpTarget(s.activeItem, |s.items|))
      && ok == (|s.items| > 0)
      && (ok ==> OnlyActive(t.items, cls, t.activeItem.value))
      && t.enabled == s.enabled && t.keyListener == s.keyListener
  {
    var n := |s.items|;
    if n > 0 {
      var k := if key == "ArrowDown" then ArrowDownTarget(s.activeItem, n) else ArrowUpTarget(s.activeItem, n);
      ActivateAfterDeactivate(s.items, cls, k.value);
    }
  }

  /** Any other key (Tab, Enter on an active item, letters) leaves the state as it was. */
  lemma KeyDownOtherKeys(s: MenuState, cls: string, key: string)
    requires key != "Escape" && key != "ArrowDown" && key != "ArrowUp"
    requires !(key == "Enter" && s.activeItem.None?)
    ensures KeyDown(s, cls, key) == (s, true)
  {
  }

  /** No key touches any class but the active one, and the active item stays in range. */
  lemma KeyDownKeepsOtherClasses(s: MenuState, cls: string, key: string)
    requires InRange(s)
    ensures var (t, ok) := KeyDown(s, cls, key);
      && |t.items| == |s.items| && InRange(t)
      && forall i :: 0 <= i < |t.items| ==> t.items[i] - {cls} == s.items[i] - {cls}
  {
  }

  // ---------------------------------------------------------------------------
  // The hook

  class Menu {
    /** The `data-active-class` attribute of the menu button. */
    const activeClassAttr: string
    var activeClass: string
    /** Set when the button is opened from the keyboard. */
    var enabled: bool
    /** The index of the active item, `None` for `null`. */
    var activeItem: Option<nat>
    /** The class list of each menu item, in document order. */
    var items: seq<set<string>>
    /** Whether `handleKeyDown` is registered on `window`. */
    var keyListener: bool

    ghost predicate Valid()
      reads this
    {
      && activeClass == activeClassAttr
      && (activeItem.Some? ==> activeItem.value < |items|)
    }

    function State(): MenuState
      reads this
    {
      MenuState(enabled, activeItem, items, keyListener)
    }

    /** `mounted()`, which ends with `reset()`. */
    constructor (activeClassAttr: string, items: seq<set<string>>)
      ensures Valid() && this.activeClassAttr == activeClassAttr
      ensures this.items == Deactivated(items, activeClassAttr)
      ensures activeItem.None? && !enabled && !keyListener
    {
      this.activeClassAttr := activeClassAttr;
      activeClass := activeClassAttr;
      this.items := Deactivated(items, activeClassAttr);
      activeItem := None;
      enabled := false;
      keyListener := false;
    }

    /** `reset()`: nothing active, the window listener removed. */
    method Reset()
      requires Valid()
      modifies this
      ensures Valid()
      ensures State() == ResetState(old(State()), activeClass)
      ensures NoneActive(items, activeClass)
    {
      enabled := false;
      activeClass := activeClassAttr;
      Deactivate();
      activeItem := None;
      keyListener := false;
    }

    /** `deactivate(this.menuItems())`. */
    method Deactivate()
      requires Valid()
      modifies this`items
      ensures Valid()
      ensures items == Deactivated(old(items), activeClass)
    {
      items := Deactivated(items, activeClass);
    }

    /**
     * `activate(index, fallbackIndex)`. With neither index in range the
     * source assigns `undefined` and then fails on `undefined.classList`:
     * `ok` is false and nothing else changes.
     */
    method Activate(index: int, fallback: Option<int>) returns (ok: bool)
      requires Valid()
      modifies this
      ensures Valid() && activeClass == old(activeClass)
      ensures (State(), ok) == ActivateState(old(State()), activeClass, index, fallback)
      ensures activeItem == Pick(index, fallback, |old(items)|)
      ensures ok == activeItem.Some?
      ensures ok ==> items == old(items)[activeItem.value := old(items)[activeItem.value] + {activeClass}]
      ensures !ok ==> items == old(items)
    {
      activeItem := Pick(index, fallback, |items|);
      if activeItem.None? {
        return false;
      }
      var k := activeItem.value;
      items := items[k := items[k] + {activeClass}];
      ok := true;
    }

    /** `onKeyDown(e)`; `ok` is false when the handler fails on an empty menu. */
    method OnKeyDown(key: string) returns (ok: bool)
      requires Valid()
      modifies this
      ensures Valid() && activeClass == old(activeClass)
      ensures (State(), ok) == KeyDown(old(State()), activeClass, key)
    {
      ok := true;
      if key == "Escape" {
        Reset();
      } else if key == "Enter" && activeItem.None? {
        ok := Activate(0, None);
      }
      if !ok {
        return;
      }
      if key == "ArrowDown" {
        Deactivate();
        ok := Activate(IndexOf(activeItem) + 1, Some(0));
      } else if key == "ArrowUp" {
        Deactivate();
        ok := Activate(IndexOf(activeItem) - 1, Some(|items| - 1));
      }
    }

    /** The button's `keydown` listener: Enter or Space opens the menu from the keyboard. */
    method OnButtonKeyDown(key: string)
      requires Valid()
      modifies this
      ensures Valid()
      ensures enabled == (old(enabled) || key == "Enter" || key == " ")
      ensures items == old(items) && activeItem == old(activeItem) && keyListener == old(keyListener)
    {
      if key == "Enter" || key == " " {
        enabled := true;
      }
    }

    /**
     * The button's `click` listener: registers the window listener and, when
     * opened from the keyboard, activates the first item (the animation
     * frame it waits for is taken to come at once).
     */
    method OnButtonClick() returns (ok: bool)
      requires Valid()
      modifies this
      ensures Valid()
      ensures keyListener && enabled == old(enabled)
      ensures old(enabled) ==> (State(), ok) == ActivateState(old(State()).(keyListener := true), activeClass, 0, None)
      ensures old(enabled) ==> activeItem == Pick(0, None, |items|) && ok == (|items| > 0)
      ensures old(enabled) && ok ==> items == old(items)[0 := old(items)[0] + {activeClass}]
      ensures old(enabled) && !ok ==> items == old(items)
      ensures !old(enabled) ==> ok && items == old(items) && activeItem == old(activeItem)
    {
      keyListener := true;
      ok := true;
      if enabled {
        ok := Activate(0, None);
      }
    }

    /** A `keydown` on the window reaches `onKeyDown` only while the listener is registered. */
    method OnWindowKeyDown(key: string) returns (ok: bool)
      requires Valid()
      modifies this
      ensures Valid()
      ensures old(keyListener) ==> (State(), ok) == KeyDown(old(State()), activeClass, key)
      ensures !old(keyListener) ==> ok && State() == old(State())
    {
      ok := true;
      if keyListener {
        ok := OnKeyDown(key);
      }
    }
  }
}
