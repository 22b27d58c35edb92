/**
 * The MobileMenu hook (assets/js/app.ts): one button pair opens and closes a
 * slide-in menu by swapping class pairs on the backdrop, the menu container
 * and the two buttons.
 */
module MobileMenuHook {

  const Shown := "opacity-100"
  const Faded := "opacity-0"
  const SlidIn := "translate-x-0"
  const SlidOut := "-translate-x-full"

  datatype MobileMenuState = MobileMenuState(
    menuOpen: bool,
    backdrop: set<string>,
    menuContainer: set<string>,
    closeButton: set<string>,
    openButton: set<string>)

  /** `classList.remove(remove)` followed by `classList.add(add)`. */
  function Swap(classes: set<string>, remove: string, add: string): set<string> {
    classes - {remove} + {add}
  }

  /** The state after `toggleMenu()`. */
  function Toggled(s: MobileMenuState): (r: MobileMenuState)
    ensures r.menuOpen == !s.menuOpen
  {
    if !s.menuOpen then
      MobileMenuState(true,
        Swap(s.backdrop, Faded, Shown),
        Swap(s.menuContainer, SlidOut, SlidIn),
        Swap(s.closeButton, Faded, Shown),
        Swap(s.openButton, Shown, Faded))
    else
      MobileMenuState(false,
        Swap(s.backdrop, Shown, Faded),
        Swap(s.menuContainer, SlidIn, SlidOut),
        Swap(s.closeButton, Shown, Faded),
        Swap(s.openButton, Faded, Shown))
  }

  /** `classes` holds `yes` and not `no`. */
  predicate Holds(classes: set<string>, yes: string, no: string) {
    yes in classes && no !in classes
  }

  /** Each element holds exactly the class of its pair that `menuOpen` calls for. */
  predicate ClassesMatch(s: MobileMenuState) {
    if s.menuOpen then
      Holds(s.backdrop, Shown, Faded) && Holds(s.menuContainer, SlidIn, SlidOut) &&
      Holds(s.closeButton, Shown, Faded) && Holds(s.openButton, Faded, Shown)
    else
      Holds(s.backdrop, Faded, Shown) && Holds(s.menuContainer, SlidOut, SlidIn) &&
      Holds(s.closeButton, Faded, Shown) && Holds(s.openButton, Shown, Faded)
  }

  /** After any toggle the classes match the flag, whatever they were before. */
  lemma ToggledMatches(s: MobileMenuState)
    ensures ClassesMatch(Toggled(s))
  {
  }

  /** Toggling twice restores a state whose classes matched its flag. */
  lemma ToggleTwiceRestores(s: MobileMenuState)
    requires ClassesMatch(s)
    ensures Toggled(Toggled(s)) == s
  {
    var t := Toggled(Toggled(s));
    assert t.backdrop == s.backdrop;
    assert t.menuContainer == s.menuContainer;
    assert t.closeButton == s.closeButton;
    assert t.openButton == s.openButton;
  }

  class MobileMenu {
    var menuOpen: bool
    var backdrop: set<string>
    var menuContainer: set<string>
    var closeButton: set<string>
    var openButton: set<string>

    function State(): MobileMenuState
      reads this
    {
      MobileMenuState(menuOpen, backdrop, menuContainer, closeButton, openButton)
    }

    /** `mounted()`: closed; the class lists are those of the markup. */
    constructor (backdrop: set<string>, menuContainer: set<string>, closeButton: set<string>, openButton: set<string>)
      ensures State() == MobileMenuState(false, backdrop, menuContainer, closeButton, openButton)
    {
      menuOpen := false;
      this.backdrop := backdrop;
      this.menuContainer := menuContainer;
      this.closeButton := closeButton;
      this.openButton := openButton;
    }

    /** `toggleMenu()`, run by a click on either menu button. */
    method ToggleMenu()
      modifies this
      ensures State() == Toggled(old(State()))
      ensures menuOpen == !old(menuOpen) && ClassesMatch(State())
    {
      menuOpen := !menuOpen;
      if menuOpen {
        backdrop := backdrop - {Faded};
        backdrop := backdrop + {Shown};
        menuContainer := menuContainer - {SlidOut};
        menuContainer := menuContainer + {SlidIn};
        closeButton := closeButton - {Faded};
        closeButton := closeButton + {Shown};
        openButton := openButton - {Shown};
        openButton := openButton + {Faded};
      } else {
        backdrop := backdrop - {Shown};
        backdrop := backdrop + {Faded};
        menuContainer := menuContainer - {SlidIn};
        menuContainer := menuContainer + {SlidOut};
        closeButton := closeButton - {Shown};
        closeButton := closeButton + {Faded};
        openButton := openButton - {Faded};
        openButton := openButton + {Shown};
      }
      ToggledMatches(old(State()));
    }
  }
}
