/**
 * The NavBar hook (assets/js/app.ts): the navigation bar turns opaque once the
 * page is scrolled past an offset and transparent again above it. The hook's
 * state is the `isOpaque` flag and the bar's class list.
 */
module NavBarHook {

  /** The scroll offset, in pixels, past which the bar is opaque. */
  const Offset: real := 16.0

  const Opaque := "bg-gray-950"
  const Transparent := "bg-transparent"

  datatype NavBarState = NavBarState(isOpaque: bool, classes: set<string>)

  /** The state after the scroll handler ran with `window.scrollY == scrollY`. */
  function Scrolled(s: NavBarState, scrollY: real): (r: NavBarState)
    ensures r.isOpaque == (scrollY > Offset)
    ensures r.isOpaque == s.isOpaque ==> r == s
  {
    if !s.isOpaque && scrollY > Offset then
      NavBarState(true, s.classes + {Opaque} - {Transparent})
    else if s.isOpaque && scrollY <= Offset then
      NavBarState(false, s.classes + {Transparent} - {Opaque})
    else s
  }

  /** The class list agrees with the flag: exactly one of the two background classes, the right one. */
  predicate ClassesAgree(s: NavBarState) {
    if s.isOpaque then Opaque in s.classes && Transparent !in s.classes
    else Transparent in s.classes && Opaque !in s.classes
  }

  /** Running the handler twice at the same position changes nothing the second time. */
  lemma ScrolledIdempotent(s: NavBarState, scrollY: real)
    ensures Scrolled(Scrolled(s, scrollY), scrollY) == Scrolled(s, scrollY)
  {
  }

  /** Agreement between the flag and the classes is kept by every scroll. */
  lemma ScrolledKeepsAgreement(s: NavBarState, scrollY: real)
    requires ClassesAgree(s)
    ensures ClassesAgree(Scrolled(s, scrollY))
  {
  }

  /** Whenever the flag flips, the classes agree with it afterwards, whatever they were before. */
  lemma FlipEstablishesAgreement(s: NavBarState, scrollY: real)
    requires Scrolled(s, scrollY).isOpaque != s.isOpaque
    ensures ClassesAgree(Scrolled(s, scrollY))
  {
  }

  /** Only the two background classes are ever touched. */
  lemma OtherClassesUntouched(s: NavBarState, scrollY: real)
    ensures Scrolled(s, scrollY).classes - {Opaque, Transparent} == s.classes - {Opaque, Transparent}
  {
  }

  class NavBar {
    var isOpaque: bool
    /** The class list of the hook's element. */
    var classes: set<string>

    function State(): NavBarState
      reads this
    {
      NavBarState(isOpaque, classes)
    }

    /** `mounted()`: the bar starts transparent; the classes are those of the markup. */
    constructor (classes: set<string>)
      ensures !isOpaque && this.classes == classes
    {
      isOpaque := false;
      this.classes := classes;
    }

    /** `onScroll`, with `window.scrollY` passed in. */
    method OnScroll(scrollY: real)
      modifies this
      ensures State() == Scrolled(old(State()), scrollY)
      ensures isOpaque == (scrollY > Offset)
    {
      if !isOpaque && scrollY > Offset {
        isOpaque := true;
        classes := classes + {Opaque};
        classes := classes - {Transparent};
      } else if isOpaque && scrollY <= Offset {
        isOpaque := false;
        classes := classes + {Transparent};
        classes := classes - {Opaque};
      }
    }
  }
}
