/** `MobileNavigation`: the mobile menu, its toggle button and the page
    scroll lock, driven by the listeners that `init` attaches. */
module Navigation {

  /** What the menu code writes: whether `#nav-menu` has the `active`
      class, the toggle's `aria-expanded` attribute and
      `document.body.style.overflow`. */
  datatype NavState = NavState(active: bool, ariaExpanded: string, overflow: string)

  /** What reaches the page.
      - ToggleClick: a click on the toggle button. Its own listener runs,
        then the click bubbles to the document with its target inside the
        toggle.
      - LinkClick: a click on a link inside the menu. Its own listener runs,
        then the click bubbles to the document with its target inside the
        menu.
      - DocClick: any other click; only the document listener sees it. The
        two flags are that listener's `contains` tests on the target. A
        target inside the toggle also reaches the toggle's own listener, so
        in a browser such a click arrives as ToggleClick; a DocClick with
        `insideToggle` set is kept only so that the listener's condition is
        modelled in full.
      - Key: a `keydown` with the given `key` value. */
  datatype Event =
    | ToggleClick
    | LinkClick
    | DocClick(insideToggle: bool, insideMenu: bool)
    | Key(key: string)

  /** The state `openMenu` writes. */
  const Opened: NavState := NavState(true, "true", "hidden")

  /** The state `closeMenu` writes. */
  const Closed: NavState := NavState(false, "false", "")

  /** The three parts agree: the state is one that `openMenu` or
      `closeMenu` writes. */
  predicate InSync(s: NavState) {
    s == Opened || s == Closed
  }

  /** `toggleMenu`: close an active menu, open any other. */
  function Toggled(s: NavState): (r: NavState)
    ensures r.active == !s.active
    ensures InSync(r)
  {
    if s.active then Closed else Opened
  }

  /** The document `click` listener. */
  function AfterDocumentClick(s: NavState, insideToggle: bool, insideMenu: bool): (r: NavState)
    ensures r.active ==> s.active
    ensures !insideToggle && !insideMenu ==> !r.active && InSync(r)
    ensures insideToggle || insideMenu ==> r == s
  {
    if !insideToggle && !insideMenu then Closed else s
  }

  /** The document `keydown` listener. */
  function AfterKeyDown(s: NavState, key: string): (r: NavState)
    ensures r.active ==> s.active
    ensures key == "Escape" ==> !r.active && InSync(r)
    ensures key != "Escape" ==> r == s
  {
    if key == "Escape" then Closed else s
  }

  /** The effect of one event. `wired` says whether `init` found both
      elements and attached its listeners; when it did not, nothing listens. */
  function Dispatch(wired: bool, s: NavState, e: Event): (r: NavState)
    ensures !wired ==> r == s
    ensures wired && e.ToggleClick? ==> r.active == !s.active
    ensures !e.ToggleClick? && r.active ==> s.active
    ensures InSync(s) ==> InSync(r)
  {
    if !wired then s
    else match e
      case ToggleClick => AfterDocumentClick(Toggled(s), true, false)
      case LinkClick => AfterDocumentClick(Closed, false, true)
      case DocClick(insideToggle, insideMenu) => AfterDocumentClick(s, insideToggle, insideMenu)
      case Key(key) => AfterKeyDown(s, key)
  }

  /** The effect of a sequence of events, in order. */
  function Run(wired: bool, s: NavState, events: seq<Event>): NavState
    decreases |events|
  {
    if events == [] then s else Run(wired, Dispatch(wired, s, events[0]), events[1..])
  }

  /** `n` clicks on the toggle button. */
  function Toggles(n: nat): seq<Event> {
    if n == 0 then [] else [ToggleClick] + Toggles(n - 1)
  }

  /** Toggling flips `active` and leaves the three parts in agreement. */
  lemma ToggleFlips(s: NavState)
    ensures Toggled(s).active == !s.active
    ensures InSync(Toggled(s))
    ensures s.active ==> Toggled(s) == NavState(false, "false", "")
    ensures !s.active ==> Toggled(s) == NavState(true, "true", "hidden")
  {
  }

  /** Toggling twice restores the open/closed state, and the whole state
      when its parts agreed. */
  lemma ToggleTwice(s: NavState)
    ensures Toggled(Toggled(s)).active == s.active
    ensures InSync(s) ==> Toggled(Toggled(s)) == s
  {
  }

  /** A click on the toggle toggles: the document listener that sees it
      next leaves the menu alone. A click on a menu link closes the menu. */
  lemma OwnListenersWin(s: NavState)
    ensures Dispatch(true, s, ToggleClick) == Toggled(s)
    ensures Dispatch(true, s, LinkClick) == Closed
  {
  }

  /** Events other than a toggle click can only close the menu: a click
      outside both elements and Escape close it, a click inside either
      element and any other key change nothing. */
  lemma DocumentEventsOnlyClose(wired: bool, s: NavState, e: Event)
    requires !e.ToggleClick?
    ensures Dispatch(wired, s, e) == s || Dispatch(wired, s, e) == Closed
    ensures Dispatch(wired, s, e).active ==> s.active
    ensures wired && e.DocClick? && !e.insideToggle && !e.insideMenu ==> Dispatch(wired, s, e) == Closed
    ensures e.DocClick? && (e.insideToggle || e.insideMenu) ==> Dispatch(wired, s, e) == s
    ensures wired && e == Key("Escape") ==> Dispatch(wired, s, e) == Closed
    ensures e.Key? && e.key != "Escape" ==> Dispatch(wired, s, e) == s
  {
  }

  /** Without both elements no listener exists, so no sequence of events
      changes anything. */
  lemma {:induction false} UnwiredIgnoresEverything(s: NavState, events: seq<Event>)
    ensures Run(false, s, events) == s
    decreases |events|
  {
    if events != [] {
      UnwiredIgnoresEverything(s, events[1..]);
    }
  }

  /** Without a toggle click, no sequence of events opens the menu: it ends
      as it started or closed. */
  lemma {:induction false} OnlyToggleOpens(wired: bool, s: NavState, events: seq<Event>)
    requires forall i :: 0 <= i < |events| ==> !events[i].ToggleClick?
    ensures Run(wired, s, events) == s || Run(wired, s, events) == Closed
    decreases |events|
  {
    if events != [] {
      DocumentEventsOnlyClose(wired, s, events[0]);
      var next := Dispatch(wired, s, events[0]);
      OnlyToggleOpens(wired, next, events[1..]);
      if next == Closed {
        assert Run(wired, s, events) == Run(wired, Closed, events[1..]);
      }
    }
  }

  /** Once the three parts agree, every sequence of events keeps them in
      agreement. */
  lemma {:induction false} StaysInSync(wired: bool, s: NavState, events: seq<Event>)
    requires InSync(s)
    ensures InSync(Run(wired, s, events))
    decreases |events|
  {
    if events != [] {
      StaysInSync(wired, Dispatch(wired, s, events[0]), events[1..]);
    }
  }

  /** `n` toggle clicks leave the menu open exactly when it started open
      and `n` is even, or started closed and `n` is odd. */
  lemma {:induction false} ToggleParity(s: NavState, n: nat)
    ensures Run(true, s, Toggles(n)).active == (s.active != (n % 2 == 1))
    decreases n
  {
    if n > 0 {
      assert Toggles(n)[1..] == Toggles(n - 1);
      ToggleParity(Toggled(s), n - 1);
    }
  }

  /** The navigation controller with the page state it writes. */
  class MobileNavigation {
    /** Both `#nav-toggle` and `#nav-menu` were found, so `init` attached
        the listeners. */
    const wired: bool
    var menuActive: bool
    var ariaExpanded: string
    var bodyOverflow: string

    function State(): NavState
      reads this
    {
      NavState(menuActive, ariaExpanded, bodyOverflow)
    }

    /** The constructor and `init`; `initial` is the page as loaded. */
    constructor (toggleFound: bool, menuFound: bool, initial: NavState)
      ensures wired == (toggleFound && menuFound)
      ensures State() == initial
    {
      wired := toggleFound && menuFound;
      menuActive := initial.active;
      ariaExpanded := initial.ariaExpanded;
      bodyOverflow := initial.overflow;
    }

    /** `openMenu`: mark the menu active, the toggle expanded, and lock
        page scroll. */
    method OpenMenu()
      requires wired
      modifies this
      ensures State() == NavState(true, "true", "hidden")
    {
      menuActive := true;
      ariaExpanded := "true";
      bodyOverflow := "hidden";
    }

    /** `closeMenu`: undo all three; the result does not depend on the
        state before, so closing twice is closing once. */
    method CloseMenu()
      requires wired
      modifies this
      ensures State() == NavState(false, "false", "")
    {
      menuActive := false;
      ariaExpanded := "false";
      bodyOverflow := "";
    }

    /** `toggleMenu`: branch on the `active` class. */
    method ToggleMenu()
      requires wired
      modifies this
      ensures State() == Toggled(old(State()))
      ensures State().active == !old(State()).active
    {
      var isOpen := menuActive;
      if isOpen {
        CloseMenu();
      } else {
        OpenMenu();
      }
    }

    /** Deliver one event to whatever listeners `init` attached, in the
        order the browser runs them. */
    method Handle(e: Event)
      modifies this
      ensures State() == Dispatch(wired, old(State()), e)
    {
      if !wired {
        return;
      }
      match e
      case ToggleClick =>
        ToggleMenu();
        DocumentClick(true, false);
      case LinkClick =>
        CloseMenu();
        DocumentClick(false, true);
      case DocClick(insideToggle, insideMenu) =>
        DocumentClick(insideToggle, insideMenu);
      case Key(key) =>
        if key == "Escape" {
          CloseMenu();
        }
    }

    /** The document `click` listener. */
    method DocumentClick(insideToggle: bool, insideMenu: bool)
      requires wired
      modifies this
      ensures State() == AfterDocumentClick(old(State()), insideToggle, insideMenu)
    {
      if !insideToggle && !insideMenu {
        CloseMenu();
      }
    }
  }
}
