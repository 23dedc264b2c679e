/** The mobile navigation drawer: the toggle button and the navigation panel each
    carry an "active" flag, and the page body's `overflow` style is "hidden"
    while the panel is open so the page behind it does not scroll. */
module MobileMenu {

  datatype MenuState = MenuState(toggleActive: bool, panelActive: bool, bodyOverflow: string)

  /** The events the drawer reacts to: a click on the toggle button, a click on
      any navigation link, and a resize of the window to a new inner width. */
  datatype MenuEvent = ToggleClick | LinkClick | Resize(innerWidth: int)

  /** Widths above this close the drawer. */
  const DesktopWidth := 768

  /** The body scroll lock agrees with the panel. */
  predicate Locked(m: MenuState) {
    m.bodyOverflow == "hidden" <==> m.panelActive
  }

  /** The button and the panel agree and the lock follows them. */
  predicate Coherent(m: MenuState) {
    m.toggleActive == m.panelActive && Locked(m)
  }

  /** `toggleMenu`: flip each flag, then lock the body iff the panel is now open. */
  function Toggled(m: MenuState): (m': MenuState)
    ensures m'.toggleActive != m.toggleActive && m'.panelActive != m.panelActive
    ensures Locked(m')
  {
    var panel := !m.panelActive;
    MenuState(!m.toggleActive, panel, if panel then "hidden" else "")
  }

  /** `closeMenu`: both flags off, the body unlocked. */
  function Closed(m: MenuState): (m': MenuState)
    ensures !m'.toggleActive && !m'.panelActive && Coherent(m')
  {
    MenuState(false, false, "")
  }

  /** The resize rule: a width above 768 pixels closes the drawer. */
  function Resized(m: MenuState, innerWidth: int): (m': MenuState)
    ensures innerWidth > DesktopWidth ==> !m'.panelActive && !m'.toggleActive
    ensures innerWidth <= DesktopWidth ==> m' == m
  {
    if innerWidth > DesktopWidth then Closed(m) else m
  }

  /** One event, with the handlers wired (both elements exist). */
  function Dispatch(m: MenuState, e: MenuEvent): MenuState {
    match e
    case ToggleClick => Toggled(m)
    case LinkClick => Closed(m)
    case Resize(w) => Resized(m, w)
  }

  /** The drawer after a sequence of events; nothing happens when the toggle
      button or the panel is missing, because no handler was wired. */
  function Run(wired: bool, m: MenuState, events: seq<MenuEvent>): MenuState
    decreases |events|
  {
    if !wired || events == [] then m
    else Run(wired, Dispatch(m, events[0]), events[1..])
  }

  /** Closing is idempotent. */
  lemma ClosedIdempotent(m: MenuState)
    ensures Closed(Closed(m)) == Closed(m)
  {
  }

  /** Toggling twice restores both flags. */
  lemma ToggleTwiceRestoresFlags(m: MenuState)
    ensures Toggled(Toggled(m)).toggleActive == m.toggleActive
    ensures Toggled(Toggled(m)).panelActive == m.panelActive
  {
  }

  /** Every handler keeps a coherent drawer coherent. */
  lemma DispatchKeepsCoherent(m: MenuState, e: MenuEvent)
    requires Coherent(m)
    ensures Coherent(Dispatch(m, e))
  {
  }

  /** From a coherent start, any sequence of events leaves the button and the
      panel in agreement and the body locked exactly while the panel is open. */
  lemma {:induction false} RunKeepsCoherent(wired: bool, m: MenuState, events: seq<MenuEvent>)
    requires Coherent(m)
    ensures Coherent(Run(wired, m, events))
    decreases |events|
  {
    if wired && events != [] {
      DispatchKeepsCoherent(m, events[0]);
      RunKeepsCoherent(wired, Dispatch(m, events[0]), events[1..]);
    }
  }

  /** A click on the button or a link, or a resize to a wide window, leaves the
      body locked exactly while the panel is open, whatever the state before;
      a narrow resize keeps the lock as it was. */
  lemma DispatchLocks(m: MenuState, e: MenuEvent)
    requires Locked(m) || !(e.Resize? && e.innerWidth <= DesktopWidth)
    ensures Locked(Dispatch(m, e))
  {
  }

  /** Once the lock follows the panel, it keeps doing so under any events. */
  lemma {:induction false} RunKeepsLocked(wired: bool, m: MenuState, events: seq<MenuEvent>)
    requires Locked(m)
    ensures Locked(Run(wired, m, events))
    decreases |events|
  {
    if wired && events != [] {
      DispatchLocks(m, events[0]);
      RunKeepsLocked(wired, Dispatch(m, events[0]), events[1..]);
    }
  }

  /** The drawer as page state. */
  class Drawer {
    const wired: bool
    var toggleActive: bool
    var panelActive: bool
    var bodyOverflow: string

    function State(): MenuState
      reads this
    {
      MenuState(toggleActive, panelActive, bodyOverflow)
    }

    /** `initMobileMenu`: handlers are wired only when both elements exist; the
        classes and the body's overflow are whatever the markup set. */
    constructor (hasToggle: bool, hasPanel: bool, initial: MenuState)
      ensures wired <==> hasToggle && hasPanel
      ensures State() == initial
    {
      wired := hasToggle && hasPanel;
      toggleActive, panelActive, bodyOverflow := initial.toggleActive, initial.panelActive, initial.bodyOverflow;
    }

    /** `toggleMenu`. */
    method ToggleMenu()
      modifies this
      ensures State() == Toggled(old(State()))
    {
      toggleActive := !toggleActive;
      panelActive := !panelActive;
      if panelActive {
        bodyOverflow := "hidden";
      } else {
        bodyOverflow := "";
      }
    }

    /** `closeMenu`. */
    method CloseMenu()
      modifies this
      ensures State() == Closed(old(State()))
    {
      toggleActive := false;
      panelActive := false;
      bodyOverflow := "";
    }

    /** The resize listener. */
    method OnResize(innerWidth: int)
      modifies this
      ensures State() == Resized(old(State()), innerWidth)
    {
      if innerWidth > DesktopWidth {
        CloseMenu();
      }
    }

    /** An event reaches the drawer only through a wired handler. */
    method Handle(e: MenuEvent)
      modifies this
      ensures State() == Run(wired, old(State()), [e])
    {
      if wired {
        match e
        case ToggleClick => ToggleMenu();
        case LinkClick => CloseMenu();
        case Resize(w) => OnResize(w);
      }
    }
  }
}
