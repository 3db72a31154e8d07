/** The mobile menu of main.js (`setupMobileMenu`). */
module MainMenu {
  import opened Wrappers

  const OpenLabel: string := "Mobile Menü öffnen"
  const CloseLabel: string := "Mobile Menü schließen"

  /** The drawing of the button's icon path: the hamburger or the close cross. */
  datatype Icon = Hamburger | Cross

  /**
   * What the menu shows: the button's `aria-expanded` and `aria-label`
   * attributes (`None` when absent), whether the panel has the `hidden` class,
   * whether the root element has the `overflow-hidden` class, and the icon
   * (`None` when the button has no `svg path`, which the handlers then leave
   * alone).
   */
  datatype MenuView = MenuView(
    expanded: Option<string>,
    ariaLabel: Option<string>,
    hidden: bool,
    scrollLocked: bool,
    icon: Option<Icon>)

  /** `menuButton.getAttribute('aria-expanded') === 'true'`. */
  predicate IsExpanded(v: MenuView) {
    v.expanded == Some("true")
  }

  /** The attributes, classes and icon agree with each other: fully open or fully closed. */
  predicate Consistent(v: MenuView) {
    || (v.expanded == Some("true") && v.ariaLabel == Some(CloseLabel) && !v.hidden && v.scrollLocked && v.icon != Some(Hamburger))
    || (v.expanded == Some("false") && v.ariaLabel == Some(OpenLabel) && v.hidden && !v.scrollLocked && v.icon != Some(Cross))
  }

  /** `openMenu()`. */
  function Opened(v: MenuView): (r: MenuView)
    ensures IsExpanded(r) && Consistent(r)
    ensures r.icon.Some? <==> v.icon.Some?
  {
    MenuView(Some("true"), Some(CloseLabel), false, true, if v.icon.Some? then Some(Cross) else None)
  }

  /** `closeMenu()`. */
  function Closed(v: MenuView): (r: MenuView)
    ensures !IsExpanded(r) && Consistent(r)
    ensures r.icon.Some? <==> v.icon.Some?
  {
    MenuView(Some("false"), Some(OpenLabel), true, false, if v.icon.Some? then Some(Hamburger) else None)
  }

  /** `toggleMenu()`: decided by `aria-expanded` alone. */
  function Toggled(v: MenuView): MenuView {
    if IsExpanded(v) then Closed(v) else Opened(v)
  }

  /**
   * Where a click lands: on the menu button, inside the menu panel, or
   * elsewhere. `link` is the `href` of the closest `a[href^="#"]` around the
   * target, if any. The button and the panel do not contain each other.
   */
  datatype ClickTarget = OnButton | InMenu(link: Option<string>) | Outside(link: Option<string>)

  datatype MenuEvent = Click(target: ClickTarget) | KeyDown(key: string) | Breakpoint(matches: bool)

  /**
   * One event, through every listener it reaches: a click meets the button's
   * or the panel's listener first, then the document's; a key press the
   * document's; a change of the `(min-width: 768px)` query its own.
   */
  function Step(v: MenuView, e: MenuEvent): MenuView {
    match e
    case Click(OnButton) => Toggled(v)
    case Click(InMenu(link)) => if link.Some? then Closed(v) else v
    case Click(Outside(_)) => if IsExpanded(v) then Closed(v) else v
    case KeyDown(key) => if key == "Escape" then Closed(v) else v
    case Breakpoint(matches) => if matches then Closed(v) else v
  }

  function Run(v: MenuView, events: seq<MenuEvent>): MenuView
    decreases |events|
  {
    if events == [] then v else Run(Step(v, events[0]), events[1..])
  }

  /** Closing is idempotent. */
  lemma CloseIdempotent(v: MenuView)
    ensures Closed(Closed(v)) == Closed(v)
  {
  }

  /** From a consistent state, two toggles restore every attribute, class and the icon. */
  lemma ToggleTwiceRestores(v: MenuView)
    requires Consistent(v)
    ensures Toggled(Toggled(v)) == v
  {
    var w := Toggled(Toggled(v));
    assert w.icon == v.icon by {
      if v.icon.Some? {
        assert v.icon.value == (if IsExpanded(v) then Cross else Hamburger);
      }
    }
  }

  /** A toggle flips the expanded state, whatever the rest of the state says. */
  lemma ToggleFlips(v: MenuView)
    ensures IsExpanded(Toggled(v)) <==> !IsExpanded(v)
    ensures Consistent(Toggled(v))
  {
  }

  /** An outside click closes an open menu and leaves a closed one untouched. */
  lemma OutsideClick(v: MenuView, link: Option<string>)
    ensures IsExpanded(v) ==> Step(v, Click(Outside(link))) == Closed(v)
    ensures !IsExpanded(v) ==> Step(v, Click(Outside(link))) == v
  {
  }

  /** A click inside the panel closes the menu only when it lands in a `#` link. */
  lemma PanelClick(v: MenuView, link: Option<string>)
    ensures link.Some? ==> !IsExpanded(Step(v, Click(InMenu(link))))
    ensures link.None? ==> Step(v, Click(InMenu(link))) == v
  {
  }

  /** Escape and a matching breakpoint close the menu whatever its state; other keys do nothing. */
  lemma UnconditionalCloses(v: MenuView, key: string)
    ensures Step(v, KeyDown("Escape")) == Closed(v) && Step(v, Breakpoint(true)) == Closed(v)
    ensures key != "Escape" ==> Step(v, KeyDown(key)) == v
  {
  }

  /** Only a click on the button opens the menu. */
  lemma OnlyButtonOpens(v: MenuView, e: MenuEvent)
    requires !IsExpanded(v) && IsExpanded(Step(v, e))
    ensures e == Click(OnButton)
  {
  }

  /** Every event keeps a consistent state consistent, and every close trigger leaves a consistent one. */
  lemma StepKeepsConsistent(v: MenuView, e: MenuEvent)
    requires Consistent(v)
    ensures Consistent(Step(v, e))
  {
  }

  lemma {:induction false} RunKeepsConsistent(v: MenuView, events: seq<MenuEvent>)
    requires Consistent(v)
    ensures Consistent(Run(v, events))
    decreases |events|
  {
    if events != [] {
      StepKeepsConsistent(v, events[0]);
      RunKeepsConsistent(Step(v, events[0]), events[1..]);
    }
  }

  /** Once any event has made the state consistent, it stays consistent. */
  lemma {:induction false} ConsistentAfterFirstChange(v: MenuView, events: seq<MenuEvent>)
    requires events != [] && Step(v, events[0]) != v
    ensures Consistent(Run(v, events))
  {
    assert Consistent(Step(v, events[0]));
    RunKeepsConsistent(Step(v, events[0]), events[1..]);
  }

  /** The menu button, its panel and the root element's scroll lock, updated in place by the listeners. */
  class MobileMenu {
    var expanded: Option<string>
    var ariaLabel: Option<string>
    var hidden: bool
    var scrollLocked: bool
    var icon: Option<Icon>

    function View(): MenuView
      reads this
    {
      MenuView(expanded, ariaLabel, hidden, scrollLocked, icon)
    }

    /**
     * `setupMobileMenu` on a page whose markup gives `initial`: after the
     * listeners are registered, `handleBreakpoint()` runs once.
     */
    constructor (initial: MenuView, mdMatches: bool)
      ensures View() == if mdMatches then Closed(initial) else initial
    {
      expanded, ariaLabel, hidden, scrollLocked, icon :=
        initial.expanded, initial.ariaLabel, initial.hidden, initial.scrollLocked, initial.icon;
      new;
      OnBreakpoint(mdMatches);
    }

    /** `setIcon(open)`: redraws the path when the button has one. */
    method SetIcon(open: bool)
      modifies this
      ensures icon == if old(icon).Some? then Some(if open then Cross else Hamburger) else None
      ensures expanded == old(expanded) && ariaLabel == old(ariaLabel) && hidden == old(hidden) && scrollLocked == old(scrollLocked)
    {
      if icon.None? {
        return;
      }
      icon := Some(if open then Cross else Hamburger);
    }

    method OpenMenu()
      modifies this
      ensures View() == Opened(old(View()))
    {
      expanded := Some("true");
      ariaLabel := Some(CloseLabel);
      hidden := false;
      scrollLocked := true;
      SetIcon(true);
    }

    method CloseMenu()
      modifies this
      ensures View() == Closed(old(View()))
    {
      expanded := Some("false");
      ariaLabel := Some(OpenLabel);
      hidden := true;
      scrollLocked := false;
      SetIcon(false);
    }

    method ToggleMenu()
      modifies this
      ensures View() == Toggled(old(View()))
    {
      var isExpanded := expanded == Some("true");
      if isExpanded {
        CloseMenu();
      } else {
        OpenMenu();
      }
    }

    /** A click: the button's or the panel's listener, then the document's. */
    method OnClick(target: ClickTarget)
      modifies this
      ensures View() == Step(old(View()), Click(target))
    {
      if target.OnButton? {
        ToggleMenu();
      }
      if target.InMenu? && target.link.Some? {
        CloseMenu();
      }
      var clickedInsideMenu := target.InMenu?;
      var clickedButton := target.OnButton?;
      var isExpanded := expanded == Some("true");
      if isExpanded && !clickedInsideMenu && !clickedButton {
        CloseMenu();
      }
    }

    method OnKeyDown(key: string)
      modifies this
      ensures View() == Step(old(View()), KeyDown(key))
    {
      if key == "Escape" {
        CloseMenu();
      }
    }

    /** `handleBreakpoint()`. */
    method OnBreakpoint(matches: bool)
      modifies this
      ensures View() == Step(old(View()), Breakpoint(matches))
    {
      if matches {
        CloseMenu();
      }
    }
  }
}
