/**
 * The throttled smooth scroll of main.js (`setupSmoothScroll`): a click on or
 * inside an `a[href^="#"]` link cancels the navigation and, unless an
 * animation frame is already pending (`ticking`), requests one that scrolls to
 * the element the link's `href` selects.
 */
module SmoothScroll {
  import opened Wrappers

  /** What `document.querySelector(href)` does inside the frame callback. */
  datatype Lookup = Found | NotFound | Throws

  /**
   * `ticking`, the pending frame callbacks (each holding the `href` of the link
   * that requested it), and the targets scrolled to so far, in order.
   */
  datatype Scroll = Scroll(ticking: bool, frames: seq<string>, scrolled: seq<string>)

  /** At most one frame is pending, and `ticking` says whether one is. */
  predicate Guarded(s: Scroll) {
    |s.frames| <= 1 && (s.ticking <==> s.frames != [])
  }

  const Initial: Scroll := Scroll(false, [], [])

  /** A document click; `link` is the `href` of the closest `a[href^="#"]` around the target. */
  function Click(s: Scroll, link: Option<string>): Scroll {
    if link.None? || s.ticking then s
    else s.(frames := s.frames + [link.value], ticking := true)
  }

  function Clicks(s: Scroll, links: seq<Option<string>>): Scroll
    decreases |links|
  {
    if links == [] then s else Clicks(Click(s, links[0]), links[1..])
  }

  /**
   * The frame callback as written: when `querySelector` throws (an `href` that
   * is not a valid selector, such as a bare "#"), the callback ends before
   * `ticking = false`.
   */
  function FrameAsWritten(s: Scroll, lookup: Lookup): Scroll
    requires s.frames != []
  {
    var href := s.frames[0];
    match lookup
    case Throws => s.(frames := s.frames[1..])
    case NotFound => s.(frames := s.frames[1..], ticking := false)
    case Found => Scroll(false, s.frames[1..], s.scrolled + [href])
  }

  /**
   * The frame callback with `ticking` cleared on every path: the guard is
   * free again whatever the lookup does, and a guarded state is left with no
   * frame pending.
   */
  function Frame(s: Scroll, lookup: Lookup): (r: Scroll)
    requires s.frames != []
    ensures !r.ticking
    ensures Guarded(s) ==> Guarded(r) && r.frames == []
  {
    Scroll(false, s.frames[1..], if lookup == Found then s.scrolled + [s.frames[0]] else s.scrolled)
  }

  /** A click keeps the guard: it requests a frame only when none is pending. */
  lemma ClickKeepsGuard(s: Scroll, link: Option<string>)
    requires Guarded(s)
    ensures Guarded(Click(s, link))
    ensures Click(s, link).frames == if link.Some? && s.frames == [] then [link.value] else s.frames
  {
  }

  /** The corrected callback keeps the guard and frees it for the next click. */
  lemma FrameKeepsGuard(s: Scroll, lookup: Lookup, href: string)
    requires Guarded(s) && s.frames != []
    ensures Guarded(Frame(s, lookup))
    ensures Click(Frame(s, lookup), Some(href)).frames == [href]
  {
  }

  /**
   * A burst of link clicks with no frame in between requests exactly one
   * frame, for the first link; the later clicks are dropped.
   */
  lemma {:induction false} BurstKeepsFirst(s: Scroll, links: seq<Option<string>>)
    requires Guarded(s)
    ensures Guarded(Clicks(s, links)) && Clicks(s, links).scrolled == s.scrolled
    ensures s.frames != [] ==> Clicks(s, links).frames == s.frames
    ensures s.frames == [] && links != [] && links[0].Some? ==> Clicks(s, links).frames == [links[0].value]
    decreases |links|
  {
    if links != [] {
      ClickKeepsGuard(s, links[0]);
      BurstKeepsFirst(Click(s, links[0]), links[1..]);
    }
  }

  /** ... and the frame that runs scrolls to the first link's target only. */
  lemma BurstScrollsToFirst(links: seq<Option<string>>)
    requires links != [] && links[0].Some?
    ensures Clicks(Initial, links).frames == [links[0].value]
    ensures Frame(Clicks(Initial, links), Found).scrolled == [links[0].value]
  {
    BurstKeepsFirst(Initial, links);
  }

  /** As written, a throwing lookup leaves `ticking` set with no frame pending. */
  lemma ThrowBreaksGuard(s: Scroll)
    requires Guarded(s) && s.frames != []
    ensures !Guarded(FrameAsWritten(s, Throws))
    ensures FrameAsWritten(s, Throws).ticking && FrameAsWritten(s, Throws).frames == []
  {
  }

  /** ... after which every later click is dropped: no frame is ever requested again. */
  lemma {:induction false} StuckAfterThrow(s: Scroll, links: seq<Option<string>>)
    requires s.ticking
    ensures Clicks(s, links) == s
    decreases |links|
  {
    if links != [] {
      StuckAfterThrow(Click(s, links[0]), links[1..]);
    }
  }

  /**
   * What the code as written does keep: no more than one frame is ever
   * pending, and while one is, `ticking` is set. Unlike `Guarded`, `ticking`
   * may stay set with nothing pending.
   */
  predicate AtMostOne(s: Scroll) {
    |s.frames| <= 1 && (s.frames != [] ==> s.ticking)
  }

  /** What can happen to the router: a document click, or the pending frame callback running. */
  datatype ScrollEvent = LinkClick(link: Option<string>) | FrameRuns(lookup: Lookup)

  /** One event with the callback as written; a frame event with no frame pending changes nothing. */
  function StepAsWritten(s: Scroll, e: ScrollEvent): Scroll {
    match e
    case LinkClick(link) => Click(s, link)
    case FrameRuns(lookup) => if s.frames == [] then s else FrameAsWritten(s, lookup)
  }

  function RunAsWritten(s: Scroll, events: seq<ScrollEvent>): Scroll
    decreases |events|
  {
    if events == [] then s else RunAsWritten(StepAsWritten(s, events[0]), events[1..])
  }

  /** Every click and every run of the callback as written keeps at most one frame pending. */
  lemma StepAsWrittenKeepsAtMostOne(s: Scroll, e: ScrollEvent)
    requires AtMostOne(s)
    ensures AtMostOne(StepAsWritten(s, e))
  {
  }

  /** The page as written never has two frames pending, whatever clicks and lookups happen. */
  lemma {:induction false} RunAsWrittenKeepsAtMostOne(s: Scroll, events: seq<ScrollEvent>)
    requires AtMostOne(s)
    ensures AtMostOne(RunAsWritten(s, events))
    decreases |events|
  {
    if events != [] {
      StepAsWrittenKeepsAtMostOne(s, events[0]);
      RunAsWrittenKeepsAtMostOne(StepAsWritten(s, events[0]), events[1..]);
    }
  }

  /** From the loaded page, in particular. */
  lemma AtMostOneFromInitial(events: seq<ScrollEvent>)
    ensures AtMostOne(RunAsWritten(Initial, events))
  {
    RunAsWrittenKeepsAtMostOne(Initial, events);
  }

  /** Concretely: after a click on `href="#"`, a click on a valid `#kontakt` link scrolls nowhere. */
  lemma BareHashBlocksLaterLinks()
    ensures FrameAsWritten(Click(Initial, Some("#")), Throws).frames == []
    ensures Click(FrameAsWritten(Click(Initial, Some("#")), Throws), Some("#kontakt")).frames == []
    ensures Click(Frame(Click(Initial, Some("#")), Throws), Some("#kontakt")).frames == ["#kontakt"]
  {
  }

  /** The scroll router's state, updated in place by its document listener and its frame callbacks. */
  class Router {
    var ticking: bool
    var frames: seq<string>
    var scrolled: seq<string>

    function State(): Scroll
      reads this
    {
      Scroll(ticking, frames, scrolled)
    }

    ghost predicate Valid()
      reads this
    {
      Guarded(State())
    }

    constructor ()
      ensures Valid() && State() == Initial
    {
      ticking, frames, scrolled := false, [], [];
    }

    /** The document click listener; `prevented` is whether it called `preventDefault()`. */
    method OnClick(link: Option<string>) returns (prevented: bool)
      requires Valid()
      modifies this
      ensures Valid() && State() == Click(old(State()), link)
      ensures prevented <==> link.Some?
    {
      if link.None? {
        return false;
      }
      prevented := true;
      if !ticking {
        // `requestAnimationFrame(...)`
        frames := frames + [link.value];
        ticking := true;
      }
    }

    /** The pending frame callback runs; `lookup` is what `querySelector(href)` does. */
    method RunFrame(lookup: Lookup)
      requires Valid() && frames != []
      modifies this
      ensures Valid() && State() == Frame(old(State()), lookup)
    {
      var href := frames[0];
      frames := frames[1..];
      if lookup == Found {
        // `target.scrollIntoView({ behavior: 'smooth', block: 'start' })`
        scrolled := scrolled + [href];
      }
      ticking := false;
    }
  }
}
