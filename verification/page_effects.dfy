/** The three one-line decision rules of the page: the top bar's `scrolled` class, the
    interception of in-page anchor clicks, and the one-shot fade-in of the discussion
    section. */
module PageEffects {

  // ---------------------------------------------------------------------------
  // Top bar

  const ScrollThreshold: real := 100.0
  const ScrolledClass: string := "scrolled"

  /** The class list of the top bar after a scroll event at vertical offset `scrollY`. */
  function OnScroll(classes: set<string>, scrollY: real): (r: set<string>)
    ensures ScrolledClass in r <==> scrollY > ScrollThreshold
    ensures r - {ScrolledClass} == classes - {ScrolledClass}
  {
    if scrollY > ScrollThreshold then classes + {ScrolledClass} else classes - {ScrolledClass}
  }

  /** No hysteresis: the class list after a scroll event depends on the current offset
      only, not on any earlier event; repeating an event is the special case y1 == y2. */
  lemma OnScrollForgetsHistory(classes: set<string>, y1: real, y2: real)
    ensures OnScroll(OnScroll(classes, y1), y2) == OnScroll(classes, y2)
  {
    var a := OnScroll(OnScroll(classes, y1), y2);
    var b := OnScroll(classes, y2);
    assert a - {ScrolledClass} == b - {ScrolledClass};
    assert ScrolledClass in a <==> ScrolledClass in b;
    forall c | c in a ensures c in b {
      if c != ScrolledClass { assert c in a - {ScrolledClass}; }
    }
    forall c | c in b ensures c in a {
      if c != ScrolledClass { assert c in b - {ScrolledClass}; }
    }
  }

  // ---------------------------------------------------------------------------
  // In-page anchors

  /** The one anchor left to the browser. */
  const CheckoutHref: string := "#checkout"

  /** What `document.querySelector(href)` does: finds an element, finds none, or throws
      because `href` is not a valid selector (as "#" alone or "#1" is not). */
  datatype Lookup = Found | NotFound | InvalidSelector

  /** The effect of the click handler on an anchor whose `href` starts with '#'. */
  datatype AnchorOutcome = AnchorOutcome(defaultPrevented: bool, scrolled: bool, thrown: bool)

  function OnAnchorClick(href: string, lookup: Lookup): (o: AnchorOutcome)
    requires |href| >= 1 && href[0] == '#'
    ensures o.defaultPrevented <==> href != CheckoutHref
    ensures o.scrolled <==> href != CheckoutHref && lookup == Found
    ensures o.thrown <==> href != CheckoutHref && lookup == InvalidSelector
  {
    if href == CheckoutHref then AnchorOutcome(false, false, false)
    else AnchorOutcome(true, lookup == Found, lookup == InvalidSelector)
  }

  // ---------------------------------------------------------------------------
  // Fade-in of the discussion section

  const HiddenOpacity: string := "0"
  const HiddenTransform: string := "translateY(20px)"
  const ShownOpacity: string := "1"
  const ShownTransform: string := "translateY(0)"

  /** The section as the fade-in sees it: whether the observer still watches it, and
      its inline opacity and transform. */
  datatype Section = Section(observed: bool, opacity: string, transform: string)

  /** The set-up: hide the section unless it already has the `visible` class, then
      start observing it. */
  function SetUpFade(s: Section, hasVisibleClass: bool): (r: Section)
    ensures r.observed
    ensures !hasVisibleClass ==> r.opacity == HiddenOpacity && r.transform == HiddenTransform
    ensures hasVisibleClass ==> r.opacity == s.opacity && r.transform == s.transform
  {
    if hasVisibleClass then s.(observed := true)
    else Section(true, HiddenOpacity, HiddenTransform)
  }

  /** Whether some callback in a run gets an intersecting entry. */
  predicate HasIntersecting(batches: seq<seq<bool>>) {
    exists i :: 0 <= i < |batches| && true in batches[i]
  }

  /** A run has an intersecting entry when its first batch has one or the rest does. */
  lemma HasIntersectingSplit(batches: seq<seq<bool>>)
    requires batches != []
    ensures HasIntersecting(batches) <==> true in batches[0] || HasIntersecting(batches[1..])
  {
    assert forall i :: 0 < i < |batches| ==> batches[1..][i - 1] == batches[i];
  }

  /** One run of the callback: the `forEach` over the batch of entries (`isIntersecting`
      of each) that the observer hands over. `unobserve` does not remove the entries
      already in the batch, so every intersecting entry writes the shown style again. */
  function Callback(s: Section, batch: seq<bool>): (r: Section)
    ensures true in batch ==> r == Section(false, ShownOpacity, ShownTransform)
    ensures true !in batch ==> r == s
    decreases |batch|
  {
    if batch == [] then s
    else
      var next := if batch[0] then Section(false, ShownOpacity, ShownTransform) else s;
      assert batch == [batch[0]] + batch[1..];
      Callback(next, batch[1..])
  }

  /** The observer hands batches over only for a section it still observes. */
  function Deliver(s: Section, batch: seq<bool>): (r: Section)
    ensures s.observed && true in batch ==> r == Section(false, ShownOpacity, ShownTransform)
    ensures !(s.observed && true in batch) ==> r == s
  {
    if s.observed then Callback(s, batch) else s
  }

  /** The section after a run of callbacks. */
  function DeliverAll(s: Section, batches: seq<seq<bool>>): (r: Section)
    decreases |batches|
  {
    if batches == [] then s else DeliverAll(Deliver(s, batches[0]), batches[1..])
  }

  /** The number of intersecting entries in a batch. */
  function Intersecting(batch: seq<bool>): (n: nat)
    ensures n <= |batch|
    ensures n > 0 <==> true in batch
    decreases |batch|
  {
    if batch == [] then 0
    else
      assert batch == [batch[0]] + batch[1..];
      (if batch[0] then 1 else 0) + Intersecting(batch[1..])
  }

  /** How many times lines 156-158 run over a run of callbacks. */
  function Applications(s: Section, batches: seq<seq<bool>>): (n: nat)
    ensures n > 0 <==> s.observed && HasIntersecting(batches)
    decreases |batches|
  {
    if batches == [] then 0
    else
      var here := if s.observed then Intersecting(batches[0]) else 0;
      var rest := Applications(Deliver(s, batches[0]), batches[1..]);
      HasIntersectingSplit(batches);
      here + rest
  }

  /** How many callbacks apply the fade: one if the section was observed and some entry
      intersects, none otherwise, whatever comes after. */
  function FadingCallbacks(s: Section, batches: seq<seq<bool>>): (n: nat)
    ensures n == if s.observed && HasIntersecting(batches) then 1 else 0
    decreases |batches|
  {
    if batches == [] then 0
    else
      HasIntersectingSplit(batches);
      (if s.observed && true in batches[0] then 1 else 0)
        + FadingCallbacks(Deliver(s, batches[0]), batches[1..])
  }

  /** Within the one callback that fades the section in, a batch with two intersecting
      entries writes the shown style twice. */
  lemma TwoEntriesApplyTwice(s: Section)
    requires s.observed
    ensures Applications(s, [[true, true]]) == 2
    ensures DeliverAll(s, [[true, true]]) == Section(false, ShownOpacity, ShownTransform)
  {
    assert [true, true][1..] == [true];
    assert [[true, true]][1..] == [];
  }

  /** After a callback with an intersecting entry the section is shown and no longer
      observed, even if it later leaves the viewport and comes back. */
  lemma {:induction false} FadeInOnce(s: Section, batches: seq<seq<bool>>)
    requires s.observed && HasIntersecting(batches)
    ensures DeliverAll(s, batches) == Section(false, ShownOpacity, ShownTransform)
  {
    HasIntersectingSplit(batches);
    if true in batches[0] {
      UnobservedStays(Deliver(s, batches[0]), batches[1..]);
    } else {
      FadeInOnce(s, batches[1..]);
    }
  }

  /** A section that is no longer observed never changes again. */
  lemma {:induction false} UnobservedStays(s: Section, batches: seq<seq<bool>>)
    requires !s.observed
    ensures DeliverAll(s, batches) == s
  {
    if batches != [] {
      UnobservedStays(s, batches[1..]);
    }
  }

  /** Until an intersecting entry arrives the section keeps its set-up style. */
  lemma {:induction false} NoIntersectionNoFade(s: Section, batches: seq<seq<bool>>)
    requires !HasIntersecting(batches)
    ensures DeliverAll(s, batches) == s
  {
    if batches != [] {
      HasIntersectingSplit(batches);
      NoIntersectionNoFade(s, batches[1..]);
    }
  }
}
