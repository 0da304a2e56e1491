/** The like button of a comment widget: a click flips the button's `liked` class, reads
    the count back from the reaction-count text, steps it by one and rewrites the text. */
module Like {
  import opened Decimal

  /** A JavaScript number as the handler can hold it: an integer, or NaN when the
      count text had no digit for `parseInt` to read. */
  datatype Num = Int(value: int) | NaN

  /** The thumbs-up icon written before the count. */
  const Icon: string := "\U{1F44D}"

  /** The label the handler writes on the button, in both branches. */
  const ButtonLabel: string := "Like"

  /** `parseInt(text.replace(/[^\d]/g, ''), 10)`: the digits of the text, wherever they
      stand, read as one decimal numeral; NaN when there are none. */
  function ParseCount(text: string): (r: Num)
    ensures r == NaN <==> NoDigits(text)
    ensures r.Int? ==> r.value >= 0
  {
    KeepDigitsEmpty(text);
    var digits := KeepDigits(text);
    if digits == [] then NaN else Int(DigitsValue(digits))
  }

  /** `count++` (when `up`) or `count--`; NaN stays NaN. */
  function Bump(x: Num, up: bool): (r: Num)
  {
    match x
    case NaN => NaN
    case Int(v) => Int(if up then v + 1 else v - 1)
  }

  /** The text of the rewritten reaction count: the icon, a space and the number. */
  function RenderCount(x: Num): (text: string)
  {
    Icon + " " + match x case NaN => "NaN" case Int(v) => IntToString(v)
  }

  lemma IconHasNoDigits()
    ensures NoDigits(Icon + " ")
  {
  }

  lemma KeepDigitsOfRender(x: Num)
    ensures KeepDigits(RenderCount(x)) == match x case NaN => "" case Int(v) => NatToString(if v < 0 then -v else v)
  {
    IconHasNoDigits();
    KeepDigitsEmpty(Icon + " ");
    match x
    case NaN =>
      KeepDigitsEmpty("NaN");
      KeepDigitsConcat(Icon + " ", "NaN");
    case Int(v) =>
      KeepDigitsOfIntToString(v);
      KeepDigitsConcat(Icon + " ", IntToString(v));
  }

  /** A rewritten non-negative count reads back as the same count. */
  lemma ParseRenderRoundTrip(n: nat)
    ensures ParseCount(RenderCount(Int(n))) == Int(n)
  {
    KeepDigitsOfRender(Int(n));
    ValueOfNatToString(n);
  }

  /** A rewritten negative count reads back without its sign: the filter drops the '-'. */
  lemma ParseRenderNegative(n: int)
    requires n < 0
    ensures ParseCount(RenderCount(Int(n))) == Int(-n)
  {
    KeepDigitsOfRender(Int(n));
    ValueOfNatToString(-n);
  }

  /** A rewritten NaN reads back as NaN. */
  lemma ParseRenderNaN()
    ensures ParseCount(RenderCount(NaN)) == NaN
  {
    KeepDigitsOfRender(NaN);
  }

  /** Grouping commas and the icon are dropped: the display "👍 1,204" reads as 1204. */
  lemma ParseGroupedCount()
    ensures ParseCount(Icon + " 1,204") == Int(1204)
  {
    var t := Icon + " 1,204";
    assert t == (Icon + " ") + "1" + "," + "204";
    IconHasNoDigits();
    KeepDigitsEmpty(Icon + " ");
    KeepDigitsConcat((Icon + " ") + "1" + ",", "204");
    KeepDigitsConcat((Icon + " ") + "1", ",");
    KeepDigitsConcat(Icon + " ", "1");
    KeepDigitsOfDigits("204");
    assert KeepDigits(t) == "1204";
    assert "1204"[..3] == "120" && "120"[..2] == "12" && "12"[..1] == "1";
  }

  /** Where the button sits: outside any `.fb-actions` container (so `closest` gives null
      and the lookup of the count throws), in one without a `.fb-reaction-count`, or in
      one whose count element shows `text`. */
  datatype Reaction = NoActionsContainer | NoCountElement | CountElement(text: string)

  /** One widget: the button's `liked` class, the button's text and its count element. */
  datatype Widget = Widget(liked: bool, buttonText: string, reaction: Reaction)

  /** The click handler's effect on a widget. */
  function Click(w: Widget): (r: Widget)
  {
    var liked := !w.liked;
    match w.reaction
    case CountElement(text) =>
      Widget(liked, ButtonLabel, CountElement(RenderCount(Bump(ParseCount(text), liked))))
    case _ => Widget(liked, w.buttonText, w.reaction)
  }

  /** The handler throws (after flipping the class) when the button has no actions container. */
  predicate ClickThrows(w: Widget) {
    w.reaction.NoActionsContainer?
  }

  /** A click on a widget without a count element changes the `liked` class and nothing else. */
  lemma ClickWithoutCount(w: Widget)
    requires !w.reaction.CountElement?
    ensures Click(w) == w.(liked := !w.liked)
  {
  }

  /** A click flips `liked`; the count goes up by one when the button becomes liked and
      down by one when it becomes unliked, and the label is reset. */
  lemma ClickSteps(w: Widget, n: int)
    requires w.reaction.CountElement? && ParseCount(w.reaction.text) == Int(n)
    ensures Click(w).liked == !w.liked
    ensures Click(w).buttonText == ButtonLabel
    ensures Click(w).reaction == CountElement(RenderCount(Int(if !w.liked then n + 1 else n - 1)))
  {
  }

  /** Two clicks restore the flag and the count, and leave the count in canonical form;
      the one exception is a liked button showing 0 (see `DoubleClickFromLikedZero`). */
  lemma DoubleClickRestores(w: Widget, n: int)
    requires w.reaction.CountElement? && ParseCount(w.reaction.text) == Int(n)
    requires !(w.liked && n == 0)
    ensures Click(Click(w)).liked == w.liked
    ensures Click(Click(w)).reaction == CountElement(RenderCount(Int(n)))
    ensures ParseCount(Click(Click(w)).reaction.text) == Int(n)
  {
    var m := if !w.liked then n + 1 else n - 1;
    ClickSteps(w, n);
    ParseRenderRoundTrip(m);
    ClickSteps(Click(w), m);
    ParseRenderRoundTrip(n);
  }

  /** From a liked button showing 0 the first click shows -1, which reads back as 1,
      so the second click shows 2 rather than 0. */
  lemma DoubleClickFromLikedZero(w: Widget)
    requires w.reaction.CountElement? && ParseCount(w.reaction.text) == Int(0)
    requires w.liked
    ensures Click(Click(w)).liked
    ensures Click(Click(w)).reaction == CountElement(RenderCount(Int(2)))
  {
    ClickSteps(w, 0);
    ParseRenderNegative(-1);
    ClickSteps(Click(w), 1);
  }

  /** `k` clicks in a row. */
  function Clicks(w: Widget, k: nat): (r: Widget)
  {
    if k == 0 then w else Click(Clicks(w, k - 1))
  }

  /** Each click flips the `liked` class, whatever else the widget holds. */
  lemma {:induction false} ClicksLiked(w: Widget, k: nat)
    ensures Clicks(w, k).liked == (if k % 2 == 0 then w.liked else !w.liked)
  {
    if k > 0 {
      ClicksLiked(w, k - 1);
    }
  }

  lemma ParityStep(k: nat)
    requires k > 0
    ensures ((k - 1) % 2 == 0) == (k % 2 != 0)
  {
  }

  /** The widget has a count element whose text reads as `n`. */
  predicate Shows(w: Widget, n: int) {
    w.reaction.CountElement? && ParseCount(w.reaction.text) == Int(n)
  }

  /** One click from a widget showing `n` (not a liked one showing 0) shows `n + 1`
      after a like and `n - 1` after an unlike, and the exception is still avoided. */
  lemma ClickShows(w: Widget, n: nat)
    requires Shows(w, n) && !(w.liked && n == 0)
    ensures Shows(Click(w), if w.liked then n - 1 else n + 1)
  {
    ClickSteps(w, n);
    ParseRenderRoundTrip(if w.liked then n - 1 else n + 1);
  }

  /** After any number of clicks the shown count is the initial count plus the
      like transitions minus the unlike transitions: +1 or -1 after an odd number of
      clicks, unchanged after an even number. */
  lemma {:induction false} ClicksNetCount(w: Widget, n: nat, k: nat)
    requires Shows(w, n) && !(w.liked && n == 0)
    ensures Shows(Clicks(w, k), if k % 2 == 0 then n else if w.liked then n - 1 else n + 1)
  {
    if k > 0 {
      ClicksNetCount(w, n, k - 1);
      ClicksLiked(w, k - 1);
      var prev := Clicks(w, k - 1);
      assert Clicks(w, k) == Click(prev);
      ParityStep(k);
      if (k - 1) % 2 == 0 {
        ClickShows(prev, n);
      } else if w.liked {
        ClickShows(prev, n - 1);
      } else {
        ClickShows(prev, n + 1);
      }
    }
  }

  /** One like button on the page, with the state the click handler reads and writes. */
  class LikeButton {
    var liked: bool
    var buttonText: string
    var reaction: Reaction

    function State(): (w: Widget)
      reads this
    {
      Widget(liked, buttonText, reaction)
    }

    constructor (w: Widget)
      ensures State() == w
    {
      liked, buttonText, reaction := w.liked, w.buttonText, w.reaction;
    }

    /** The click handler; `thrown` is set when the count lookup throws. */
    method Toggle() returns (thrown: bool)
      modifies this
      ensures State() == Click(old(State()))
      ensures thrown == ClickThrows(old(State()))
    {
      liked := !liked;
      thrown := reaction.NoActionsContainer?;
      if reaction.CountElement? {
        var count := ParseCount(reaction.text);
        if liked {
          buttonText := ButtonLabel;
          count := Bump(count, true);
        } else {
          buttonText := ButtonLabel;
          count := Bump(count, false);
        }
        reaction := CountElement(RenderCount(count));
      }
    }
  }
}
