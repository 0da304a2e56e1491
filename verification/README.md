# Landing-page effects, modelled in Dafny

A model of the logic in `script.js`, the script behind a single marketing landing page.
Most of the script only wires DOM events. The parts with behaviour worth stating are modelled here:

- **Like button** (`like.dfy`, with `decimal.dfy`). A click flips the button's `liked` class. The handler then finds the widget's reaction-count element and reads the count back from its text. It deletes every character that is not an ASCII digit and applies `parseInt`. It adds 1 when the button became liked and subtracts 1 otherwise. Finally it rewrites the element as the thumbs-up icon, a space and the plain decimal count. The widget is a value (`Widget`) with a pure transition `Click`. It is also a class, `LikeButton`, whose `Toggle` method updates the fields in place and is proved equal to `Click`. A count text with no digit gives NaN, as `parseInt("")` does, and NaN stays NaN. A button outside any `.fb-actions` container makes `closest` return null. The lookup of the count then throws, after the class has already been flipped.
- **Viewer counter** (`viewers.dfy`). The count is seeded in [572, 603]. Each timer callback moves it by 1 to 3 in a random direction. The low clamp sets a value below 572 to 572 plus a jitter of 0 to 2. The high clamp sets a value above 603 to 603 minus a jitter of 0 to 2. The model passes in every `Math.random()` call as a real number in [0, 1) and writes `Math.floor` out. The counter element and the closure variable are a class, `ViewerCounter`. Its `Tick` method keeps the invariant "the count is in range and the element shows it". `Trajectory` gives the counts that successive callbacks show.
- **Decision rules** (`page_effects.dfy`):
  - The top bar carries `scrolled` exactly when `scrollY > 100`.
  - An anchor click on `#checkout` is left alone. Any other in-page anchor click has its default suppressed and scrolls only when the target exists.
  - The discussion section fades in during the first callback that gets an intersecting entry. The observer hands its entries over in batches, and the callback walks the whole batch. `unobserve` stops later batches but not the rest of the current one. So the fade is applied in at most one callback, once for each intersecting entry of that batch, and every application writes the same style.

Two behaviours of the code differ from what a reader of the page might expect. The model follows the code in both:

- The rewritten count has no thousands separator. A widget that shows "1,204" therefore shows "👍 1205" after one click and "👍 1204" after a second click, not "1,204" again (`ParseGroupedCount`, `DoubleClickRestores`).
- The count has no floor, and the digit filter drops the minus sign. Take a button that starts liked on a count of 0. The first click shows -1. The next click reads that text back as 1 and shows 2 (`ParseRenderNegative`, `DoubleClickFromLikedZero`). Starting from any other widget whose count text holds a digit, the shown count after k clicks is the initial count, plus 1 or minus 1 when k is odd (`ClicksNetCount`).

## Model

| member | source | states |
|---|---|---|
| `Decimal.KeepDigits` | script.js:40 | the filtered text holds only ASCII digits and is no longer than the input |
| `Decimal.KeepDigitsConcat` | script.js:40 | filtering a concatenation is concatenating the filtered parts, so the digits keep their order |
| `Decimal.KeepDigitsOfDigits` | script.js:40 | a string made only of digits passes the filter unchanged |
| `Decimal.KeepDigitsEmpty` | script.js:40-41 | the filter yields "" exactly when the text has no digit, the case in which `parseInt` gives NaN |
| `Decimal.DigitChar` | script.js:52 | the character printed for a digit value is a digit and reads back as that value |
| `Decimal.NatToString` | script.js:52 | the printed count is a non-empty string of digits with no leading zero unless the count is 0 |
| `Decimal.ValueOfNatToString` | script.js:40-52 | reading a printed non-negative count back with `parseInt` gives the same count |
| `Decimal.NatToStringOfValue` | script.js:40-52 | printing the value of a numeral without leading zeros gives that numeral back (the other direction of the round trip) |
| `Decimal.KeepDigitsOfIntToString` | script.js:40-52 | filtering a printed integer leaves the numeral of its magnitude, because the minus sign is dropped |
| `Like.ParseCount` | script.js:40-41 | the count read from a text is NaN exactly when the text has no digit, and is otherwise non-negative |
| `Like.KeepDigitsOfRender` | script.js:40-52 | filtering a rewritten count text leaves the digits of the count's magnitude, or nothing for NaN |
| `Like.ParseRenderRoundTrip` | script.js:40-52 | the rewritten text "👍 n" reads back as n for every n >= 0 |
| `Like.ParseRenderNegative` | script.js:40-52 | the rewritten text of a negative n reads back as -n |
| `Like.ParseRenderNaN` | script.js:41-52 | the rewritten text "👍 NaN" reads back as NaN |
| `Like.ParseGroupedCount` | script.js:40-41 | the display "👍 1,204" reads as 1204: the icon and the grouping comma are dropped |
| `Like.ClickWithoutCount` | script.js:32-38 | without a count element, a click changes the `liked` class and nothing else |
| `Like.ClickSteps` | script.js:32-52 | a click flips `liked`, resets the label, and rewrites the count as n + 1 when the button becomes liked and n - 1 when it becomes unliked |
| `Like.DoubleClickRestores` | script.js:30-55 | two clicks restore the flag and the count, except from a liked button showing 0 |
| `Like.DoubleClickFromLikedZero` | script.js:40-52 | from a liked button showing 0, two clicks leave it liked and showing 2 |
| `Like.ClicksLiked` | script.js:32 | after k clicks the flag is flipped exactly when k is odd |
| `Like.ClickShows` | script.js:40-52 | one click from a count n that is not a liked 0 shows n - 1 or n + 1, and the new text reads back as that value |
| `Like.ClicksNetCount` | script.js:30-55 | after k clicks the shown count is the initial count, plus 1 (from unliked) or minus 1 (from liked) when k is odd |
| `Like.LikeButton.Toggle` | script.js:31-54 | the handler's in-place update is exactly `Click`, and it throws exactly when there is no actions container |
| `Viewers.Pick` | script.js:104 | `Math.floor(Math.random() * n)` is one of 0 .. n - 1 |
| `Viewers.SeedViewers` | script.js:102-104 | the seeded count lies in [572, 603] |
| `Viewers.Interval` | script.js:115 | the delay before the next callback lies in [6000, 12000] ms |
| `Viewers.Change` | script.js:121 | the magnitude of a step is 1 to 3 |
| `Viewers.Direction` | script.js:122 | the direction of a step is +1 or -1 |
| `Viewers.Clamp` | script.js:126-128 | the result is in [572, 603]; a value below 572 becomes 572 plus the low jitter and the high clamp does not also fire; a value above 603 becomes 603 minus the high jitter; an in-range value is kept |
| `Viewers.NextViewers` | script.js:121-128 | a step lands in [572, 603]; a step through the floor lands in 572..574 and one through the ceiling in 601..603; an unclamped step moves 1 to 3 in the chosen direction |
| `Viewers.Trajectory` | script.js:113-135 | every count the callbacks show lies in [572, 603], and consecutive shown counts differ by at most 3 |
| `Viewers.CaptionShowsCount` | script.js:106-108 | the counter text begins with the three digits of the count, which read back as the count |
| `Viewers.ViewerCounter.constructor` | script.js:102-111 | the seeded counter is in range and its element shows the seeded count |
| `Viewers.ViewerCounter.Tick` | script.js:117-131 | a callback keeps the count in range and the display in step, and moves the count to `NextViewers` of the old count |
| `Viewers.InitViewerCounter` | script.js:97-111 | without a counter element nothing is created; otherwise a fresh counter holds the seeded count |
| `PageEffects.OnScroll` | script.js:82-91 | the top bar has `scrolled` exactly when `scrollY > 100`, and its other classes are untouched |
| `PageEffects.OnScrollForgetsHistory` | script.js:85-91 | the class list depends only on the latest offset, so repeating a scroll event changes nothing |
| `PageEffects.OnAnchorClick` | script.js:176-195 | the default is suppressed exactly when the href is not `#checkout`; a scroll happens exactly when it is not and the target exists; an invalid selector throws |
| `PageEffects.SetUpFade` | script.js:163-170 | set-up starts observing the section and hides it unless it already has class `visible` |
| `PageEffects.Callback` | script.js:152-161 | one callback walks its whole batch: with an intersecting entry the section ends shown and unobserved, without one it is unchanged |
| `PageEffects.Deliver` | script.js:152-161 | a batch for an observed section with an intersecting entry shows it and stops observing it; any other batch changes nothing |
| `PageEffects.Applications` | script.js:152-161 | the shown style is written at least once exactly when the section was observed and some batch has an intersecting entry |
| `PageEffects.FadingCallbacks` | script.js:152-161 | over any run of batches, exactly one callback applies the fade if the section was observed and some entry intersects, and none otherwise |
| `PageEffects.TwoEntriesApplyTwice` | script.js:153-159 | a batch with two intersecting entries writes the shown style twice, because `unobserve` does not drop entries already in the batch; the final state is still the shown one |
| `PageEffects.FadeInOnce` | script.js:152-161 | after a callback with an intersecting entry the section stays shown and unobserved, whatever batches follow |
| `PageEffects.UnobservedStays` | script.js:158 | a section that is no longer observed never changes again |
| `PageEffects.NoIntersectionNoFade` | script.js:154-159 | while no batch has an intersecting entry, the section keeps its set-up style |

## Left out

- The reply handler (script.js:58-72) is left out. It only sets the button's `fontWeight` to `'700'`, which is cosmetic.
- DOM lookups and event registration are left out: `querySelector`, `getElementById`, `addEventListener`, `DOMContentLoaded` and the body's `loaded` class (script.js:12-27, 81, 84, 143, 176). Their results enter as parameters: `Reaction`, `Lookup`, `hasElement`, `hasVisibleClass`.
- `setTimeout` and real time are left out. `Trajectory` takes one draw record per callback and models the chain of callbacks as a sequence of steps. The delay values are bounded by `Interval`, but nothing waits for them.
- The distribution of `Math.random()` is not modelled. Only its range [0, 1) is stated, so the contracts hold for every draw but make no claim about probabilities.
- `IntersectionObserver` itself is left out. Its 10% threshold (script.js:149) decides when batches of entries are queued, and so does `observe()` at script.js:170. It does not decide `isIntersecting`, which is true for any intersection. Here the batches and each entry's `isIntersecting` are free parameters, so the section may fade in below 10% visibility, as in the browser.
- `scrollIntoView` with smooth easing, the CSS transition and the `innerHTML` markup around the icon are visual effects. The model keeps only the text: icon, space, number.
- LikeButton: holds its count element by value. The handler looks the element up through the DOM on every click (script.js:35-36), so two like buttons under one `.fb-actions` would share one count element. The model assumes one like button per count element and does not capture that aliasing.
- ParseCount: uses unbounded integers. `parseInt` returns a double, which is exact only up to 2^53, so counts beyond that are not modelled.
