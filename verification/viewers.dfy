/** The "viewers online" counter: a number seeded at random in [572, 603] and moved by
    a timer callback, each time by 1 to 3 up or down, then pulled back into range with
    a little jitter. Each `Math.random()` the source calls is a parameter here: a real
    number in [0, 1). */
module Viewers {
  import opened Decimal

  const MinViewers: int := 572
  const MaxViewers: int := 603
  const MinInterval: int := 6000
  const MaxInterval: int := 12000

  /** A value `Math.random()` can return. */
  predicate IsRandom(u: real) {
    0.0 <= u < 1.0
  }

  /** `Math.floor(u * n)` for a random draw `u`: one of 0 .. n - 1. */
  function Pick(u: real, n: nat): (k: int)
    requires IsRandom(u) && n > 0
    ensures 0 <= k < n
  {
    ScaledDrawBelow(u, n as real);
    (u * n as real).Floor
  }

  lemma ScaledDrawBelow(u: real, x: real)
    requires IsRandom(u) && x > 0.0
    ensures 0.0 <= u * x < x
  {
    assert (1.0 - u) * x > 0.0;
  }

  /** The initial count: `Math.floor(Math.random() * (max - min + 1)) + min`. */
  function SeedViewers(u: real): (v: int)
    requires IsRandom(u)
    ensures MinViewers <= v <= MaxViewers
  {
    Pick(u, MaxViewers - MinViewers + 1) + MinViewers
  }

  /** The delay before the next callback, in milliseconds. */
  function Interval(u: real): (ms: int)
    requires IsRandom(u)
    ensures MinInterval <= ms <= MaxInterval
  {
    Pick(u, MaxInterval - MinInterval + 1) + MinInterval
  }

  /** The draws of one callback, in the order the source makes them: the magnitude,
      the direction, and the jitter of the low and of the high clamp (each of the last
      two drawn only when its clamp fires). */
  datatype Draws = Draws(magnitude: real, direction: real, lowJitter: real, highJitter: real)

  predicate ValidDraws(d: Draws) {
    IsRandom(d.magnitude) && IsRandom(d.direction) && IsRandom(d.lowJitter) && IsRandom(d.highJitter)
  }

  /** `Math.floor(Math.random() * 3) + 1`. */
  function Change(d: Draws): (c: int)
    requires IsRandom(d.magnitude)
    ensures 1 <= c <= 3
  {
    Pick(d.magnitude, 3) + 1
  }

  /** `Math.random() > 0.5 ? 1 : -1`. */
  function Direction(d: Draws): (s: int)
    ensures s == 1 || s == -1
  {
    if d.direction > 0.5 then 1 else -1
  }

  /** The two clamps, applied one after the other as the source writes them. The high
      clamp tests the value the low clamp left, and a raised value is at most
      `MinViewers + 2`, far below `MaxViewers`: the two never both fire. */
  function Clamp(next: int, lowJitter: int, highJitter: int): (r: int)
    requires 0 <= lowJitter < 3 && 0 <= highJitter < 3
    ensures MinViewers <= r <= MaxViewers
    ensures next < MinViewers ==> r == MinViewers + lowJitter
    ensures next > MaxViewers ==> r == MaxViewers - highJitter
    ensures MinViewers <= next <= MaxViewers ==> r == next
  {
    var raised := if next < MinViewers then MinViewers + lowJitter else next;
    if raised > MaxViewers then MaxViewers - highJitter else raised
  }

  /** The count one callback moves `current` to. */
  function NextViewers(current: int, d: Draws): (r: int)
    requires ValidDraws(d)
    ensures MinViewers <= r <= MaxViewers
    ensures current + Direction(d) * Change(d) < MinViewers ==> MinViewers <= r <= MinViewers + 2
    ensures current + Direction(d) * Change(d) > MaxViewers ==> MaxViewers - 2 <= r <= MaxViewers
    ensures MinViewers <= current + Direction(d) * Change(d) <= MaxViewers ==>
              if Direction(d) == 1 then current + 1 <= r <= current + 3
              else current - 3 <= r <= current - 1
  {
    Clamp(current + Direction(d) * Change(d), Pick(d.lowJitter, 3), Pick(d.highJitter, 3))
  }

  /** The counts successive callbacks show, one per element of `draws`. */
  function Trajectory(start: int, draws: seq<Draws>): (vs: seq<int>)
    requires forall i :: 0 <= i < |draws| ==> ValidDraws(draws[i])
    ensures |vs| == |draws|
    ensures forall i :: 0 <= i < |vs| ==> MinViewers <= vs[i] <= MaxViewers
    ensures forall i :: 0 < i < |vs| ==> -3 <= vs[i] - vs[i - 1] <= 3
    decreases |draws|
  {
    if draws == [] then []
    else
      var next := NextViewers(start, draws[0]);
      [next] + Trajectory(next, draws[1..])
  }

  /** The text written into the counter element. */
  function Caption(n: int): (text: string)
  {
    IntToString(n) + " viewers currently inside this private presentation"
  }

  /** The caption of any count in range begins with the count's three digits. */
  lemma CaptionShowsCount(n: int)
    requires MinViewers <= n <= MaxViewers
    ensures |Caption(n)| > 3 && Caption(n)[..3] == NatToString(n)
    ensures DigitsValue(Caption(n)[..3]) == n
  {
    assert NatToString(n) == NatToString(n / 10) + [DigitChar(n % 10)];
    assert NatToString(n / 10) == NatToString(n / 100) + [DigitChar(n / 10 % 10)];
    ValueOfNatToString(n);
  }

  /** The counter element and the closure variable `currentViewers` behind it. */
  class ViewerCounter {
    var current: int
    var text: string

    /** The count is in range and the element shows it. */
    ghost predicate Valid()
      reads this
    {
      MinViewers <= current <= MaxViewers && text == Caption(current)
    }

    /** The seeding and the first `updateDisplay()`. */
    constructor (seed: real)
      requires IsRandom(seed)
      ensures Valid() && current == SeedViewers(seed)
    {
      var seeded := SeedViewers(seed);
      current := seeded;
      text := Caption(seeded);
    }

    /** One timer callback: step, clamp, store and redisplay. */
    method Tick(d: Draws)
      requires Valid() && ValidDraws(d)
      modifies this
      ensures Valid()
      ensures current == NextViewers(old(current), d)
    {
      var change := Change(d);
      var direction := Direction(d);
      var nextValue := current + direction * change;
      if nextValue < MinViewers {
        nextValue := MinViewers + Pick(d.lowJitter, 3);
      }
      if nextValue > MaxViewers {
        nextValue := MaxViewers - Pick(d.highJitter, 3);
      }
      current := nextValue;
      text := Caption(current);
    }
  }

  /** `initViewerCounter`: nothing happens when the page has no counter element. */
  method InitViewerCounter(hasElement: bool, seed: real) returns (counter: ViewerCounter?)
    requires IsRandom(seed)
    ensures (counter != null) == hasElement
    ensures counter != null ==> fresh(counter) && counter.Valid() && counter.current == SeedViewers(seed)
  {
    if !hasElement {
      return null;
    }
    counter := new ViewerCounter(seed);
  }
}
