/** The debounced push button. */
module Debounce {
  import opened Clock

  datatype ButtonState = ButtonState(lastRaw: bool, changedAt: Millis, stable: bool, previousStable: bool)
  {
    predicate WasPressed() { stable && !previousStable }

    predicate WasReleased() { !stable && previousStable }
  }

  const RELEASED := ButtonState(false, 0, false, false)

  /** One update: the raw level, and the clock as read when a raw change is
      noted and again when the debounce time is checked. */
  function Updated(b: ButtonState, debounce: Millis, raw: bool, noted: Millis, checked: Millis): ButtonState
  {
    var changedAt := if raw != b.lastRaw then noted else b.changedAt;
    ButtonState(raw, changedAt, if Since(checked, changedAt) >= debounce then raw else b.stable, b.stable)
  }

  class Button {
    const debounceMilliseconds: Millis
    var lastRawReading: bool
    var lastRawTransitionTime: Millis
    var stableReading: bool
    var previousStableReading: bool

    function State(): ButtonState
      reads this
    {
      ButtonState(lastRawReading, lastRawTransitionTime, stableReading, previousStableReading)
    }

    constructor (debounce: Millis)
      ensures debounceMilliseconds == debounce && State() == RELEASED
    {
      debounceMilliseconds := debounce;
      lastRawReading, lastRawTransitionTime := false, 0;
      stableReading, previousStableReading := false, false;
    }

    method Update(raw: bool, noted: Millis, checked: Millis)
      modifies this
      ensures State() == Updated(old(State()), debounceMilliseconds, raw, noted, checked)
    {
      if raw != lastRawReading {
        lastRawReading := raw;
        lastRawTransitionTime := noted;
      }
      previousStableReading := stableReading;
      if Since(checked, lastRawTransitionTime) >= debounceMilliseconds {
        stableReading := raw;
      }
    }

    method WasPressed() returns (r: bool)
      ensures r == State().WasPressed()
    {
      r := stableReading && !previousStableReading;
    }

    method WasReleased() returns (r: bool)
      ensures r == State().WasReleased()
    {
      r := !stableReading && previousStableReading;
    }
  }

  // ------------------------------------------------------------------- runs

  /** A sample of the input, with the real times of the two clock readings. */
  datatype Sample = Sample(raw: bool, noted: nat, checked: nat)

  type History = seq<Sample>

  ghost predicate Chronological(h: History)
  {
    && (forall i :: 0 <= i < |h| ==> h[i].noted <= h[i].checked)
    && (forall i, j :: 0 <= i < j < |h| ==> h[i].checked <= h[j].noted)
  }

  function Run(h: History, debounce: Millis): ButtonState
  {
    if h == [] then RELEASED
    else
      var last := h[|h| - 1];
      Updated(Run(h[..|h| - 1], debounce), debounce, last.raw, Reading(last.noted), Reading(last.checked))
  }

  /** The raw level before sample i. */
  function RawBefore(h: History, i: nat): bool
    requires i <= |h|
  {
    i > 0 && h[i - 1].raw
  }

  /** The raw level changed at sample j and has been the same ever since. */
  ghost predicate LastChange(h: History, j: nat)
  {
    && j < |h|
    && h[j].raw != RawBefore(h, j)
    && forall i :: j <= i < |h| ==> h[i].raw == h[j].raw
  }

  ghost predicate NoChange(h: History)
  {
    forall i :: 0 <= i < |h| ==> !h[i].raw
  }

  /** The button's note of the last raw change is the last raw change. */
  lemma {:induction false} ChangeNoted(h: History, debounce: Millis)
    ensures Run(h, debounce).lastRaw == RawBefore(h, |h|)
    ensures NoChange(h) ==> !Run(h, debounce).stable
    ensures forall j: nat :: LastChange(h, j) ==> Run(h, debounce).changedAt == Reading(h[j].noted)
  {
    if h != [] {
      var n := |h| - 1;
      ChangeNoted(h[..n], debounce);
      forall j: nat | LastChange(h, j)
        ensures Run(h, debounce).changedAt == Reading(h[j].noted)
      {
        if j < n { assert LastChange(h[..n], j); }
      }
    }
  }

  lemma {:induction false} SomeLastChange(h: History)
    ensures NoChange(h) || exists j: nat :: LastChange(h, j)
  {
    if h != [] {
      var n := |h| - 1;
      SomeLastChange(h[..n]);
      if h[n].raw != RawBefore(h, n) {
        assert LastChange(h, n);
      } else if !NoChange(h[..n]) {
        var j: nat :| LastChange(h[..n], j);
        assert LastChange(h, j);
      }
    }
  }

  /** When the stable reading flips, every sample since the last raw change had
      the new value, and the debounce time has really passed, even if the
      clock wrapped around in between. */
  lemma FlipIsDebounced(h: History, debounce: Millis) returns (j: nat)
    requires h != [] && Chronological(h)
    requires Run(h, debounce).stable != Run(h[..|h| - 1], debounce).stable
    ensures LastChange(h, j) && h[j].raw == Run(h, debounce).stable
    ensures h[|h| - 1].checked - h[j].noted >= debounce
  {
    var n := |h| - 1;
    ChangeNoted(h, debounce);
    SomeLastChange(h);
    if NoChange(h) {
      ChangeNoted(h[..n], debounce);
      assert false;
    } else {
      j :| LastChange(h, j);
      SinceIsElapsed(h[j].noted, h[n].checked);
    }
  }

  /** Conversely, once the level has been steady for the debounce time (and
      less than a clock period), it is the stable reading. */
  lemma SteadyIsStable(h: History, debounce: Millis, j: nat)
    requires Chronological(h) && LastChange(h, j)
    requires debounce <= h[|h| - 1].checked - h[j].noted < PERIOD
    ensures Run(h, debounce).stable == h[j].raw
  {
    ChangeNoted(h, debounce);
    SinceExact(h[j].noted, h[|h| - 1].checked);
  }

  /** In particular, a steady high level presses a button that was released. */
  lemma SteadyIsPress(h: History, debounce: Millis, j: nat)
    requires Chronological(h) && LastChange(h, j) && h[j].raw
    requires debounce <= h[|h| - 1].checked - h[j].noted < PERIOD
    requires !Run(h[..|h| - 1], debounce).stable
    ensures Run(h, debounce).WasPressed()
  {
    SteadyIsStable(h, debounce, j);
  }

  /** The level is v, and has been as the clock tells it for the debounce time. */
  ghost predicate HeldAt(h: History, debounce: Millis, v: bool)
    requires h != []
  {
    exists j: nat :: LastChange(h, j) && h[j].raw == v && (h[|h| - 1].checked - h[j].noted) % PERIOD >= debounce
  }

  /** A press is reported by exactly those updates that find a released button
      held, a release by those that find a pressed button let go; every other
      bounce goes unreported. */
  lemma ReportedIffHeld(h: History, debounce: Millis)
    requires h != [] && Chronological(h)
    ensures Run(h, debounce).WasPressed() <==> !Run(h[..|h| - 1], debounce).stable && HeldAt(h, debounce, true)
    ensures Run(h, debounce).WasReleased() <==> Run(h[..|h| - 1], debounce).stable && HeldAt(h, debounce, false)
  {
    ChangeNoted(h, debounce);
    SomeLastChange(h);
    if NoChange(h) {
      ChangeNoted(h[..|h| - 1], debounce);
    } else {
      var j: nat :| LastChange(h, j);
      StableSince(h, debounce, j);
      HeldSinceLastChange(h, debounce, true, j);
      HeldSinceLastChange(h, debounce, false, j);
    }
  }

  lemma StableSince(h: History, debounce: Millis, j: nat)
    requires h != [] && Chronological(h) && LastChange(h, j)
    ensures var b, before := Run(h, debounce), Run(h[..|h| - 1], debounce).stable;
            && b.previousStable == before
            && b.stable == if (h[|h| - 1].checked - h[j].noted) % PERIOD >= debounce then h[j].raw else before
  {
    ChangeNoted(h, debounce);
    SinceIsElapsed(h[j].noted, h[|h| - 1].checked);
  }

  lemma HeldSinceLastChange(h: History, debounce: Millis, v: bool, j: nat)
    requires h != [] && LastChange(h, j)
    ensures HeldAt(h, debounce, v) <==> h[j].raw == v && (h[|h| - 1].checked - h[j].noted) % PERIOD >= debounce
  {
    forall i: nat | LastChange(h, i) ensures i == j { OneLastChange(h, i, j); }
  }

  lemma OneLastChange(h: History, i: nat, j: nat)
    requires LastChange(h, i) && LastChange(h, j)
    ensures i == j
  {}

  datatype Event = Press | Release

  /** What wasPressed and wasReleased report, update by update. */
  function Events(h: History, debounce: Millis): seq<Event>
  {
    if h == [] then []
    else
      var b := Run(h, debounce);
      Events(h[..|h| - 1], debounce)
      + (if b.WasPressed() then [Press] else []) + (if b.WasReleased() then [Release] else [])
  }

  /** Presses and releases alternate, beginning with a press. */
  lemma {:induction false} EventsAlternate(h: History, debounce: Millis)
    ensures forall i :: 0 <= i < |Events(h, debounce)| ==> (Events(h, debounce)[i] == Press <==> i % 2 == 0)
    ensures Run(h, debounce).stable <==> |Events(h, debounce)| % 2 == 1
  {
    if h != [] {
      EventsAlternate(h[..|h| - 1], debounce);
    }
  }
}
