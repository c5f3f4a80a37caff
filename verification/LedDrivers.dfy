/** The two red/green LED drivers, one for a shared pin and one for two pins,
    kept in step by hand; and the turnout indicator that drives a pair. */
module LedDrivers {
  import opened Clock
  import opened Turnouts

  const IDENTIFY_INTERVAL_MS: Millis := 150

  datatype Colour = Green | Red

  datatype Mode = ShowGreen | ShowRed | Blink

  function Opposite(c: Colour): Colour { if c == Green then Red else Green }

  /** What both drivers remember, and the colours they have written so far; the
      last of those is what the pair shows. */
  datatype Pair = Pair(
    greenRequested: bool, redRequested: bool,
    mode: Mode, lastDisplayed: Colour, blinkShowingLast: bool, lastToggle: Millis,
    identifying: bool, identifyShowingGreen: bool, identifyLastToggle: Millis,
    written: seq<Colour>)
  {
    function ColourToShow(): Colour
    {
      match mode
      case ShowGreen => Green
      case ShowRed => Red
      case Blink => if blinkShowingLast then lastDisplayed else Opposite(lastDisplayed)
    }

    function Write(c: Colour): Pair { this.(written := written + [c]) }

    function Shown(): Colour
      requires written != []
    {
      written[|written| - 1]
    }

    function Begun(now: Millis): Pair { this.(lastToggle := now).Write(ColourToShow()) }

    function StateApplied(now: Millis): Pair
    {
      if greenRequested && redRequested then this
      else
        var next := if greenRequested then ShowGreen else if redRequested then ShowRed else Blink;
        if next == mode then this
        else match next
          case ShowGreen => this.(mode := ShowGreen, lastDisplayed := Green).Write(Green)
          case ShowRed => this.(mode := ShowRed, lastDisplayed := Red).Write(Red)
          case Blink => this.(mode := Blink, blinkShowingLast := true, lastToggle := now).Write(lastDisplayed)
    }

    function GreenSet(active: bool, now: Millis): Pair { this.(greenRequested := active).StateApplied(now) }

    function RedSet(active: bool, now: Millis): Pair { this.(redRequested := active).StateApplied(now) }

    function IdentifyingSet(active: bool, now: Millis): Pair
    {
      if active == identifying then this
      else if active then
        this.(identifying := true, identifyShowingGreen := true, identifyLastToggle := now).Write(Green)
      else this.(identifying := false).Write(ColourToShow())
    }

    function Updated(interval: Millis, now: Millis): Pair
    {
      if identifying then
        if Since(now, identifyLastToggle) >= IDENTIFY_INTERVAL_MS
        then this.(identifyShowingGreen := !identifyShowingGreen, identifyLastToggle := now)
                 .Write(if identifyShowingGreen then Red else Green)
        else this
      else if mode != Blink || Since(now, lastToggle) < interval then this
      else
        this.(blinkShowingLast := !blinkShowingLast, lastToggle := now)
            .Write(if blinkShowingLast then Opposite(lastDisplayed) else lastDisplayed)
    }
  }

  function Constructed(colour: Colour, now: Millis): Pair
  {
    Pair(false, false, Blink, colour, true, now, false, true, 0, [colour])
  }

  // ------------------------------------------------------------- the drivers

  class LedPairDriver {
    const blinkIntervalMs: Millis
    var gpio: bool            // the shared pin: high is green
    var lastDisplayedColour: Colour
    var greenRequested: bool
    var redRequested: bool
    var currentMode: Mode
    var blinkShowingLastColour: bool
    var lastToggleTime: Millis
    var identifying: bool
    var identifyShowingGreen: bool
    var identifyLastToggleMs: Millis
    ghost var written: seq<Colour>

    ghost function State(): Pair
      reads this
    {
      Pair(greenRequested, redRequested, currentMode, lastDisplayedColour, blinkShowingLastColour, lastToggleTime,
           identifying, identifyShowingGreen, identifyLastToggleMs, written)
    }

    /** The pin shows the colour written last. */
    ghost predicate Valid()
      reads this
    {
      written != [] && gpio == (State().Shown() == Green)
    }

    constructor (blinkInterval: Millis, defaultColour: Colour, now: Millis)
      ensures Valid() && State() == Constructed(defaultColour, now) && blinkIntervalMs == blinkInterval
    {
      blinkIntervalMs := blinkInterval;
      lastDisplayedColour := defaultColour;
      greenRequested, redRequested := false, false;
      currentMode, blinkShowingLastColour, lastToggleTime := Blink, true, now;
      identifying, identifyShowingGreen, identifyLastToggleMs := false, true, 0;
      gpio := defaultColour == Green;
      written := [defaultColour];
    }

    method Begin(now: Millis)
      requires Valid()
      modifies this
      ensures Valid() && State() == old(State()).Begun(now)
    {
      lastToggleTime := now;
      var colour := CurrentColourToShow();
      WriteColour(colour);
    }

    method SetGreen(active: bool, now: Millis)
      requires Valid()
      modifies this
      ensures Valid() && State() == old(State()).GreenSet(active, now)
    {
      greenRequested := active;
      ApplyState(now);
    }

    method SetRed(active: bool, now: Millis)
      requires Valid()
      modifies this
      ensures Valid() && State() == old(State()).RedSet(active, now)
    {
      redRequested := active;
      ApplyState(now);
    }

    method SetIdentifying(active: bool, now: Millis)
      requires Valid()
      modifies this
      ensures Valid() && State() == old(State()).IdentifyingSet(active, now)
    {
      if active == identifying { return; }
      identifying := active;
      if identifying {
        identifyShowingGreen := true;
        identifyLastToggleMs := now;
        WriteColour(Green);
      } else {
        var colour := CurrentColourToShow();
        WriteColour(colour);
      }
    }

    method ApplyState(now: Millis)
      requires Valid()
      modifies this
      ensures Valid() && State() == old(State()).StateApplied(now)
    {
      var nextMode;
      if greenRequested && !redRequested {
        nextMode := ShowGreen;
      } else if redRequested && !greenRequested {
        nextMode := ShowRed;
      } else if !greenRequested && !redRequested {
        nextMode := Blink;
      } else {
        return;
      }
      if nextMode == currentMode { return; }
      currentMode := nextMode;
      if nextMode == ShowGreen {
        lastDisplayedColour := Green;
        WriteColour(Green);
      } else if nextMode == ShowRed {
        lastDisplayedColour := Red;
        WriteColour(Red);
      } else {
        blinkShowingLastColour := true;
        lastToggleTime := now;
        WriteColour(lastDisplayedColour);
      }
    }

    method WriteColour(colour: Colour)
      modifies this`gpio, this`written
      ensures Valid() && written == old(written) + [colour]
    {
      gpio := colour == Green;
      written := written + [colour];
    }

    method CurrentColourToShow() returns (colour: Colour)
      ensures colour == State().ColourToShow()
    {
      if currentMode == ShowGreen { return Green; }
      if currentMode == ShowRed { return Red; }
      var opposite := if lastDisplayedColour == Green then Red else Green;
      return if blinkShowingLastColour then lastDisplayedColour else opposite;
    }

    method Update(now: Millis)
      requires Valid()
      modifies this
      ensures Valid() && State() == old(State()).Updated(blinkIntervalMs, now)
    {
      if identifying {
        if Since(now, identifyLastToggleMs) >= IDENTIFY_INTERVAL_MS {
          identifyShowingGreen := !identifyShowingGreen;
          identifyLastToggleMs := now;
          WriteColour(if identifyShowingGreen then Green else Red);
        }
        return;
      }
      if currentMode != Blink { return; }
      if Since(now, lastToggleTime) < blinkIntervalMs { return; }
      blinkShowingLastColour := !blinkShowingLastColour;
      lastToggleTime := now;
      var opposite := if lastDisplayedColour == Green then Red else Green;
      WriteColour(if blinkShowingLastColour then lastDisplayedColour else opposite);
    }
  }

  class IndependentLedPairDriver {
    const blinkIntervalMs: Millis
    var greenGpio: bool
    var redGpio: bool
    var lastDisplayedColour: Colour
    var greenRequested: bool
    var redRequested: bool
    var currentMode: Mode
    var blinkShowingLastColour: bool
    var lastToggleTime: Millis
    var identifying: bool
    var identifyShowingGreen: bool
    var identifyLastToggleMs: Millis
    ghost var written: seq<Colour>

    ghost function State(): Pair
      reads this
    {
      Pair(greenRequested, redRequested, currentMode, lastDisplayedColour, blinkShowingLastColour, lastToggleTime,
           identifying, identifyShowingGreen, identifyLastToggleMs, written)
    }

    /** Exactly one pin is high, that of the colour written last. */
    ghost predicate Valid()
      reads this
    {
      written != [] && greenGpio == (State().Shown() == Green) && redGpio == !greenGpio
    }

    constructor (blinkInterval: Millis, defaultColour: Colour, now: Millis)
      ensures Valid() && State() == Constructed(defaultColour, now) && blinkIntervalMs == blinkInterval
    {
      blinkIntervalMs := blinkInterval;
      lastDisplayedColour := defaultColour;
      greenRequested, redRequested := false, false;
      currentMode, blinkShowingLastColour, lastToggleTime := Blink, true, now;
      identifying, identifyShowingGreen, identifyLastToggleMs := false, true, 0;
      greenGpio, redGpio := defaultColour == Green, defaultColour == Red;
      written := [defaultColour];
    }

    method Begin(now: Millis)
      requires Valid()
      modifies this
      ensures Valid() && State() == old(State()).Begun(now)
    {
      lastToggleTime := now;
      var colour := CurrentColourToShow();
      WriteColour(colour);
    }

    method SetGreen(active: bool, now: Millis)
      requires Valid()
      modifies this
      ensures Valid() && State() == old(State()).GreenSet(active, now)
    {
      greenRequested := active;
      ApplyState(now);
    }

    method SetRed(active: bool, now: Millis)
      requires Valid()
      modifies this
      ensures Valid() && State() == old(State()).RedSet(active, now)
    {
      redRequested := active;
      ApplyState(now);
    }

    method SetIdentifying(active: bool, now: Millis)
      requires Valid()
      modifies this
      ensures Valid() && State() == old(State()).IdentifyingSet(active, now)
    {
      if active == identifying { return; }
      identifying := active;
      if identifying {
        identifyShowingGreen := true;
        identifyLastToggleMs := now;
        WriteColour(Green);
      } else {
        var colour := CurrentColourToShow();
        WriteColour(colour);
      }
    }

    method ApplyState(now: Millis)
      requires Valid()
      modifies this
      ensures Valid() && State() == old(State()).StateApplied(now)
    {
      var nextMode;
      if greenRequested && !redRequested {
        nextMode := ShowGreen;
      } else if redRequested && !greenRequested {
        nextMode := ShowRed;
      } else if !greenRequested && !redRequested {
        nextMode := Blink;
      } else {
        return;
      }
      if nextMode == currentMode { return; }
      currentMode := nextMode;
      if nextMode == ShowGreen {
        lastDisplayedColour := Green;
        WriteColour(Green);
      } else if nextMode == ShowRed {
        lastDisplayedColour := Red;
        WriteColour(Red);
      } else {
        blinkShowingLastColour := true;
        lastToggleTime := now;
        WriteColour(lastDisplayedColour);
      }
    }

    method WriteColour(colour: Colour)
      modifies this`greenGpio, this`redGpio, this`written
      ensures Valid() && written == old(written) + [colour]
    {
      greenGpio := colour == Green;
      redGpio := colour == Red;
      written := written + [colour];
    }

    method CurrentColourToShow() returns (colour: Colour)
      ensures colour == State().ColourToShow()
    {
      if currentMode == ShowGreen { return Green; }
      if currentMode == ShowRed { return Red; }
      var opposite := if lastDisplayedColour == Green then Red else Green;
      return if blinkShowingLastColour then lastDisplayedColour else opposite;
    }

    method Update(now: Millis)
      requires Valid()
      modifies this
      ensures Valid() && State() == old(State()).Updated(blinkIntervalMs, now)
    {
      if identifying {
        if Since(now, identifyLastToggleMs) >= IDENTIFY_INTERVAL_MS {
          identifyShowingGreen := !identifyShowingGreen;
          identifyLastToggleMs := now;
          WriteColour(if identifyShowingGreen then Green else Red);
        }
        return;
      }
      if currentMode != Blink { return; }
      if Since(now, lastToggleTime) < blinkIntervalMs { return; }
      blinkShowingLastColour := !blinkShowingLastColour;
      lastToggleTime := now;
      var opposite := if lastDisplayedColour == Green then Red else Green;
      WriteColour(if blinkShowingLastColour then lastDisplayedColour else opposite);
    }
  }

  // ------------------------------------------------------- runs of a driver

  /** A call on a driver, with the reading of the clock it gets to see. */
  datatype Call =
    | CallBegin(now: Millis)
    | CallSetGreen(active: bool, now: Millis)
    | CallSetRed(active: bool, now: Millis)
    | CallSetIdentifying(active: bool, now: Millis)
    | CallUpdate(now: Millis)

  function Called(p: Pair, interval: Millis, c: Call): Pair
  {
    match c
    case CallBegin(now) => p.Begun(now)
    case CallSetGreen(active, now) => p.GreenSet(active, now)
    case CallSetRed(active, now) => p.RedSet(active, now)
    case CallSetIdentifying(active, now) => p.IdentifyingSet(active, now)
    case CallUpdate(now) => p.Updated(interval, now)
  }

  function Run(p: Pair, interval: Millis, calls: seq<Call>): Pair
    decreases |calls|
  {
    if calls == [] then p else Called(Run(p, interval, calls[..|calls| - 1]), interval, calls[|calls| - 1])
  }

  method CallBoth(a: LedPairDriver, b: IndependentLedPairDriver, c: Call)
    requires a.Valid() && b.Valid()
    modifies a, b
    ensures a.Valid() && a.State() == Called(old(a.State()), a.blinkIntervalMs, c)
    ensures b.Valid() && b.State() == Called(old(b.State()), b.blinkIntervalMs, c)
  {
    match c {
      case CallBegin(now) => a.Begin(now); b.Begin(now);
      case CallSetGreen(active, now) => a.SetGreen(active, now); b.SetGreen(active, now);
      case CallSetRed(active, now) => a.SetRed(active, now); b.SetRed(active, now);
      case CallSetIdentifying(active, now) => a.SetIdentifying(active, now); b.SetIdentifying(active, now);
      case CallUpdate(now) => a.Update(now); b.Update(now);
    }
  }

  /** The colours shown after 0, 1, 2, ... calls. */
  function ShownDuring(colour: Colour, start: Millis, interval: Millis, calls: seq<Call>): (r: seq<Colour>)
    ensures |r| == |calls| + 1
    decreases |calls|
  {
    RunKeepsWriting(Constructed(colour, start), interval, calls);
    var shown := Run(Constructed(colour, start), interval, calls).Shown();
    if calls == [] then [shown] else ShownDuring(colour, start, interval, calls[..|calls| - 1]) + [shown]
  }

  lemma {:induction false} RunKeepsWriting(p: Pair, interval: Millis, calls: seq<Call>)
    requires p.written != []
    ensures Run(p, interval, calls).written != []
    decreases |calls|
  {
    if calls != [] {
      var n := |calls| - 1;
      RunKeepsWriting(p, interval, calls[..n]);
      CallKeepsWriting(Run(p, interval, calls[..n]), interval, calls[n]);
    }
  }

  lemma CallKeepsWriting(p: Pair, interval: Millis, c: Call)
    ensures p.written <= Called(p, interval, c).written
  {
    match c {
      case CallSetGreen(active, now) => StateKeepsWriting(p.(greenRequested := active), now);
      case CallSetRed(active, now) => StateKeepsWriting(p.(redRequested := active), now);
      case _ =>
    }
  }

  lemma StateKeepsWriting(p: Pair, now: Millis)
    ensures p.written <= p.StateApplied(now).written
  {}

  /** The pins have shown these colours: the green pin like the shared pin, the
      red pin its complement. */
  ghost predicate PinsShow(shared: seq<bool>, green: seq<bool>, red: seq<bool>, colours: seq<Colour>)
  {
    && |shared| == |green| == |red| == |colours|
    && forall i :: 0 <= i < |colours| ==>
         (shared[i] <==> colours[i] == Green) && green[i] == shared[i] && red[i] == !shared[i]
  }

  lemma PinsShowOneMore(shared: seq<bool>, green: seq<bool>, red: seq<bool>, colours: seq<Colour>, c: Colour)
    requires PinsShow(shared, green, red, colours)
    ensures PinsShow(shared + [c == Green], green + [c == Green], red + [c != Green], colours + [c])
  {}

  lemma ShownOneMore(colour: Colour, start: Millis, interval: Millis, calls: seq<Call>, c: Call)
    ensures var p := Run(Constructed(colour, start), interval, calls + [c]);
            && p == Called(Run(Constructed(colour, start), interval, calls), interval, c) && p.written != []
            && ShownDuring(colour, start, interval, calls + [c])
               == ShownDuring(colour, start, interval, calls) + [p.Shown()]
  {
    assert (calls + [c])[..|calls|] == calls;
    RunKeepsWriting(Constructed(colour, start), interval, calls + [c]);
  }

  /** Both drivers through the same calls: after every one of them the green pin
      agrees with the shared pin, and the red pin is its complement. */
  method Lockstep(interval: Millis, colour: Colour, start: Millis, calls: seq<Call>)
    returns (shared: seq<bool>, green: seq<bool>, red: seq<bool>)
    ensures |shared| == |green| == |red| == |calls| + 1
    ensures forall i :: 0 <= i <= |calls| ==> green[i] == shared[i] && red[i] == !shared[i]
    ensures forall i :: 0 <= i <= |calls| ==> (shared[i] <==> ShownDuring(colour, start, interval, calls)[i] == Green)
  {
    var a := new LedPairDriver(interval, colour, start);
    var b := new IndependentLedPairDriver(interval, colour, start);
    shared, green, red := [a.gpio], [b.greenGpio], [b.redGpio];
    for i := 0 to |calls|
      invariant a.Valid() && b.Valid() && a.blinkIntervalMs == b.blinkIntervalMs == interval
      invariant a.State() == b.State() == Run(Constructed(colour, start), interval, calls[..i])
      invariant PinsShow(shared, green, red, ShownDuring(colour, start, interval, calls[..i]))
    {
      assert calls[..i + 1] == calls[..i] + [calls[i]];
      ShownOneMore(colour, start, interval, calls[..i], calls[i]);
      PinsShowOneMore(shared, green, red, ShownDuring(colour, start, interval, calls[..i]),
                      Run(Constructed(colour, start), interval, calls[..i + 1]).Shown());
      CallBoth(a, b, calls[i]);
      shared, green, red := shared + [a.gpio], green + [b.greenGpio], red + [b.redGpio];
    }
    assert calls[..|calls|] == calls;
  }

  /** What holds of a pair after any calls from construction on. */
  ghost predicate Consistent(p: Pair)
  {
    && p.written != []
    && (p.mode == Blink <==> !p.greenRequested && !p.redRequested)
    && (p.mode == ShowGreen ==> p.greenRequested && p.lastDisplayed == Green)
    && (p.mode == ShowRed ==> p.redRequested && p.lastDisplayed == Red)
    && (!p.identifying ==> p.Shown() == p.ColourToShow())
  }

  lemma {:induction false} RunKeepsConsistent(p: Pair, interval: Millis, calls: seq<Call>)
    requires Consistent(p)
    ensures Consistent(Run(p, interval, calls))
    decreases |calls|
  {
    if calls != [] {
      var n := |calls| - 1;
      RunKeepsConsistent(p, interval, calls[..n]);
      CallKeepsConsistent(Run(p, interval, calls[..n]), interval, calls[n]);
    }
  }

  /** In every run, whenever the pair is not identifying itself, it shows what
      its mode calls for. */
  lemma AlwaysConsistent(colour: Colour, start: Millis, interval: Millis, calls: seq<Call>)
    ensures Consistent(Run(Constructed(colour, start), interval, calls))
  {
    RunKeepsConsistent(Constructed(colour, start), interval, calls);
  }

  lemma CallKeepsConsistent(p: Pair, interval: Millis, c: Call)
    requires Consistent(p)
    ensures Consistent(Called(p, interval, c))
  {
    match c {
      case CallBegin(now) =>
      case CallSetGreen(active, now) => RequestKeepsConsistent(p, active, p.redRequested, now);
      case CallSetRed(active, now) => RequestKeepsConsistent(p, p.greenRequested, active, now);
      case CallSetIdentifying(active, now) =>
      case CallUpdate(now) =>
    }
  }

  /** One request changes at a time, so a pair never stops blinking into "both". */
  lemma RequestKeepsConsistent(p: Pair, green: bool, red: bool, now: Millis)
    requires Consistent(p) && (green == p.greenRequested || red == p.redRequested)
    ensures Consistent(p.(greenRequested := green, redRequested := red).StateApplied(now))
  {}

  /** What two requests lead to: a single one shows its colour, none blinks from
      now on, beginning with the colour shown last, and both at once change
      nothing. A colour is written exactly when the mode changes. */
  lemma RequestsDecide(p: Pair, now: Millis)
    ensures var q := p.StateApplied(now);
            && (p.greenRequested && p.redRequested ==> q == p)
            && (p.greenRequested && !p.redRequested ==>
                  q.mode == ShowGreen && (p.mode != ShowGreen ==> q.lastDisplayed == Green))
            && (p.redRequested && !p.greenRequested ==>
                  q.mode == ShowRed && (p.mode != ShowRed ==> q.lastDisplayed == Red))
            && (!p.greenRequested && !p.redRequested ==> q.mode == Blink)
            && (q.mode == p.mode ==> q == p)
            && (q.mode != p.mode ==>
                  && q.written == p.written + [q.lastDisplayed]
                  && (q.mode == Blink ==>
                        q.blinkShowingLast && q.lastToggle == now && q.lastDisplayed == p.lastDisplayed))
  {}

  /** An identify episode begins with green, whatever was shown. */
  lemma IdentifyBeginsGreen(p: Pair, now: Millis)
    requires !p.identifying
    ensures var q := p.IdentifyingSet(true, now);
            && q.identifying && q.written == p.written + [Green] && q.identifyLastToggle == now
            && q.identifyShowingGreen
  {}

  // ----------------------------------------------------------- toggle times

  /** Real times of the updates that toggle, when a toggle is due once the interval
      has passed, as the clock tells it, since the one before or the start. */
  function ToggleTimes(times: seq<nat>, interval: Millis, start: nat): (toggles: seq<nat>)
    decreases |times|
  {
    if times == [] then []
    else
      OneMoreTime(ToggleTimes(times[..|times| - 1], interval, start), interval, start, times[|times| - 1])
  }

  function LastOf(toggles: seq<nat>, start: nat): nat { if toggles == [] then start else toggles[|toggles| - 1] }

  ghost predicate Ascending(times: seq<nat>, start: nat)
  {
    (forall i :: 0 <= i < |times| ==> start <= times[i]) && forall i, j :: 0 <= i < j < |times| ==> times[i] <= times[j]
  }

  lemma {:induction false} LastIsPast(times: seq<nat>, interval: Millis, start: nat, now: nat)
    requires Ascending(times, start) && start <= now && forall i :: 0 <= i < |times| ==> times[i] <= now
    ensures LastOf(ToggleTimes(times, interval, start), start) <= now
    decreases |times|
  {
    if times != [] { LastIsPast(times[..|times| - 1], interval, start, now); }
  }

  function ReadingsOf(times: seq<nat>): (r: seq<Millis>)
    ensures |r| == |times| && forall i :: 0 <= i < |r| ==> r[i] == Reading(times[i])
  {
    seq(|times|, i requires 0 <= i < |times| => Reading(times[i]))
  }

  lemma UpdatesOneMore(times: seq<nat>)
    requires times != []
    ensures var n := |times| - 1;
            Updates(ReadingsOf(times)) == Updates(ReadingsOf(times[..n])) + [CallUpdate(Reading(times[n]))]
  {
    var n := |times| - 1;
    assert ReadingsOf(times)[..n] == ReadingsOf(times[..n]);
  }

  /** The colours from a pair that shows one of them on, one per toggle. */
  ghost predicate Alternates(from: Pair, to: Pair, toggles: nat)
    requires from.written != []
  {
    && from.written <= to.written && |to.written| == |from.written| + toggles
    && forall i :: |from.written| <= i < |to.written| ==> to.written[i] != to.written[i - 1]
  }

  lemma OneMoreToggle(p: Pair, q: Pair, r: Pair, toggles: nat)
    requires p.written != [] && q.written != [] && Alternates(p, q, toggles) && Alternates(q, r, 1)
    ensures Alternates(p, r, toggles + 1)
  {
    var n := |q.written|;
    assert r.written[..n] == q.written;
    forall i | |p.written| <= i < n ensures r.written[i] != r.written[i - 1] {
      assert r.written[i] == q.written[i] && r.written[i - 1] == q.written[i - 1];
    }
  }

  function OneMoreTime(toggles: seq<nat>, interval: Millis, start: nat, now: nat): seq<nat>
  {
    if now >= LastOf(toggles, start) && (now - LastOf(toggles, start)) % PERIOD >= interval then toggles + [now]
    else toggles
  }

  ghost predicate Blinking(p: Pair, q: Pair, start: nat, toggles: seq<nat>)
    requires p.written != []
  {
    && Consistent(q) && !q.identifying && q.mode == Blink
    && q.lastToggle == Reading(LastOf(toggles, start)) && Alternates(p, q, |toggles|)
  }

  lemma BlinkStep(p: Pair, q: Pair, interval: Millis, start: nat, toggles: seq<nat>, now: nat)
    requires p.written != [] && Blinking(p, q, start, toggles) && LastOf(toggles, start) <= now
    ensures Blinking(p, q.Updated(interval, Reading(now)), start, OneMoreTime(toggles, interval, start, now))
  {
    SinceIsElapsed(LastOf(toggles, start), now);
    var r := q.Updated(interval, Reading(now));
    if r != q { OneMoreToggle(p, q, r, |toggles|); }
  }

  /** A blinking pair toggles at the interval: over every run of updates it changes
      its colour exactly at the toggle times. */
  lemma {:induction false} BlinksAtInterval(p: Pair, interval: Millis, start: nat, times: seq<nat>)
    requires Consistent(p) && !p.identifying && p.mode == Blink && p.lastToggle == Reading(start)
    requires Ascending(times, start)
    ensures Blinking(p, Run(p, interval, Updates(ReadingsOf(times))), start, ToggleTimes(times, interval, start))
    decreases |times|
  {
    if times != [] {
      var before, now := times[..|times| - 1], times[|times| - 1];
      BlinksAtInterval(p, interval, start, before);
      LastIsPast(before, interval, start, now);
      RunWithUpdate(p, interval, times);
      BlinkStep(p, Run(p, interval, Updates(ReadingsOf(before))), interval, start,
                ToggleTimes(before, interval, start), now);
    }
  }

  /** A new pair shows its default colour, and blinks from its begin on. */
  lemma NewPairBlinks(colour: Colour, constructed: Millis, interval: Millis, start: nat, times: seq<nat>)
    requires Ascending(times, start)
    ensures var p := Constructed(colour, constructed).Begun(Reading(start));
            && p.written != [] && p.Shown() == colour
            && Blinking(p, Run(p, interval, Updates(ReadingsOf(times))), start, ToggleTimes(times, interval, start))
  {
    BlinksAtInterval(Constructed(colour, constructed).Begun(Reading(start)), interval, start, times);
  }

  lemma RunWithUpdate(p: Pair, interval: Millis, times: seq<nat>)
    requires times != []
    ensures var n := |times| - 1;
            Run(p, interval, Updates(ReadingsOf(times)))
            == Run(p, interval, Updates(ReadingsOf(times[..n]))).Updated(interval, Reading(times[n]))
  {
    UpdatesOneMore(times);
    RunOneMore(p, interval, Updates(ReadingsOf(times[..|times| - 1])), CallUpdate(Reading(times[|times| - 1])));
  }

  ghost predicate Overlaid(p: Pair, q: Pair, start: nat, toggles: seq<nat>)
    requires p.written != []
  {
    && q.identifying && q.written != [] && q.Shown() == (if q.identifyShowingGreen then Green else Red)
    && q.identifyLastToggle == Reading(LastOf(toggles, start)) && Alternates(p, q, |toggles|)
  }

  lemma OverlayStep(p: Pair, q: Pair, interval: Millis, start: nat, toggles: seq<nat>, now: nat)
    requires p.written != [] && Overlaid(p, q, start, toggles) && LastOf(toggles, start) <= now
    ensures Overlaid(p, q.Updated(interval, Reading(now)), start, OneMoreTime(toggles, 150, start, now))
  {
    SinceIsElapsed(LastOf(toggles, start), now);
    var r := q.Updated(interval, Reading(now));
    if r != q { OneMoreToggle(p, q, r, |toggles|); }
  }

  /** Under the overlay, a pair toggles every 150 ms in the same way. */
  lemma {:induction false} IdentifiesEvery150(p: Pair, interval: Millis, start: nat, times: seq<nat>)
    requires p.written != [] && Overlaid(p, p, start, []) && Ascending(times, start)
    ensures Overlaid(p, Run(p, interval, Updates(ReadingsOf(times))), start, ToggleTimes(times, 150, start))
    decreases |times|
  {
    if times != [] {
      var before, now := times[..|times| - 1], times[|times| - 1];
      IdentifiesEvery150(p, interval, start, before);
      LastIsPast(before, 150, start, now);
      RunWithUpdate(p, interval, times);
      OverlayStep(p, Run(p, interval, Updates(ReadingsOf(before))), interval, start,
                  ToggleTimes(before, 150, start), now);
    }
  }

  function Updates(times: seq<Millis>): seq<Call>
  {
    if times == [] then [] else Updates(times[..|times| - 1]) + [CallUpdate(times[|times| - 1])]
  }

  /** The state apart from the identify overlay and the colours written. */
  function Underlying(p: Pair): Pair
  {
    p.(identifying := false, identifyShowingGreen := true, identifyLastToggle := 0, written := [])
  }

  /** Calls that happen during an identify episode: any but its end. */
  ghost predicate WithinEpisode(calls: seq<Call>)
  {
    forall i :: 0 <= i < |calls| ==> !(calls[i].CallSetIdentifying? && !calls[i].active)
  }

  /** Those of the calls that do not concern the passing of time or the overlay. */
  function RequestsOf(calls: seq<Call>): seq<Call>
    decreases |calls|
  {
    if calls == [] then []
    else
      var last := calls[|calls| - 1];
      RequestsOf(calls[..|calls| - 1]) + if last.CallUpdate? || last.CallSetIdentifying? then [] else [last]
  }

  lemma RequestUnderOverlay(p: Pair, q: Pair, interval: Millis, c: Call)
    requires Underlying(p) == Underlying(q) && !c.CallUpdate? && !c.CallSetIdentifying?
    ensures Underlying(Called(p, interval, c)) == Underlying(Called(q, interval, c))
    ensures Called(p, interval, c).identifying == p.identifying
  {
    match c {
      case CallSetGreen(active, now) =>
        StateUnderOverlay(p.(greenRequested := active), q.(greenRequested := active), now);
      case CallSetRed(active, now) =>
        StateUnderOverlay(p.(redRequested := active), q.(redRequested := active), now);
      case CallBegin(now) =>
    }
  }

  lemma StateUnderOverlay(p: Pair, q: Pair, now: Millis)
    requires Underlying(p) == Underlying(q)
    ensures Underlying(p.StateApplied(now)) == Underlying(q.StateApplied(now))
    ensures p.StateApplied(now).identifying == p.identifying
  {}

  lemma OverlayHidesTime(p: Pair, interval: Millis, c: Call)
    requires p.identifying && (c.CallUpdate? || (c.CallSetIdentifying? && c.active))
    ensures var q := Called(p, interval, c); q.identifying && Underlying(q) == Underlying(p)
  {}

  /** Under the overlay a pair follows the requests as it would without it, and
      its own blinking stands still. */
  lemma {:induction false} EpisodeFollowsRequests(p: Pair, q: Pair, interval: Millis, calls: seq<Call>)
    requires !p.identifying && q.identifying && Underlying(p) == Underlying(q) && WithinEpisode(calls)
    ensures var p', q' := Run(p, interval, RequestsOf(calls)), Run(q, interval, calls);
            !p'.identifying && q'.identifying && Underlying(p') == Underlying(q')
    decreases |calls|
  {
    if calls != [] {
      var before, c := calls[..|calls| - 1], calls[|calls| - 1];
      EpisodeFollowsRequests(p, q, interval, before);
      var p', q' := Run(p, interval, RequestsOf(before)), Run(q, interval, before);
      if c.CallUpdate? || c.CallSetIdentifying? {
        OverlayHidesTime(q', interval, c);
        assert RequestsOf(calls) == RequestsOf(before);
      } else {
        RequestUnderOverlay(p', q', interval, c);
        RequestUnderOverlay(q', p', interval, c);
        RunOneMore(p, interval, RequestsOf(before), c);
      }
    }
  }

  lemma RunOneMore(p: Pair, interval: Millis, calls: seq<Call>, c: Call)
    ensures Run(p, interval, calls + [c]) == Called(Run(p, interval, calls), interval, c)
  {
    assert (calls + [c])[..|calls|] == calls;
  }

  /** An identify episode, however long and whatever is requested meanwhile, is
      undone on exit: the pair is in the state, and shows the colour, that the
      requests alone would have led to. */
  lemma IdentifyUndone(p: Pair, interval: Millis, on: Millis, calls: seq<Call>, off: Millis)
    requires Consistent(p) && !p.identifying && WithinEpisode(calls)
    ensures var q := Run(p.IdentifyingSet(true, on), interval, calls).IdentifyingSet(false, off);
            var r := Run(p, interval, RequestsOf(calls));
            && Underlying(q) == Underlying(r) && !q.identifying && !r.identifying
            && q.written != [] && r.written != [] && q.Shown() == r.Shown()
  {
    EpisodeFollowsRequests(p, p.IdentifyingSet(true, on), interval, calls);
    RunKeepsConsistent(p, interval, RequestsOf(calls));
  }

  // ------------------------------------------------------ turnout indicators

  /** The output for "closed" asks for green, the output for "thrown" for red. */
  function ColourOf(position: TurnoutPosition): Colour { if position == Thrown then Red else Green }

  function DisplayStarted(p: Pair, position: TurnoutPosition, now: Millis): Pair
  {
    if position == Thrown then p.RedSet(true, now) else p.GreenSet(true, now)
  }

  function Displayed(p: Pair, position: TurnoutPosition, now0: Millis, now1: Millis): Pair
  {
    var q := DisplayStarted(p, position, now0);
    if position == Thrown then q.GreenSet(false, now1) else q.RedSet(false, now1)
  }

  function Cleared(p: Pair, now0: Millis, now1: Millis): Pair
  {
    p.RedSet(false, now0).GreenSet(false, now1)
  }

  class TurnoutIndicator {
    const driver: IndependentLedPairDriver

    constructor (driver: IndependentLedPairDriver)
      ensures this.driver == driver
    {
      this.driver := driver;
    }

    method Display(position: TurnoutPosition, now0: Millis, now1: Millis)
      requires driver.Valid()
      modifies driver
      ensures driver.Valid() && driver.State() == Displayed(old(driver.State()), position, now0, now1)
    {
      if position == Thrown {
        driver.SetRed(true, now0);
        driver.SetGreen(false, now1);
      } else {
        driver.SetGreen(true, now0);
        driver.SetRed(false, now1);
      }
    }

    method Clear(now0: Millis, now1: Millis)
      requires driver.Valid()
      modifies driver
      ensures driver.Valid() && driver.State() == Cleared(old(driver.State()), now0, now1)
    {
      driver.SetRed(false, now0);
      driver.SetGreen(false, now1);
    }
  }

  /** From any state of the driver, displaying a position ends in its colour,
      writes at most one colour (that one), and never newly blinks on the way. */
  lemma DisplayEndsInColour(p: Pair, position: TurnoutPosition, now0: Millis, now1: Millis)
    ensures var mid, q := DisplayStarted(p, position, now0), Displayed(p, position, now0, now1);
            && q.mode != Blink && q.ColourToShow() == ColourOf(position) == (if position == Thrown then Red else Green)
            && (q.greenRequested <==> position == Closed) && (q.redRequested <==> position == Thrown)
            && (q.written == p.written || q.written == p.written + [ColourOf(position)])
            && (mid.mode == Blink ==> p.mode == Blink && mid.written == p.written)
  {
    FirstHalf(p, position, now0);
    SecondHalf(DisplayStarted(p, position, now0), position, now1);
  }

  ghost predicate InColour(p: Pair, position: TurnoutPosition)
  {
    p.mode == if position == Thrown then ShowRed else ShowGreen
  }

  lemma FirstHalf(p: Pair, position: TurnoutPosition, now: Millis)
    ensures var mid := DisplayStarted(p, position, now);
            && (if position == Thrown then mid.redRequested else mid.greenRequested)
            && mid.written == p.written + (if InColour(mid, position) && !InColour(p, position)
                                           then [ColourOf(position)] else [])
            && (InColour(p, position) ==> InColour(mid, position))
            && (mid.mode == Blink ==> p.mode == Blink)
  {}

  lemma SecondHalf(mid: Pair, position: TurnoutPosition, now: Millis)
    requires if position == Thrown then mid.redRequested else mid.greenRequested
    ensures var q := if position == Thrown then mid.GreenSet(false, now) else mid.RedSet(false, now);
            && InColour(q, position)
            && (q.greenRequested <==> position == Closed) && (q.redRequested <==> position == Thrown)
            && q.written == mid.written + if InColour(mid, position) then [] else [ColourOf(position)]
  {}

  /** Unless it is identifying itself, the pair then shows that colour. */
  lemma DisplayShows(p: Pair, position: TurnoutPosition, now0: Millis, now1: Millis)
    requires Consistent(p) && !p.identifying
    ensures var q := Displayed(p, position, now0, now1);
            Consistent(q) && !q.identifying && q.Shown() == if position == Thrown then Red else Green
  {
    var mid := DisplayStarted(p, position, now0);
    var thrown := position == Thrown;
    RequestKeepsConsistent(p, p.greenRequested || !thrown, p.redRequested || thrown, now0);
    RequestKeepsConsistent(mid, mid.greenRequested && !thrown, mid.redRequested && thrown, now1);
    DisplayEndsInColour(p, position, now0, now1);
  }

  ghost predicate ClearedBlinking(p: Pair)
  {
    p.mode == Blink && !p.greenRequested && !p.redRequested
  }

  /** Clearing releases red before green: it ends in blinking, from green if both
      were requested and else from the colour shown last. */
  lemma ClearEndsBlinking(p: Pair, now0: Millis, now1: Millis)
    requires Consistent(p)
    ensures var q := Cleared(p, now0, now1);
            && ClearedBlinking(q) && Consistent(q)
            && q.lastDisplayed == if p.greenRequested && p.redRequested then Green else p.lastDisplayed
  {
    RequestKeepsConsistent(p, p.greenRequested, false, now0);
    RequestKeepsConsistent(p.RedSet(false, now0), false, false, now1);
  }

  datatype Tick = TickClear(now0: Millis, now1: Millis) | TickUpdate(now: Millis)

  function Ticked(p: Pair, interval: Millis, ticks: seq<Tick>): Pair
    decreases |ticks|
  {
    if ticks == [] then p
    else
      var q := Ticked(p, interval, ticks[..|ticks| - 1]);
      match ticks[|ticks| - 1]
      case TickClear(now0, now1) => Cleared(q, now0, now1)
      case TickUpdate(now) => q.Updated(interval, now)
  }

  function UpdateTimes(ticks: seq<Tick>): seq<Millis>
    decreases |ticks|
  {
    if ticks == [] then []
    else
      UpdateTimes(ticks[..|ticks| - 1])
      + if ticks[|ticks| - 1].TickUpdate? then [ticks[|ticks| - 1].now] else []
  }

  /** Clearing a pair that is blinking already makes no difference at all: not to
      the toggle times, not to the colours, however often it is done. */
  lemma {:induction false} ClearsChangeNothing(p: Pair, interval: Millis, ticks: seq<Tick>)
    requires ClearedBlinking(p)
    ensures Ticked(p, interval, ticks) == Run(p, interval, Updates(UpdateTimes(ticks)))
    ensures ClearedBlinking(Ticked(p, interval, ticks))
    decreases |ticks|
  {
    if ticks != [] {
      var before := ticks[..|ticks| - 1];
      ClearsChangeNothing(p, interval, before);
      OneTick(Ticked(p, interval, before), interval, ticks[|ticks| - 1]);
      UpdateTimesOneMore(p, interval, ticks);
    }
  }

  lemma OneTick(q: Pair, interval: Millis, tick: Tick)
    requires ClearedBlinking(q)
    ensures tick.TickClear? ==> Cleared(q, tick.now0, tick.now1) == q
    ensures tick.TickUpdate? ==> ClearedBlinking(q.Updated(interval, tick.now))
  {}

  lemma UpdateTimesOneMore(p: Pair, interval: Millis, ticks: seq<Tick>)
    requires ticks != []
    ensures var tick := ticks[|ticks| - 1];
            var before := Run(p, interval, Updates(UpdateTimes(ticks[..|ticks| - 1])));
            Run(p, interval, Updates(UpdateTimes(ticks)))
            == if tick.TickUpdate? then before.Updated(interval, tick.now) else before
  {
    var tick, times := ticks[|ticks| - 1], UpdateTimes(ticks[..|ticks| - 1]);
    if tick.TickUpdate? {
      assert UpdateTimes(ticks) == times + [tick.now];
      assert (times + [tick.now])[..|times|] == times;
      RunOneMore(p, interval, Updates(times), CallUpdate(tick.now));
    } else {
      assert UpdateTimes(ticks) == times;
    }
  }
}
