/** What a panel's iterations come to: what its LED pairs show, and which presses
    its commands stem from. */
module PanelRuns {
  import opened Clock
  import opened Turnouts
  import opened LedDrivers
  import opened Presence
  import opened Panel
  import Debounce
  import Commissioning

  // ------------------------------------------------------------ one iteration

  /** Nothing makes the panel restart in this iteration. */
  predicate StaysUp(inp: Input) { !inp.serialReboot && !(inp.setupRequested && inp.setupStored) }

  /** Reports reach the stations in an iteration that begins in state s. */
  predicate TakesReports(c: Settings, s: Panel, inp: Input)
  {
    c.configValid && inp.feedbackConnected && !s.guard.collision
  }

  /** A station at the end of an iteration, given what reports or their absence
      made of it. */
  function Finished(confirmed: Unit, normal: bool, active: bool, inp: Input, i: nat): Unit
    requires inp.Fits(|inp.raw|) && i < |inp.raw|
  {
    var identified := if normal then IdentifiedOne(confirmed, active, inp.identified[i]) else confirmed;
    StationUpdated(BlinkedOne(identified, inp.blinked[i]), inp.raw[i], inp.debounced[i])
  }

  /** Every station takes its own course through the passes of an iteration. */
  lemma OneStation(c: Settings, s: Panel, inp: Input, i: nat)
    requires inp.Fits(|s.units|) && i < |s.units| && StaysUp(inp) && c.bootMode != Commissioning.WirelessSetup
    ensures var t := Iterated(c, s, inp).0;
            var gated := Suppressed(s.units, s.guard.collision);
            var confirmed := if TakesReports(c, s, inp) then FeedbackAll(gated, inp.feedback)[i]
                             else ClearedOne(gated[i], inp.cleared[i]);
            && |t.units| == |s.units|
            && t.units[i] == Finished(confirmed, c.bootMode == Commissioning.Normal,
                                      TimerActive(t.identify, inp.identifyRead), inp, i)
  {
    var gated := Suppressed(s.units, s.guard.collision);
    var t := IteratedNormally(c, s, inp).0;
    assert t.units == StationsRun(c, t.identify, gated, s.guard.collision, inp);
    OneStationRun(c, t.identify, gated, s.guard.collision, inp, i);
  }

  lemma OneStationRun(c: Settings, identify: Timer, units: seq<Unit>, collision: bool, inp: Input, i: nat)
    requires inp.Fits(|units|) && i < |units|
    ensures var confirmed := if c.configValid && inp.feedbackConnected && !collision
                             then FeedbackAll(units, inp.feedback)[i] else ClearedOne(units[i], inp.cleared[i]);
            StationsRun(c, identify, units, collision, inp)[i]
            == Finished(confirmed, c.bootMode == Commissioning.Normal, TimerActive(identify, inp.identifyRead), inp, i)
  {}

  lemma IdentifiesWhileActive(confirmed: Unit, active: bool, inp: Input, i: nat)
    requires inp.Fits(|inp.raw|) && i < |inp.raw|
    ensures Finished(confirmed, true, active, inp, i).led.identifying == active
  {}

  /** In normal mode, pairs identify exactly while the timer is active. */
  lemma IdentifyingIffActive(c: Settings, s: Panel, inp: Input, i: nat)
    requires inp.Fits(|s.units|) && i < |s.units| && StaysUp(inp) && c.bootMode == Commissioning.Normal
    ensures var t := Iterated(c, s, inp).0; t.units[i].led.identifying <==> TimerActive(t.identify, inp.identifyRead)
  {
    OneStation(c, s, inp, i);
    forall u: Unit, active: bool ensures Finished(u, true, active, inp, i).led.identifying == active {
      IdentifiesWhileActive(u, active, inp, i);
    }
  }

  /** Message k is the last one delivered on the identify topic. */
  ghost predicate LastIdentify(nodeId: int, deliveries: seq<Delivery>, k: nat)
  {
    && k < |deliveries| && deliveries[k].message.topic == IdentifyTopic(nodeId)
    && forall j :: k < j < |deliveries| ==> deliveries[j].message.topic != IdentifyTopic(nodeId)
  }

  lemma {:induction false} TriggeredByLast(c: Settings, guard: GuardState, identify: Timer,
                                           deliveries: seq<Delivery>, k: nat)
    requires LastIdentify(c.nodeId, deliveries, k)
    ensures DeliveredAll(c, guard, identify, deliveries).1 == Timer(true, deliveries[k].now)
    decreases |deliveries|
  {
    var before := deliveries[..|deliveries| - 1];
    if k < |before| { TriggeredByLast(c, guard, identify, before, k); }
  }

  /** An identify message takes visible effect in the iteration that polls it:
      every pair identifies at its end, unless the time is over by then. */
  lemma IdentifyTakesEffectAtOnce(c: Settings, s: Panel, inp: Input, k: nat, i: nat)
    requires inp.Fits(|s.units|) && i < |s.units| && StaysUp(inp) && c.bootMode == Commissioning.Normal
    requires c.configValid && inp.wifiConnected && LastIdentify(c.nodeId, inp.delivered, k)
    ensures Iterated(c, s, inp).0.units[i].led.identifying
            <==> Since(inp.identifyRead, inp.delivered[k].now) < IDENTIFY_DURATION_MS
  {
    TriggeredByLast(c, s.guard, s.identify, inp.delivered, k);
    IdentifyingIffActive(c, s, inp, i);
  }

  /** Without reports, every pair ends up blinking "unconfirmed". */
  lemma UnconfirmedWithoutReports(c: Settings, s: Panel, inp: Input, i: nat)
    requires inp.Fits(|s.units|) && i < |s.units| && StaysUp(inp) && c.bootMode != Commissioning.WirelessSetup
    requires !TakesReports(c, s, inp)
    ensures ClearedBlinking(Iterated(c, s, inp).0.units[i].led)
  {
    OneStation(c, s, inp, i);
    UnconfirmedLedBlinks(s.units[i].led, inp.cleared[i], c.bootMode == Commissioning.Normal,
                         TimerActive(Iterated(c, s, inp).0.identify, inp.identifyRead), inp.identified[i],
                         inp.blinked[i]);
  }

  lemma ConfirmedStays(u: Unit, normal: bool, active: bool, inp: Input, i: nat)
    requires inp.Fits(|inp.raw|) && i < |inp.raw| && u.led.mode != Blink
    ensures var v := Finished(u, normal, active, inp, i);
            v.turnout == u.turnout && v.led.mode == u.led.mode && v.led.ColourToShow() == u.led.ColourToShow()
  {}

  /** With reports, the turnout and its pair end up as last reported. */
  lemma ConfirmedByLastReport(c: Settings, s: Panel, inp: Input, i: nat, k: nat)
    requires inp.Fits(|s.units|) && i < |s.units| && StaysUp(inp) && c.bootMode != Commissioning.WirelessSetup
    requires TakesReports(c, s, inp) && !s.units[i].turnout.Blocked()
    requires LastReport(inp.feedback, s.units[i].turnout.address, k)
    ensures var u := Iterated(c, s, inp).0.units[i];
            && u.turnout.position == inp.feedback[k].position
            && u.led.mode != Blink
            && u.led.ColourToShow() == if inp.feedback[k].position == Thrown then Red else Green
  {
    var gated := Suppressed(s.units, s.guard.collision);
    OneStation(c, s, inp, i);
    LastReportShows(gated, inp.feedback, i, k);
    ConfirmedStays(FeedbackAll(gated, inp.feedback)[i], c.bootMode == Commissioning.Normal,
                   TimerActive(Iterated(c, s, inp).0.identify, inp.identifyRead), inp, i);
  }

  /** The debouncer sees the raw level only while no collision is known. */
  lemma ButtonOfStation(c: Settings, s: Panel, inp: Input, i: nat)
    requires inp.Fits(|s.units|) && i < |s.units| && StaysUp(inp) && c.bootMode != Commissioning.WirelessSetup
    ensures Iterated(c, s, inp).0.units[i].button
            == Debounce.Updated(s.units[i].button, DEBOUNCE_MS, !s.guard.collision && inp.raw[i],
                                inp.debounced[i].0, inp.debounced[i].1)
  {
    OneStation(c, s, inp, i);
    ReportsKeep(Suppressed(s.units, s.guard.collision), inp.feedback, i);
  }

  // -------------------------------------------------------------------- runs

  ghost predicate AllFit(inputs: seq<Input>, n: nat)
  {
    forall k :: 0 <= k < |inputs| ==> inputs[k].Fits(n) && StaysUp(inputs[k])
  }

  /** The panel after these iterations. */
  ghost function Later(c: Settings, s: Panel, inputs: seq<Input>): (t: Panel)
    requires AllFit(inputs, |s.units|) && c.bootMode != Commissioning.WirelessSetup
    ensures |t.units| == |s.units|
    decreases |inputs|
  {
    if inputs == [] then s else Iterated(c, Later(c, s, inputs[..|inputs| - 1]), inputs[|inputs| - 1]).0
  }

  /** The panel when the last of these iterations begins. */
  ghost function BeforeLast(c: Settings, s: Panel, inputs: seq<Input>): (t: Panel)
    requires inputs != [] && AllFit(inputs, |s.units|) && c.bootMode != Commissioning.WirelessSetup
    ensures |t.units| == |s.units| && Later(c, s, inputs) == Iterated(c, t, inputs[|inputs| - 1]).0
  {
    Later(c, s, inputs[..|inputs| - 1])
  }

  /** The gated input of station i in iteration k: its raw level, unless a
      collision was known when the iteration began. */
  ghost predicate GatedRaw(c: Settings, s: Panel, inputs: seq<Input>, i: nat, k: nat)
    requires AllFit(inputs, |s.units|) && c.bootMode != Commissioning.WirelessSetup
    requires i < |s.units| && k < |inputs|
  {
    !Later(c, s, inputs[..k]).guard.collision && inputs[k].raw[i]
  }

  /** h is the history of the gated input of station i, in real time. */
  ghost predicate HistoryOf(c: Settings, s: Panel, inputs: seq<Input>, i: nat, h: Debounce.History)
    requires AllFit(inputs, |s.units|) && c.bootMode != Commissioning.WirelessSetup && i < |s.units|
  {
    && |h| == |inputs|
    && forall k :: 0 <= k < |h| ==>
         && (h[k].raw <==> GatedRaw(c, s, inputs, i, k))
         && inputs[k].debounced[i] == (Reading(h[k].noted), Reading(h[k].checked))
  }

  lemma {:induction false} ButtonFollowsInput(c: Settings, s: Panel, inputs: seq<Input>, i: nat, h: Debounce.History)
    requires AllFit(inputs, |s.units|) && c.bootMode != Commissioning.WirelessSetup && i < |s.units|
    requires s.units[i].button == Debounce.RELEASED && HistoryOf(c, s, inputs, i, h)
    ensures Later(c, s, inputs).units[i].button == Debounce.Run(h, DEBOUNCE_MS)
    ensures inputs != [] ==>
              BeforeLast(c, s, inputs).units[i].button == Debounce.Run(h[..|h| - 1], DEBOUNCE_MS)
    decreases |inputs|
  {
    if inputs != [] {
      var n := |inputs| - 1;
      ShorterHistory(c, s, inputs, i, h);
      ButtonFollowsInput(c, s, inputs[..n], i, h[..n]);
      assert h[n].raw <==> GatedRaw(c, s, inputs, i, n);
      ButtonStep(c, Later(c, s, inputs[..n]), inputs[n], i, h);
    }
  }

  lemma ButtonStep(c: Settings, s: Panel, inp: Input, i: nat, h: Debounce.History)
    requires inp.Fits(|s.units|) && i < |s.units| && StaysUp(inp) && c.bootMode != Commissioning.WirelessSetup
    requires h != [] && s.units[i].button == Debounce.Run(h[..|h| - 1], DEBOUNCE_MS)
    requires h[|h| - 1].raw <==> !s.guard.collision && inp.raw[i]
    requires inp.debounced[i] == (Reading(h[|h| - 1].noted), Reading(h[|h| - 1].checked))
    ensures Iterated(c, s, inp).0.units[i].button == Debounce.Run(h, DEBOUNCE_MS)
  {
    ButtonOfStation(c, s, inp, i);
  }

  lemma ShorterHistory(c: Settings, s: Panel, inputs: seq<Input>, i: nat, h: Debounce.History)
    requires AllFit(inputs, |s.units|) && c.bootMode != Commissioning.WirelessSetup && i < |s.units|
    requires inputs != [] && HistoryOf(c, s, inputs, i, h)
    ensures HistoryOf(c, s, inputs[..|inputs| - 1], i, h[..|inputs| - 1])
  {
    var before := inputs[..|inputs| - 1];
    forall k | 0 <= k < |before| ensures GatedRaw(c, s, before, i, k) <==> GatedRaw(c, s, inputs, i, k) {
      assert before[..k] == inputs[..k];
    }
  }

  /** A station whose button was at rest, as after a restart, asks for a command
      only after the button was held, in every iteration, for the debounce time in
      real time, and no collision was known at the beginning of any of them. */
  lemma CommandNeedsSteadyPress(c: Settings, s: Panel, inputs: seq<Input>, i: nat, h: Debounce.History, m: Message)
    returns (j: nat)
    requires AllFit(inputs, |s.units|) && c.bootMode != Commissioning.WirelessSetup && i < |s.units| && inputs != []
    requires s.units[i].button == Debounce.RELEASED && HistoryOf(c, s, inputs, i, h) && Debounce.Chronological(h)
    requires AskedFor(c.channels, Later(c, s, inputs).units[i], m)
    ensures j < |inputs| && h[|h| - 1].checked - h[j].noted >= 30
    ensures forall k :: j <= k < |inputs| ==> GatedRaw(c, s, inputs, i, k)
  {
    ButtonFollowsInput(c, s, inputs, i, h);
    assert Debounce.Run(h, DEBOUNCE_MS).stable != Debounce.Run(h[..|h| - 1], DEBOUNCE_MS).stable;
    j := Debounce.FlipIsDebounced(h, DEBOUNCE_MS);
    forall k | j <= k < |inputs| ensures GatedRaw(c, s, inputs, i, k) { assert h[k].raw == h[j].raw; }
  }

  lemma AskedForIsPublished(c: Settings, s: Panel, inp: Input, i: nat, m: Message)
    requires inp.Fits(|s.units|) && i < |s.units| && StaysUp(inp) && c.bootMode != Commissioning.WirelessSetup
    requires AskedFor(c.channels, Iterated(c, s, inp).0.units[i], m)
    ensures m in Iterated(c, s, inp).1.published
  {
    var units := Iterated(c, s, inp).0.units;
    PublishedIffAskedFor(c.channels, units, m);
    var commands := MessagesOf(c.channels, SentBy(units, |units|));
    assert exists announced :: Iterated(c, s, inp).1.published == announced + commands;
  }

  /** The station's button was released, and now its gated level has been high for
      the debounce time (and less than a clock period). */
  ghost predicate SteadyPress(c: Settings, s: Panel, inputs: seq<Input>, i: nat, h: Debounce.History, j: nat)
    requires AllFit(inputs, |s.units|) && c.bootMode != Commissioning.WirelessSetup && i < |s.units| && inputs != []
  {
    && HistoryOf(c, s, inputs, i, h) && Debounce.Chronological(h)
    && Debounce.LastChange(h, j) && h[j].raw && 30 <= h[|h| - 1].checked - h[j].noted < PERIOD
    && !BeforeLast(c, s, inputs).units[i].button.stable
  }

  lemma SteadyPressIsNoticed(c: Settings, s: Panel, inputs: seq<Input>, i: nat, h: Debounce.History, j: nat)
    requires AllFit(inputs, |s.units|) && c.bootMode != Commissioning.WirelessSetup && i < |s.units| && inputs != []
    requires s.units[i].button == Debounce.RELEASED && SteadyPress(c, s, inputs, i, h, j)
    ensures Later(c, s, inputs).units[i].button.WasPressed()
  {
    ButtonFollowsInput(c, s, inputs, i, h);
    Debounce.SteadyIsPress(h, DEBOUNCE_MS, j);
  }

  /** In this iteration, the panel publishes the command of station i, if that has
      an address on the layout. */
  ghost predicate PublishesRequest(c: Settings, s: Panel, inp: Input, i: nat)
    requires inp.Fits(|s.units|) && i < |s.units|
  {
    var (t, out) := Iterated(c, s, inp);
    Configured(c.channels, t.units[i].turnout) ==> Request(c.channels, t.units[i].turnout) in out.published
  }

  lemma PressPublishesRequest(c: Settings, s: Panel, inp: Input, i: nat)
    requires inp.Fits(|s.units|) && i < |s.units| && StaysUp(inp) && c.bootMode != Commissioning.WirelessSetup
    requires Iterated(c, s, inp).0.units[i].button.WasPressed()
    ensures PublishesRequest(c, s, inp, i)
  {
    var turnout := Iterated(c, s, inp).0.units[i].turnout;
    if Configured(c.channels, turnout) { AskedForIsPublished(c, s, inp, i, Request(c.channels, turnout)); }
  }

  /** Conversely, a steady press publishes the command. */
  lemma SteadyPressIsSent(c: Settings, s: Panel, inputs: seq<Input>, i: nat, h: Debounce.History, j: nat)
    requires AllFit(inputs, |s.units|) && c.bootMode != Commissioning.WirelessSetup && i < |s.units| && inputs != []
    requires s.units[i].button == Debounce.RELEASED && SteadyPress(c, s, inputs, i, h, j)
    ensures PublishesRequest(c, BeforeLast(c, s, inputs), inputs[|inputs| - 1], i)
  {
    SteadyPressIsNoticed(c, s, inputs, i, h, j);
    PressPublishesRequest(c, BeforeLast(c, s, inputs), inputs[|inputs| - 1], i);
  }

  // ---------------------------------------------------- reports over a run

  /** The position last reported for an address, or else the initial one. */
  function LastPosition(feedback: seq<Feedback>, address: int, initial: TurnoutPosition): TurnoutPosition
    decreases |feedback|
  {
    if feedback == [] then initial
    else if feedback[|feedback| - 1].address == address then feedback[|feedback| - 1].position
    else LastPosition(feedback[..|feedback| - 1], address, initial)
  }

  lemma {:induction false} LastPositionAdds(a: seq<Feedback>, b: seq<Feedback>, address: int, initial: TurnoutPosition)
    ensures LastPosition(a + b, address, initial) == LastPosition(b, address, LastPosition(a, address, initial))
    decreases |b|
  {
    if b == [] {
      assert a + b == a;
    } else {
      assert (a + b)[..|a + b| - 1] == a + b[..|b| - 1];
      LastPositionAdds(a, b[..|b| - 1], address, initial);
    }
  }

  /** What reports do to a turnout that is not blocked. */
  function Reported(t: TurnoutState, feedback: seq<Feedback>): TurnoutState
  {
    t.(position := LastPosition(feedback, t.address, t.position))
  }

  lemma {:induction false} ReportsPosition(units: seq<Unit>, feedback: seq<Feedback>, i: nat)
    requires i < |units| && !units[i].turnout.Blocked()
    ensures FeedbackAll(units, feedback)[i].turnout == Reported(units[i].turnout, feedback)
    decreases |feedback|
  {
    if feedback != [] { ReportsPosition(units, feedback[..|feedback| - 1], i); }
  }

  /** The reports that a panel takes in over these iterations. */
  ghost function TakenIn(c: Settings, s: Panel, inputs: seq<Input>): seq<Feedback>
    requires AllFit(inputs, |s.units|) && c.bootMode != Commissioning.WirelessSetup
    decreases |inputs|
  {
    if inputs == [] then []
    else
      var before, last := inputs[..|inputs| - 1], inputs[|inputs| - 1];
      TakenIn(c, s, before) + if TakesReports(c, BeforeLast(c, s, inputs), last) then last.feedback else []
  }

  lemma TurnoutOfStation(c: Settings, s: Panel, inp: Input, i: nat)
    requires inp.Fits(|s.units|) && i < |s.units| && StaysUp(inp) && c.bootMode != Commissioning.WirelessSetup
    requires !s.units[i].turnout.Blocked()
    ensures Iterated(c, s, inp).0.units[i].turnout
            == Reported(s.units[i].turnout, if TakesReports(c, s, inp) then inp.feedback else [])
  {
    OneStation(c, s, inp, i);
    ReportsPosition(Suppressed(s.units, s.guard.collision), inp.feedback, i);
  }

  /** Over every run, a turnout that was not blocked stays so, and its position is
      the one last reported in all the reports ever taken in. */
  lemma {:induction false} TurnoutAsLastReported(c: Settings, s: Panel, inputs: seq<Input>, i: nat)
    requires AllFit(inputs, |s.units|) && c.bootMode != Commissioning.WirelessSetup && i < |s.units|
    requires !s.units[i].turnout.Blocked()
    ensures Later(c, s, inputs).units[i].turnout == Reported(s.units[i].turnout, TakenIn(c, s, inputs))
    decreases |inputs|
  {
    if inputs != [] {
      var before, last, t := inputs[..|inputs| - 1], inputs[|inputs| - 1], s.units[i].turnout;
      TurnoutAsLastReported(c, s, before, i);
      TurnoutOfStation(c, BeforeLast(c, s, inputs), last, i);
      var news := if TakesReports(c, BeforeLast(c, s, inputs), last) then last.feedback else [];
      LastPositionAdds(TakenIn(c, s, before), news, t.address, t.position);
    }
  }

  /** So from its set-up on, the turnouts of a panel are never blocked, are closed
      until reported otherwise, and every command asks for the opposite of the
      position last reported. */
  lemma RequestOpposesLastReport(c: Settings, boots: seq<Boot>, inputs: seq<Input>, i: nat)
    requires AllFit(inputs, |boots|) && c.bootMode != Commissioning.WirelessSetup && i < |boots|
    ensures var t := Later(c, Booted(c, boots), inputs).units[i].turnout;
            var position := LastPosition(TakenIn(c, Booted(c, boots), inputs), i + 1, Closed);
            && t == TurnoutState(i + 1, boots[i].name, position, false, false)
            && (i < |c.channels| && c.channels[i] != 0 ==>
                  Configured(c.channels, t)
                  && Request(c.channels, t)
                     == Message(CommandTopic(c.channels[i]), Payload(OppositePosition(position))))
  {
    TurnoutAsLastReported(c, Booted(c, boots), inputs, i);
  }

  /** Station i has just been pressed, and m asks for the other position than the
      one last reported of all the reports ever taken in; a turnout not reported
      yet counts as closed. */
  ghost predicate AsksForOther(c: Settings, boots: seq<Boot>, inputs: seq<Input>, i: nat, m: Message)
    requires AllFit(inputs, |boots|) && c.bootMode != Commissioning.WirelessSetup && i < |boots|
  {
    && i < |c.channels| && c.channels[i] != 0
    && Later(c, Booted(c, boots), inputs).units[i].button.WasPressed()
    && m.topic == CommandTopic(c.channels[i])
    && m.payload == if LastPosition(TakenIn(c, Booted(c, boots), inputs), i + 1, Closed) == Closed
                    then "THROWN" else "CLOSED"
  }

  lemma OppositeInText(position: TurnoutPosition)
    ensures Payload(OppositePosition(position)) == if position == Closed then "THROWN" else "CLOSED"
  {
    PayloadReadBack(OppositePosition(position));
  }

  lemma AskedByUnit(channels: seq<int>, u: Unit, i: nat, m: Message)
    requires u.turnout.address == i + 1
    ensures AskedFor(channels, u, m) <==>
            && i < |channels| && channels[i] != 0 && u.button.WasPressed() && m.topic == CommandTopic(channels[i])
            && m.payload == if u.turnout.position == Closed then "THROWN" else "CLOSED"
  {
    OppositeInText(u.turnout.position);
  }

  lemma AskedInText(c: Settings, boots: seq<Boot>, inputs: seq<Input>, i: nat, m: Message)
    requires AllFit(inputs, |boots|) && c.bootMode != Commissioning.WirelessSetup && i < |boots|
    ensures AskedFor(c.channels, Later(c, Booted(c, boots), inputs).units[i], m) <==>
            AsksForOther(c, boots, inputs, i, m)
  {
    RequestOpposesLastReport(c, boots, inputs, i);
    AskedByUnit(c.channels, Later(c, Booted(c, boots), inputs).units[i], i, m);
  }

  lemma PublishedIsCommand(c: Settings, s: Panel, inp: Input, m: Message, address: int)
    requires inp.Fits(|s.units|) && StaysUp(inp) && c.bootMode != Commissioning.WirelessSetup
    requires m.topic == CommandTopic(address)
    ensures var (t, out) := Iterated(c, s, inp);
            m in out.published <==> m in MessagesOf(c.channels, SentBy(t.units, |t.units|))
  {
    MacTopicsApart(c.nodeId, address);
    var units := Iterated(c, s, inp).0.units;
    var commands := MessagesOf(c.channels, SentBy(units, |units|));
    var announced := Linked(c, Top(c, s, inp).0, inp).1;
    assert m !in announced;
    assert Iterated(c, s, inp).1.published == announced + commands;
  }

  /** From its set-up on, the commands a panel publishes in an iteration are exactly
      those of the stations just pressed, and each asks, in the text of its
      message, for the other position than the one last reported. */
  lemma CommandsOfRun(c: Settings, boots: seq<Boot>, inputs: seq<Input>, m: Message, address: int)
    requires AllFit(inputs, |boots|) && c.bootMode != Commissioning.WirelessSetup && inputs != []
    requires m.topic == CommandTopic(address)
    ensures m in Iterated(c, BeforeLast(c, Booted(c, boots), inputs), inputs[|inputs| - 1]).1.published <==>
            exists i: nat :: i < |boots| && AsksForOther(c, boots, inputs, i, m)
  {
    var before, last := BeforeLast(c, Booted(c, boots), inputs), inputs[|inputs| - 1];
    var units := Later(c, Booted(c, boots), inputs).units;
    PublishedIsCommand(c, before, last, m, address);
    PublishedIffAskedFor(c.channels, units, m);
    if i: nat :| i < |boots| && AskedFor(c.channels, units[i], m) {
      AskedInText(c, boots, inputs, i, m);
    }
    if i: nat :| i < |boots| && AsksForOther(c, boots, inputs, i, m) {
      AskedInText(c, boots, inputs, i, m);
    }
  }

  // ------------------------------------------------- identify over a run

  /** The messages that the panel polls over these iterations. */
  function Polls(c: Settings, inputs: seq<Input>): seq<Delivery>
    decreases |inputs|
  {
    if inputs == [] then []
    else
      var last := inputs[|inputs| - 1];
      Polls(c, inputs[..|inputs| - 1]) + if c.configValid && last.wifiConnected then last.delivered else []
  }

  lemma {:induction false} TimerAdds(c: Settings, g: GuardState, t: Timer, a: seq<Delivery>,
                                     h: GuardState, b: seq<Delivery>)
    ensures DeliveredAll(c, g, t, a + b).1 == DeliveredAll(c, h, DeliveredAll(c, g, t, a).1, b).1
    decreases |b|
  {
    if b == [] {
      assert a + b == a;
    } else {
      assert (a + b)[..|a + b| - 1] == a + b[..|b| - 1];
      TimerAdds(c, g, t, a, h, b[..|b| - 1]);
    }
  }

  lemma {:induction false} TimerOfRun(c: Settings, s: Panel, inputs: seq<Input>)
    requires AllFit(inputs, |s.units|) && c.bootMode != Commissioning.WirelessSetup
    ensures Later(c, s, inputs).identify == DeliveredAll(c, s.guard, s.identify, Polls(c, inputs)).1
    decreases |inputs|
  {
    if inputs != [] {
      var before, last := inputs[..|inputs| - 1], inputs[|inputs| - 1];
      TimerOfRun(c, s, before);
      var news := if c.configValid && last.wifiConnected then last.delivered else [];
      TimerAdds(c, s.guard, s.identify, Polls(c, before), BeforeLast(c, s, inputs).guard, news);
    }
  }

  lemma {:induction false} UntriggeredWithout(c: Settings, g: GuardState, t: Timer, deliveries: seq<Delivery>)
    requires forall k: nat :: !LastIdentify(c.nodeId, deliveries, k)
    ensures DeliveredAll(c, g, t, deliveries).1 == t
    decreases |deliveries|
  {
    if deliveries != [] {
      var n := |deliveries| - 1;
      assert !LastIdentify(c.nodeId, deliveries, n);
      forall k: nat ensures !LastIdentify(c.nodeId, deliveries[..n], k) {
        assert !LastIdentify(c.nodeId, deliveries, k);
      }
      UntriggeredWithout(c, g, t, deliveries[..n]);
    }
  }

  /** In normal mode, from its set-up on, a panel's pairs identify exactly if it has
      polled an identify message, the last of them less than ten seconds ago as
      the clock tells it. */
  lemma IdentifyingIffAsked(c: Settings, boots: seq<Boot>, inputs: seq<Input>, i: nat)
    requires AllFit(inputs, |boots|) && c.bootMode == Commissioning.Normal && inputs != [] && i < |boots|
    ensures Later(c, Booted(c, boots), inputs).units[i].led.identifying <==>
            exists k: nat :: LastIdentify(c.nodeId, Polls(c, inputs), k)
                             && Since(inputs[|inputs| - 1].identifyRead, Polls(c, inputs)[k].now) < 10000
  {
    var s := Booted(c, boots);
    TimerOfRun(c, s, inputs);
    IdentifyingIffActive(c, BeforeLast(c, s, inputs), inputs[|inputs| - 1], i);
    ActiveIffAsked(c, s.guard, Polls(c, inputs), inputs[|inputs| - 1].identifyRead);
  }

  lemma ActiveIffAsked(c: Settings, g: GuardState, polls: seq<Delivery>, read: Millis)
    ensures TimerActive(DeliveredAll(c, g, Timer(false, 0), polls).1, read) <==>
            exists k: nat :: LastIdentify(c.nodeId, polls, k) && Since(read, polls[k].now) < 10000
  {
    if k: nat :| LastIdentify(c.nodeId, polls, k) {
      TriggeredByLast(c, g, Timer(false, 0), polls, k);
      forall j: nat | LastIdentify(c.nodeId, polls, j) ensures j == k {}
    } else {
      UntriggeredWithout(c, g, Timer(false, 0), polls);
    }
  }

  /** While a pair identifies, its own blinking stands still: the overlay is set
      before the pairs are updated. */
  lemma OverlayComesFirst(c: Settings, s: Panel, inp: Input, i: nat)
    requires inp.Fits(|s.units|) && i < |s.units| && StaysUp(inp) && c.bootMode == Commissioning.Normal
    requires !TakesReports(c, s, inp)
    requires Iterated(c, s, inp).0.units[i].led.identifying
    ensures Underlying(Iterated(c, s, inp).0.units[i].led)
            == Underlying(Cleared(s.units[i].led, inp.cleared[i].0, inp.cleared[i].1))
  {
    OneStation(c, s, inp, i);
    UpdateUnderOverlay(Cleared(s.units[i].led, inp.cleared[i].0, inp.cleared[i].1),
                       TimerActive(Iterated(c, s, inp).0.identify, inp.identifyRead), inp.identified[i],
                       inp.blinked[i]);
  }

  lemma UpdateUnderOverlay(p: Pair, active: bool, now0: Millis, now1: Millis)
    ensures var q := p.IdentifyingSet(active, now0).Updated(BLINK_INTERVAL_MS, now1);
            q.identifying ==> Underlying(q) == Underlying(p)
  {}

  // ------------------------------------------------------- notices, restarts

  /** A panel restarts exactly when it was told to on the serial port, or asked for
      wireless setup by its button and could store that; it says so, and if it
      could not; and it reports a collision once. */
  lemma RestartsAndNotices(c: Settings, s: Panel, inp: Input)
    requires inp.Fits(|s.units|)
    ensures var (t, out) := Iterated(c, s, inp);
            var looping := !inp.serialReboot && c.bootMode != Commissioning.WirelessSetup;
            && (out.restarted <==> inp.serialReboot || (looping && inp.setupRequested && inp.setupStored))
            && (EnteringSetup in out.log <==> looping && inp.setupRequested && inp.setupStored)
            && (SetupNotStored in out.log <==> looping && inp.setupRequested && !inp.setupStored)
            && (CollisionDetected(c.mac, s.guard.lastForeign) in out.log <==>
                  looping && s.guard.collision && !s.logged)
            && (t.logged <==> s.logged || (looping && s.guard.collision))
  {
    TopNotices(c, s, inp);
    if !inp.serialReboot && c.bootMode != Commissioning.WirelessSetup { IterationNotices(c, s, inp); }
  }

  lemma TopNotices(c: Settings, s: Panel, inp: Input)
    ensures var (t, out) := Top(c, s, inp);
            && (out.restarted <==> inp.setupRequested && inp.setupStored)
            && (EnteringSetup in out.log <==> inp.setupRequested && inp.setupStored)
            && (SetupNotStored in out.log <==> inp.setupRequested && !inp.setupStored)
            && (CollisionDetected(c.mac, s.guard.lastForeign) in out.log <==> s.guard.collision && !s.logged)
            && (t.logged <==> s.logged || s.guard.collision)
  {}

  lemma IterationNotices(c: Settings, s: Panel, inp: Input)
    requires inp.Fits(|s.units|)
    ensures var (t, out) := IteratedNormally(c, s, inp);
            var (u, top) := Top(c, s, inp);
            out.restarted == top.restarted && out.log == top.log && t.logged == u.logged
  {}

  // ----------------------------------------------------------- other modes

  /** After its set-up a panel shows its boot mode: every pair blinks, from red, and
      identifies exactly in wireless setup. */
  lemma BootShowsMode(c: Settings, boots: seq<Boot>, i: nat)
    requires i < |boots|
    ensures var led := Booted(c, boots).units[i].led;
            && ClearedBlinking(led) && led.lastDisplayed == Red
            && (led.identifying <==> c.bootMode == Commissioning.WirelessSetup)
  {}

  /** In wireless setup the loop keeps the pairs going and does nothing else. */
  lemma WirelessSetupIsQuiet(c: Settings, s: Panel, inp: Input)
    requires inp.Fits(|s.units|) && c.bootMode == Commissioning.WirelessSetup
    ensures var (t, out) := Iterated(c, s, inp);
            && out.published == [] && out.log == [] && t == s.(units := t.units)
            && forall i :: 0 <= i < |s.units| ==> t.units[i] == s.units[i].(led := t.units[i].led)
  {}

  /** Without a valid configuration a panel takes nothing in from the network. */
  lemma UnconfiguredIsDeaf(c: Settings, s: Panel, inp: Input)
    requires inp.Fits(|s.units|) && !c.configValid && StaysUp(inp) && c.bootMode != Commissioning.WirelessSetup
    ensures var t := Iterated(c, s, inp).0;
            && t.guard == s.guard && t.identify == s.identify
            && forall i :: 0 <= i < |s.units| ==> t.units[i].turnout == s.units[i].turnout
  {
    forall i | 0 <= i < |s.units| ensures Iterated(c, s, inp).0.units[i].turnout == s.units[i].turnout {
      OneStation(c, s, inp, i);
    }
  }
}
