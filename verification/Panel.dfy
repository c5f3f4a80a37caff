/** A panel of the ESP32 node board: its buttons, turnouts and LED pairs, and one
    iteration of its loop, statement by statement. */
module Panel {
  import opened Clock
  import opened Turnouts
  import opened Routes
  import opened LedDrivers
  import opened Presence
  import Debounce
  import opened Text
  import Commissioning

  const DEBOUNCE_MS: Millis := 30
  const BLINK_INTERVAL_MS: Millis := 500
  const IDENTIFY_DURATION_MS: Millis := 10000

  // ------------------------------------------------------- one turnout station

  /** What belongs to one turnout: the gate before its button, the debounced
      button, the turnout as last reported, and its LED pair. */
  datatype Unit = Unit(suppressed: bool, button: Debounce.ButtonState, turnout: TurnoutState, led: Pair)

  /** A report from the layout; the clock is read by the two LED requests. */
  datatype Feedback = Feedback(address: int, position: TurnoutPosition, now0: Millis, now1: Millis)

  function Repositioned(t: TurnoutState, position: TurnoutPosition): TurnoutState
  {
    if t.Blocked() then t else t.(position := position)
  }

  function FeedbackApplied(u: Unit, f: Feedback): Unit
  {
    if f.address != u.turnout.address then u
    else u.(turnout := Repositioned(u.turnout, f.position), led := Displayed(u.led, f.position, f.now0, f.now1))
  }

  function ClearedOne(u: Unit, at: (Millis, Millis)): Unit { u.(led := Cleared(u.led, at.0, at.1)) }

  function IdentifiedOne(u: Unit, active: bool, at: Millis): Unit { u.(led := u.led.IdentifyingSet(active, at)) }

  function BlinkedOne(u: Unit, at: Millis): Unit { u.(led := u.led.Updated(BLINK_INTERVAL_MS, at)) }

  function StationUpdated(u: Unit, raw: bool, at: (Millis, Millis)): Unit
  {
    u.(button := Debounce.Updated(u.button, DEBOUNCE_MS, !u.suppressed && raw, at.0, at.1))
  }

  function OppositePosition(p: TurnoutPosition): TurnoutPosition { if p == Closed then Thrown else Closed }

  /** The commands a station sends after an update. */
  function StationSends(u: Unit): seq<TurnoutCommand>
  {
    if u.button.WasPressed() then [TurnoutCommand(u.turnout.address, OppositePosition(u.turnout.position))] else []
  }

  class GatedDigitalInput {
    var suppressed: bool

    constructor ()
      ensures !suppressed
    {
      suppressed := false;
    }

    method SetSuppressed(value: bool)
      modifies this
      ensures suppressed == value
    {
      suppressed := value;
    }

    /** The level of the gated input, given that of the inner one. */
    method IsActive(inner: bool) returns (active: bool)
      ensures active == (!suppressed && inner)
    {
      active := !suppressed && inner;
    }
  }

  class ToggleTurnoutStation {
    const input: GatedDigitalInput
    const button: Debounce.Button
    const turnout: Turnout
    const indicator: TurnoutIndicator

    ghost function State(): Unit
      reads input, button, turnout, indicator.driver
    {
      Unit(input.suppressed, button.State(), turnout.State(), indicator.driver.State())
    }

    ghost predicate Valid()
      reads input, button, turnout, indicator.driver
    {
      button.debounceMilliseconds == DEBOUNCE_MS && indicator.driver.Valid()
      && indicator.driver.blinkIntervalMs == BLINK_INTERVAL_MS
    }

    ghost predicate Within(parts: set<object>)
    {
      input in parts && button in parts && turnout in parts && indicator.driver in parts
    }

    twostate predicate Unchanged()
      reads input, button, turnout, indicator.driver
    {
      unchanged(input, button, turnout, indicator.driver)
    }

    constructor (address: int, name: string, input: GatedDigitalInput, driver: IndependentLedPairDriver)
      requires driver.Valid() && driver.blinkIntervalMs == BLINK_INTERVAL_MS
      ensures this.input == input && fresh(button) && fresh(turnout) && indicator.driver == driver
      ensures Valid()
      ensures State() == Unit(input.suppressed, Debounce.RELEASED,
                              TurnoutState(address, name, Closed, false, false), driver.State())
    {
      this.input := input;
      button := new Debounce.Button(DEBOUNCE_MS);
      turnout := new Turnout(TurnoutState(address, name, Closed, false, false));
      indicator := new TurnoutIndicator(driver);
    }

    method Update(raw: bool, at: (Millis, Millis)) returns (sent: seq<TurnoutCommand>)
      requires Valid()
      modifies button
      ensures Valid() && State() == StationUpdated(old(State()), raw, at)
      ensures sent == StationSends(State())
    {
      var active := input.IsActive(raw);
      button.Update(active, at.0, at.1);
      var pressed := button.WasPressed();
      if !pressed {
        return [];
      }
      var opposite := if turnout.currentPosition == Closed then Thrown else Closed;
      sent := [TurnoutCommand(turnout.layoutAddress, opposite)];
    }

    method ApplyFeedback(f: Feedback)
      requires Valid()
      modifies turnout, indicator.driver
      ensures Valid() && State() == FeedbackApplied(old(State()), f)
    {
      if f.address != turnout.layoutAddress {
        return;
      }
      if f.position == Thrown {
        turnout.ThrowDiverging();
      } else {
        turnout.ThrowStraight();
      }
      indicator.Display(f.position, f.now0, f.now1);
    }

    method ClearIndicator(at: (Millis, Millis))
      requires Valid()
      modifies indicator.driver
      ensures Valid() && State() == ClearedOne(old(State()), at)
    {
      indicator.Clear(at.0, at.1);
    }
  }

  // ------------------------------------------------------------- the iteration

  /** What is fixed while a panel is running. */
  datatype Settings = Settings(
    nodeId: int, mac: string, configValid: bool, bootMode: Commissioning.BootMode, channels: seq<int>)

  datatype Timer = Timer(triggered: bool, at: Millis)

  predicate TimerActive(t: Timer, now: Millis) { t.triggered && Since(now, t.at) < IDENTIFY_DURATION_MS }

  /** A message handed over by the MQTT link, and the clock when it is. */
  datatype Delivery = Delivery(message: Message, now: Millis)

  /** Everything an iteration learns from outside: requests to restart, the state
      of the links, what they deliver, the raw button levels, and the clock
      each time it is read. */
  datatype Input = Input(
    serialReboot: bool, setupRequested: bool, setupStored: bool,
    wifiConnected: bool, delivered: seq<Delivery>,
    announceConnected: bool, announceChecked: Millis, announceStamped: Millis,
    feedbackConnected: bool, feedback: seq<Feedback>, cleared: seq<(Millis, Millis)>,
    identifyRead: Millis, identified: seq<Millis>, blinked: seq<Millis>,
    raw: seq<bool>, debounced: seq<(Millis, Millis)>)
  {
    /** There is something to read for each of n stations. */
    ghost predicate Fits(n: nat)
    {
      |cleared| == n && |identified| == n && |blinked| == n && |raw| == n && |debounced| == n
    }
  }

  datatype Panel = Panel(guard: GuardState, logged: bool, announcer: AnnouncerState, identify: Timer, units: seq<Unit>)

  /** What the panel writes to its serial line. */
  datatype Notice = CollisionDetected(mac: string, foreign: string) | EnteringSetup | SetupNotStored
  {
    function Text(): string
    {
      match this
      case CollisionDetected(mac, foreign) =>
        "NodeId collision detected: this node is "
        + (mac + (", another node claiming this node id is " + (foreign + "\n")))
      case EnteringSetup => "Entering wireless setup...\n"
      case SetupNotStored => "Failed to persist wireless setup request; staying in normal mode.\n"
    }
  }

  datatype Output = Output(published: seq<Message>, log: seq<Notice>, restarted: bool)

  function Suppressed(units: seq<Unit>, value: bool): (r: seq<Unit>)
    ensures |r| == |units| && forall i :: 0 <= i < |r| ==> r[i] == units[i].(suppressed := value)
  {
    seq(|units|, i requires 0 <= i < |units| => units[i].(suppressed := value))
  }

  function FeedbackOne(units: seq<Unit>, f: Feedback): (r: seq<Unit>)
    ensures |r| == |units| && forall i :: 0 <= i < |r| ==> r[i] == FeedbackApplied(units[i], f)
  {
    seq(|units|, i requires 0 <= i < |units| => FeedbackApplied(units[i], f))
  }

  function FeedbackAll(units: seq<Unit>, feedback: seq<Feedback>): (r: seq<Unit>)
    ensures |r| == |units|
    decreases |feedback|
  {
    if feedback == [] then units
    else FeedbackOne(FeedbackAll(units, feedback[..|feedback| - 1]), feedback[|feedback| - 1])
  }

  function ClearedAll(units: seq<Unit>, at: seq<(Millis, Millis)>): (r: seq<Unit>)
    requires |at| == |units|
    ensures |r| == |units|
    ensures forall i :: 0 <= i < |r| ==> r[i] == ClearedOne(units[i], at[i])
  {
    seq(|units|, i requires 0 <= i < |units| => ClearedOne(units[i], at[i]))
  }

  function IdentifiedAll(units: seq<Unit>, active: bool, at: seq<Millis>): (r: seq<Unit>)
    requires |at| == |units|
    ensures |r| == |units|
    ensures forall i :: 0 <= i < |r| ==> r[i] == IdentifiedOne(units[i], active, at[i])
  {
    seq(|units|, i requires 0 <= i < |units| => IdentifiedOne(units[i], active, at[i]))
  }

  function BlinkedAll(units: seq<Unit>, at: seq<Millis>): (r: seq<Unit>)
    requires |at| == |units|
    ensures |r| == |units|
    ensures forall i :: 0 <= i < |r| ==> r[i] == BlinkedOne(units[i], at[i])
  {
    seq(|units|, i requires 0 <= i < |units| => BlinkedOne(units[i], at[i]))
  }

  function StationsUpdated(units: seq<Unit>, raw: seq<bool>, at: seq<(Millis, Millis)>): (r: seq<Unit>)
    requires |raw| == |at| == |units|
    ensures |r| == |units|
    ensures forall i :: 0 <= i < |r| ==> r[i] == StationUpdated(units[i], raw[i], at[i])
  {
    seq(|units|, i requires 0 <= i < |units| => StationUpdated(units[i], raw[i], at[i]))
  }

  function Payload(position: TurnoutPosition): string { if position == Closed then "CLOSED" else "THROWN" }

  /** What a payload says, as the panel reads it. */
  function Decoded(payload: string): Option<TurnoutPosition>
  {
    if payload == "CLOSED" then Some(Closed) else if payload == "THROWN" then Some(Thrown) else None
  }

  /** Payloads are read back, and mean what they say. */
  lemma PayloadReadBack(position: TurnoutPosition)
    ensures Decoded(Payload(position)) == Some(position)
    ensures Payload(position) == "THROWN" <==> position == Thrown
    ensures Payload(position) == "CLOSED" <==> position == Closed
  {
    assert "CLOSED"[0] == 'C' && "THROWN"[0] == 'T';
  }

  /** The MQTT message for a station's command: stations count from 1, and a
      channel without an address publishes nothing. */
  function CommandMessages(channels: seq<int>, c: TurnoutCommand): seq<Message>
  {
    if c.address < 1 || c.address > |channels| || channels[c.address - 1] == 0 then []
    else [Message(CommandTopic(channels[c.address - 1]), Payload(c.position))]
  }

  function Sender(channels: seq<int>): TurnoutCommand -> seq<Message> { c => CommandMessages(channels, c) }

  function FlatMap<C, M>(f: C -> seq<M>, items: seq<C>): seq<M>
  {
    if items == [] then [] else FlatMap(f, items[..|items| - 1]) + f(items[|items| - 1])
  }

  function MessagesOf(channels: seq<int>, commands: seq<TurnoutCommand>): seq<Message>
  {
    FlatMap(Sender(channels), commands)
  }

  /** What the first n stations send. */
  function SentBy(units: seq<Unit>, n: nat): seq<TurnoutCommand>
    requires n <= |units|
  {
    if n == 0 then [] else SentBy(units, n - 1) + StationSends(units[n - 1])
  }

  function DeliveredOne(c: Settings, guard: GuardState, identify: Timer, d: Delivery): (GuardState, Timer)
  {
    (if d.message.topic == MacTopic(c.nodeId) then Observed(guard, c.mac, d.message.payload) else guard,
     if d.message.topic == IdentifyTopic(c.nodeId) then Timer(true, d.now) else identify)
  }

  function DeliveredAll(c: Settings, guard: GuardState, identify: Timer, deliveries: seq<Delivery>): (GuardState, Timer)
    decreases |deliveries|
  {
    if deliveries == [] then (guard, identify)
    else
      var (g, t) := DeliveredAll(c, guard, identify, deliveries[..|deliveries| - 1]);
      DeliveredOne(c, g, t, deliveries[|deliveries| - 1])
  }

  /** From the gates to the restart that a setup request may cause. */
  function Top(c: Settings, s: Panel, inp: Input): (Panel, Output)
  {
    var collision := s.guard.collision;
    var log := if collision && !s.logged then [CollisionDetected(c.mac, s.guard.lastForeign)] else [];
    var t := s.(logged := s.logged || collision, units := Suppressed(s.units, collision));
    if !inp.setupRequested then (t, Output([], log, false))
    else if inp.setupStored then (t, Output([], log + [EnteringSetup], true))
    else (t, Output([], log + [SetupNotStored], false))
  }

  /** The links are polled; the subscriptions see what the broker hands over. */
  function Polled(c: Settings, s: Panel, inp: Input): Panel
  {
    if !(c.configValid && inp.wifiConnected) then s
    else
      var (guard, identify) := DeliveredAll(c, s.guard, s.identify, inp.delivered);
      s.(guard := guard, identify := identify)
  }

  /** After that, the panel may announce itself. */
  function Linked(c: Settings, s: Panel, inp: Input): (Panel, seq<Message>)
  {
    (Polled(c, s, inp).(announcer := AnnouncerUpdated(s.announcer, inp.announceConnected,
                                                      inp.announceChecked, inp.announceStamped)),
     if AnnouncementDue(s.announcer, inp.announceConnected, inp.announceChecked)
     then Announcement(c.nodeId, c.mac) else [])
  }

  /** The stations: feedback or the lack of it, the LED pairs, and the buttons. */
  function StationsRun(c: Settings, identify: Timer, units: seq<Unit>, collision: bool, inp: Input): seq<Unit>
    requires inp.Fits(|units|)
  {
    var confirmed := if c.configValid && inp.feedbackConnected && !collision then FeedbackAll(units, inp.feedback)
                     else ClearedAll(units, inp.cleared);
    var identified := if c.bootMode == Commissioning.Normal
                      then IdentifiedAll(confirmed, TimerActive(identify, inp.identifyRead), inp.identified)
                      else confirmed;
    StationsUpdated(BlinkedAll(identified, inp.blinked), inp.raw, inp.debounced)
  }

  function IteratedNormally(c: Settings, s: Panel, inp: Input): (r: (Panel, Output))
    requires inp.Fits(|s.units|)
    ensures |r.0.units| == |s.units|
  {
    var (t, out) := Top(c, s, inp);
    if out.restarted then (t, out)
    else
      var (u, announced) := Linked(c, t, inp);
      var units := StationsRun(c, u.identify, u.units, s.guard.collision, inp);
      (u.(units := units), out.(published := announced + MessagesOf(c.channels, SentBy(units, |units|))))
  }

  function Iterated(c: Settings, s: Panel, inp: Input): (r: (Panel, Output))
    requires inp.Fits(|s.units|)
    ensures |r.0.units| == |s.units|
  {
    if inp.serialReboot then (s, Output([], [], true))
    else if c.bootMode == Commissioning.WirelessSetup
    then (s.(units := BlinkedAll(s.units, inp.blinked)), Output([], [], false))
    else IteratedNormally(c, s, inp)
  }

  // ------------------------------------------------ what an iteration means

  /** The turnout has an address on the layout. */
  predicate Configured(channels: seq<int>, t: TurnoutState)
  {
    1 <= t.address <= |channels| && channels[t.address - 1] != 0
  }

  /** The command that asks for the opposite of the position last reported. */
  function Request(channels: seq<int>, t: TurnoutState): Message
    requires Configured(channels, t)
  {
    Message(CommandTopic(channels[t.address - 1]), Payload(OppositePosition(t.position)))
  }

  /** The station has just been pressed, and m is the command that this asks for. */
  ghost predicate AskedFor(channels: seq<int>, u: Unit, m: Message)
  {
    u.button.WasPressed() && Configured(channels, u.turnout) && m == Request(channels, u.turnout)
  }

  lemma {:induction false} FlatMapAdd<C, M>(f: C -> seq<M>, a: seq<C>, b: seq<C>)
    ensures FlatMap(f, a + b) == FlatMap(f, a) + FlatMap(f, b)
    decreases |b|
  {
    if b == [] {
      assert a + b == a;
    } else {
      FlatMapAdd(f, a, b[..|b| - 1]);
      assert (a + b)[..|a + b| - 1] == a + b[..|b| - 1];
    }
  }

  lemma FlatMapOne<C, M>(f: C -> seq<M>, c: C)
    ensures FlatMap(f, [c]) == f(c)
  {
    assert FlatMap(f, [c]) == FlatMap(f, []) + f(c);
  }

  lemma {:induction false} FromOneOfThem<M>(f: TurnoutCommand -> seq<M>, units: seq<Unit>, n: nat,
                                            m: M) returns (i: nat)
    requires n <= |units| && m in FlatMap(f, SentBy(units, n))
    ensures i < n && m in FlatMap(f, StationSends(units[i]))
  {
    var before, last := SentBy(units, n - 1), StationSends(units[n - 1]);
    assert SentBy(units, n) == before + last;
    FlatMapAdd(f, before, last);
    if m in FlatMap(f, last) { i := n - 1; } else { i := FromOneOfThem(f, units, n - 1, m); }
  }

  lemma {:induction false} FromEachOfThem<M>(f: TurnoutCommand -> seq<M>, units: seq<Unit>, n: nat, m: M, i: nat)
    requires i < n <= |units| && m in FlatMap(f, StationSends(units[i]))
    ensures m in FlatMap(f, SentBy(units, n))
  {
    var before, last := SentBy(units, n - 1), StationSends(units[n - 1]);
    assert SentBy(units, n) == before + last;
    FlatMapAdd(f, before, last);
    if i < n - 1 { FromEachOfThem(f, units, n - 1, m, i); }
  }

  lemma AskedForIsSent(channels: seq<int>, u: Unit, m: Message)
    ensures m in MessagesOf(channels, StationSends(u)) <==> AskedFor(channels, u, m)
  {
    if u.button.WasPressed() {
      FlatMapOne(Sender(channels), StationSends(u)[0]);
    }
  }

  /** The commands published are exactly those asked for. */
  lemma PublishedIffAskedFor(channels: seq<int>, units: seq<Unit>, m: Message)
    ensures m in MessagesOf(channels, SentBy(units, |units|))
            <==> exists i: nat :: i < |units| && AskedFor(channels, units[i], m)
  {
    forall u: Unit ensures m in MessagesOf(channels, StationSends(u)) <==> AskedFor(channels, u, m) {
      AskedForIsSent(channels, u, m);
    }
    if m in MessagesOf(channels, SentBy(units, |units|)) {
      var i := FromOneOfThem(Sender(channels), units, |units|, m);
      assert AskedFor(channels, units[i], m);
    }
    forall i: nat | i < |units| && AskedFor(channels, units[i], m)
      ensures m in MessagesOf(channels, SentBy(units, |units|))
    {
      FromEachOfThem(Sender(channels), units, |units|, m, i);
    }
  }

  lemma ClearedBlinks(p: Pair, at: (Millis, Millis))
    ensures ClearedBlinking(Cleared(p, at.0, at.1))
  {}

  lemma UnconfirmedLedBlinks(p: Pair, at: (Millis, Millis), overlay: bool, active: bool, identified: Millis,
                             blinked: Millis)
    ensures var c := Cleared(p, at.0, at.1);
            var d := if overlay then c.IdentifyingSet(active, identified) else c;
            ClearedBlinking(d.Updated(BLINK_INTERVAL_MS, blinked))
  {
    ClearedBlinks(p, at);
    OverlayKeepsBlinking(Cleared(p, at.0, at.1), overlay, active, identified, blinked);
  }

  lemma OverlayKeepsBlinking(c: Pair, overlay: bool, active: bool, identified: Millis, blinked: Millis)
    requires ClearedBlinking(c)
    ensures var d := if overlay then c.IdentifyingSet(active, identified) else c;
            ClearedBlinking(d.Updated(BLINK_INTERVAL_MS, blinked))
  {}

  /** Report k is the last one for this address. */
  ghost predicate LastReport(feedback: seq<Feedback>, address: int, k: nat)
  {
    k < |feedback| && feedback[k].address == address
    && forall j :: k < j < |feedback| ==> feedback[j].address != address
  }

  /** After the reports have been taken in, a turnout that is not blocked has the
      position last reported for its address, and its LED pair the colour. */
  lemma {:induction false} LastReportShows(units: seq<Unit>, feedback: seq<Feedback>, i: nat, k: nat)
    requires i < |units| && LastReport(feedback, units[i].turnout.address, k) && !units[i].turnout.Blocked()
    ensures var u, v := units[i], FeedbackAll(units, feedback)[i];
            && v.turnout == u.turnout.(position := feedback[k].position)
            && v.led.mode != Blink && v.led.ColourToShow() == ColourOf(feedback[k].position)
            && v.button == u.button && v.suppressed == u.suppressed
    decreases |feedback|
  {
    var before, last := feedback[..|feedback| - 1], feedback[|feedback| - 1];
    ReportsKeep(units, before, i);
    if k < |before| {
      LastReportShows(units, before, i, k);
    } else {
      DisplayEndsInColour(FeedbackAll(units, before)[i].led, last.position, last.now0, last.now1);
    }
  }

  lemma {:induction false} ReportsKeep(units: seq<Unit>, feedback: seq<Feedback>, i: nat)
    requires i < |units|
    ensures var u, v := units[i], FeedbackAll(units, feedback)[i];
            && v.turnout == u.turnout.(position := v.turnout.position)
            && v.button == u.button && v.suppressed == u.suppressed
    decreases |feedback|
  {
    if feedback != [] { ReportsKeep(units, feedback[..|feedback| - 1], i); }
  }

  /** One turnout of the board: its name, and the clock each time it is read
      from construction to the end of the set-up. */
  datatype Boot = Boot(name: string, constructed: Millis, begun: Millis, cleared: (Millis, Millis),
                       shown: Millis, released: (Millis, Millis))

  function LedStarted(mode: Commissioning.BootMode, b: Boot): Pair
  {
    var led := Cleared(Constructed(Red, b.constructed).Begun(b.begun), b.cleared.0, b.cleared.1);
    var shown := led.IdentifyingSet(mode == Commissioning.WirelessSetup, b.shown);
    if mode == Commissioning.NeedsCommissioning
    then shown.GreenSet(false, b.released.0).RedSet(false, b.released.1) else shown
  }

  function UnitStarted(mode: Commissioning.BootMode, address: int, b: Boot): Unit
  {
    Unit(false, Debounce.RELEASED, TurnoutState(address, b.name, Closed, false, false), LedStarted(mode, b))
  }

  function UnitsStarted(mode: Commissioning.BootMode, boots: seq<Boot>): (units: seq<Unit>)
    ensures |units| == |boots|
    ensures forall i :: 0 <= i < |boots| ==> units[i] == UnitStarted(mode, i + 1, boots[i])
  {
    seq(|boots|, i requires 0 <= i < |boots| => UnitStarted(mode, i + 1, boots[i]))
  }

  /** A panel at the end of its set-up; stations are numbered from 1. */
  function Booted(c: Settings, boots: seq<Boot>): Panel
  {
    Panel(GuardState(false, ""), false, NOT_ANNOUNCED, Timer(false, 0), UnitsStarted(c.bootMode, boots))
  }

  method StartLed(mode: Commissioning.BootMode, b: Boot) returns (driver: IndependentLedPairDriver)
    ensures fresh(driver) && driver.Valid() && driver.blinkIntervalMs == BLINK_INTERVAL_MS
    ensures driver.State() == LedStarted(mode, b)
  {
    driver := new IndependentLedPairDriver(BLINK_INTERVAL_MS, Red, b.constructed);
    driver.Begin(b.begun);
    var indicator := new TurnoutIndicator(driver);
    indicator.Clear(b.cleared.0, b.cleared.1);
    driver.SetIdentifying(mode == Commissioning.WirelessSetup, b.shown);
    if mode == Commissioning.NeedsCommissioning {
      driver.SetGreen(false, b.released.0);
      driver.SetRed(false, b.released.1);
    }
  }

  ghost predicate Apart(a: ToggleTurnoutStation, b: ToggleTurnoutStation)
  {
    a.input != b.input && a.button != b.button && a.turnout != b.turnout && a.indicator.driver != b.indicator.driver
  }

  /** The units when a pass over the stations has done the first n. */
  function Halfway(before: seq<Unit>, after: seq<Unit>, n: nat): (r: seq<Unit>)
    requires n <= |before| == |after|
    ensures |r| == |before|
    ensures forall i :: 0 <= i < |r| ==> r[i] == if i < n then after[i] else before[i]
  {
    if n == 0 then before else Halfway(before, after, n - 1)[n - 1 := after[n - 1]]
  }

  method StartStation(mode: Commissioning.BootMode, address: int, b: Boot) returns (s: ToggleTurnoutStation)
    ensures s.Valid() && s.State() == UnitStarted(mode, address, b)
    ensures fresh(s.input) && fresh(s.button) && fresh(s.turnout) && fresh(s.indicator.driver)
  {
    var gate := new GatedDigitalInput();
    var led := StartLed(mode, b);
    s := new ToggleTurnoutStation(address, b.name, gate, led);
  }

  /** Every station has its own parts, and the gates and LED pairs are theirs. */
  ghost predicate Arranged(stations: seq<ToggleTurnoutStation>, gates: seq<GatedDigitalInput>,
                           leds: seq<IndependentLedPairDriver>, parts: set<object>)
  {
    && |gates| == |leds| == |stations|
    && (forall i :: 0 <= i < |stations| ==> stations[i].Within(parts))
    && (forall i :: 0 <= i < |stations| ==> gates[i] == stations[i].input && leds[i] == stations[i].indicator.driver)
    && (forall i, j :: 0 <= i < |stations| && 0 <= j < |stations| && i != j ==> Apart(stations[i], stations[j]))
  }

  lemma OneMoreArranged(stations: seq<ToggleTurnoutStation>, gates: seq<GatedDigitalInput>,
                        leds: seq<IndependentLedPairDriver>, parts: set<object>, s: ToggleTurnoutStation)
    requires Arranged(stations, gates, leds, parts)
    requires s.input !in parts && s.button !in parts && s.turnout !in parts && s.indicator.driver !in parts
    ensures Arranged(stations + [s], gates + [s.input], leds + [s.indicator.driver],
                     parts + {s.input, s.indicator.driver, s.button, s.turnout})
  {}

  method StartStations(mode: Commissioning.BootMode, boots: seq<Boot>)
    returns (all: seq<ToggleTurnoutStation>, gates: seq<GatedDigitalInput>, leds: seq<IndependentLedPairDriver>,
             ghost owned: set<object>)
    ensures |all| == |boots| && fresh(owned) && Arranged(all, gates, leds, owned)
    ensures forall i :: 0 <= i < |all| ==> all[i].Valid() && all[i].State() == UnitsStarted(mode, boots)[i]
  {
    all, gates, leds, owned := [], [], [], {};
    for i := 0 to |boots|
      invariant fresh(owned) && Arranged(all, gates, leds, owned)
      invariant |all| == i
      invariant forall j :: 0 <= j < i ==> all[j].Valid() && all[j].State() == UnitStarted(mode, j + 1, boots[j])
    {
      var s := StartStation(mode, i + 1, boots[i]);
      OneMoreArranged(all, gates, leds, owned, s);
      gates, leds, all := gates + [s.input], leds + [s.indicator.driver], all + [s];
      owned := owned + {s.input, s.indicator.driver, s.button, s.turnout};
    }
  }

  class PanelBoard {
    const settings: Settings
    const identityGuard: NodeIdentityGuard
    const presenceAnnouncer: MqttPresenceAnnouncer
    const gatedButtons: seq<GatedDigitalInput>
    const ledStations: seq<IndependentLedPairDriver>
    const stations: seq<ToggleTurnoutStation>
    var collisionLogged: bool
    var identifyTimer: Timer

    ghost const parts: set<object>   // what the stations are made of

    ghost predicate Wired()
    {
      && Arranged(stations, gatedButtons, ledStations, parts)
      && identityGuard !in parts && presenceAnnouncer !in parts && this !in parts
    }

    ghost predicate Valid()
      reads parts
    {
      && Wired()
      && identityGuard.ownMac == presenceAnnouncer.ownMac == settings.mac
      && presenceAnnouncer.nodeId == settings.nodeId
      && forall i :: 0 <= i < |stations| ==> stations[i].Valid()
    }

    ghost function Units(n: nat): (units: seq<Unit>)
      requires Wired() && n <= |stations|
      reads parts
      ensures |units| == n && forall i :: 0 <= i < n ==> units[i] == stations[i].State()
    {
      if n == 0 then [] else Units(n - 1) + [stations[n - 1].State()]
    }

    ghost function State(): Panel
      requires Wired()
      reads this, identityGuard, presenceAnnouncer, parts
    {
      Panel(identityGuard.State(), collisionLogged, presenceAnnouncer.State(), identifyTimer, Units(|stations|))
    }

    lemma UnitsAre(units: seq<Unit>)
      requires Wired() && |units| == |stations|
      requires forall i :: 0 <= i < |stations| ==> stations[i].State() == units[i]
      ensures Units(|stations|) == units
    {}

    /** When only the parts of one station changed, only its unit did. */
    twostate lemma OneChanged(i: nat)
      requires Wired() && i < |stations| && old(Valid()) && stations[i].Valid()
      requires forall j :: 0 <= j < |stations| && j != i ==> stations[j].Unchanged()
      ensures Valid() && Units(|stations|) == old(Units(|stations|))[i := stations[i].State()]
    {}

    constructor (settings: Settings, guard: NodeIdentityGuard, announcer: MqttPresenceAnnouncer,
                 gates: seq<GatedDigitalInput>, leds: seq<IndependentLedPairDriver>, all: seq<ToggleTurnoutStation>,
                 ghost owned: set<object>)
      ensures this.settings == settings && identityGuard == guard && presenceAnnouncer == announcer
      ensures gatedButtons == gates && ledStations == leds && stations == all && parts == owned
      ensures !collisionLogged && identifyTimer == Timer(false, 0)
    {
      this.settings, identityGuard, presenceAnnouncer := settings, guard, announcer;
      gatedButtons, ledStations, stations, parts := gates, leds, all, owned;
      collisionLogged, identifyTimer := false, Timer(false, 0);
    }

    method SuppressOne(i: nat, value: bool)
      requires Valid() && i < |stations|
      modifies parts
      ensures Valid()
      ensures Units(|stations|) == old(Units(|stations|))[i := old(Units(|stations|))[i].(suppressed := value)]
    {
      gatedButtons[i].SetSuppressed(value);
      OneChanged(i);
    }

    method SuppressAll(value: bool)
      requires Valid()
      modifies parts
      ensures Valid() && Units(|stations|) == Suppressed(old(Units(|stations|)), value)
    {
      ghost var before := Units(|stations|);
      ghost var after := Suppressed(before, value);
      for i := 0 to |gatedButtons|
        invariant Valid() && Units(|stations|) == Halfway(before, after, i)
      {
        SuppressOne(i, value);
      }
    }

    method ApplyToOne(i: nat, f: Feedback)
      requires Valid() && i < |stations|
      modifies parts
      ensures Valid() && Units(|stations|) == old(Units(|stations|))[i := FeedbackApplied(old(Units(|stations|))[i], f)]
    {
      stations[i].ApplyFeedback(f);
      OneChanged(i);
    }

    method ApplyToAll(f: Feedback)
      requires Valid()
      modifies parts
      ensures Valid() && Units(|stations|) == FeedbackOne(old(Units(|stations|)), f)
    {
      ghost var before := Units(|stations|);
      ghost var after := FeedbackOne(before, f);
      for i := 0 to |stations|
        invariant Valid() && Units(|stations|) == Halfway(before, after, i)
      {
        ApplyToOne(i, f);
      }
    }

    method ApplyFeedback(feedback: seq<Feedback>)
      requires Valid()
      modifies parts
      ensures Valid() && Units(|stations|) == FeedbackAll(old(Units(|stations|)), feedback)
    {
      ghost var before := Units(|stations|);
      for i := 0 to |feedback|
        invariant Valid() && Units(|stations|) == FeedbackAll(before, feedback[..i])
      {
        assert feedback[..i + 1][..i] == feedback[..i];
        ApplyToAll(feedback[i]);
      }
      assert feedback[..|feedback|] == feedback;
    }

    method ClearOne(i: nat, at: (Millis, Millis))
      requires Valid() && i < |stations|
      modifies parts
      ensures Valid() && Units(|stations|) == old(Units(|stations|))[i := ClearedOne(old(Units(|stations|))[i], at)]
    {
      stations[i].ClearIndicator(at);
      OneChanged(i);
    }

    method ClearAll(at: seq<(Millis, Millis)>)
      requires Valid() && |at| == |stations|
      modifies parts
      ensures Valid() && Units(|stations|) == ClearedAll(old(Units(|stations|)), at)
    {
      ghost var before := Units(|stations|);
      ghost var after := ClearedAll(before, at);
      for i := 0 to |stations|
        invariant Valid() && Units(|stations|) == Halfway(before, after, i)
      {
        ClearOne(i, at[i]);
      }
    }

    method IdentifyOne(i: nat, active: bool, at: Millis)
      requires Valid() && i < |stations|
      modifies parts
      ensures Valid()
      ensures Units(|stations|) == old(Units(|stations|))[i := IdentifiedOne(old(Units(|stations|))[i], active, at)]
    {
      ledStations[i].SetIdentifying(active, at);
      OneChanged(i);
    }

    method IdentifyAll(active: bool, at: seq<Millis>)
      requires Valid() && |at| == |stations|
      modifies parts
      ensures Valid() && Units(|stations|) == IdentifiedAll(old(Units(|stations|)), active, at)
    {
      ghost var before := Units(|stations|);
      ghost var after := IdentifiedAll(before, active, at);
      for i := 0 to |ledStations|
        invariant Valid() && Units(|stations|) == Halfway(before, after, i)
      {
        IdentifyOne(i, active, at[i]);
      }
    }

    method BlinkOne(i: nat, at: Millis)
      requires Valid() && i < |stations|
      modifies parts
      ensures Valid() && Units(|stations|) == old(Units(|stations|))[i := BlinkedOne(old(Units(|stations|))[i], at)]
    {
      ledStations[i].Update(at);
      OneChanged(i);
    }

    method BlinkAll(at: seq<Millis>)
      requires Valid() && |at| == |stations|
      modifies parts
      ensures Valid() && Units(|stations|) == BlinkedAll(old(Units(|stations|)), at)
    {
      ghost var before := Units(|stations|);
      ghost var after := BlinkedAll(before, at);
      for i := 0 to |ledStations|
        invariant Valid() && Units(|stations|) == Halfway(before, after, i)
      {
        BlinkOne(i, at[i]);
      }
    }

    method UpdateStation(i: nat, raw: bool, at: (Millis, Millis)) returns (sent: seq<TurnoutCommand>)
      requires Valid() && i < |stations|
      modifies parts
      ensures Valid()
      ensures Units(|stations|) == old(Units(|stations|))[i := StationUpdated(old(Units(|stations|))[i], raw, at)]
      ensures sent == StationSends(StationUpdated(old(Units(|stations|))[i], raw, at))
    {
      sent := stations[i].Update(raw, at);
      OneChanged(i);
    }

    method UpdateStations(raw: seq<bool>, at: seq<(Millis, Millis)>) returns (sent: seq<TurnoutCommand>)
      requires Valid() && |raw| == |at| == |stations|
      modifies parts
      ensures Valid() && Units(|stations|) == StationsUpdated(old(Units(|stations|)), raw, at)
      ensures sent == SentBy(Units(|stations|), |stations|)
    {
      ghost var before := Units(|stations|);
      ghost var after := StationsUpdated(before, raw, at);
      sent := [];
      for i := 0 to |stations|
        invariant Valid() && Units(|stations|) == Halfway(before, after, i)
        invariant sent == SentBy(after, i)
      {
        var more := UpdateStation(i, raw[i], at[i]);
        sent := sent + more;
      }
    }

    method Publish(commands: seq<TurnoutCommand>) returns (messages: seq<Message>)
      ensures messages == MessagesOf(settings.channels, commands)
    {
      messages := [];
      for i := 0 to |commands|
        invariant messages == MessagesOf(settings.channels, commands[..i])
      {
        assert commands[..i + 1][..i] == commands[..i];
        messages := messages + CommandMessages(settings.channels, commands[i]);
      }
      assert commands[..|commands|] == commands;
    }

    /** What the subscriptions make of the delivered messages. */
    method Deliver(deliveries: seq<Delivery>)
      requires Valid()
      modifies identityGuard, this`identifyTimer
      ensures (identityGuard.State(), identifyTimer)
              == DeliveredAll(settings, old(identityGuard.State()), old(identifyTimer), deliveries)
    {
      ghost var guard, timer := identityGuard.State(), identifyTimer;
      for i := 0 to |deliveries|
        invariant (identityGuard.State(), identifyTimer) == DeliveredAll(settings, guard, timer, deliveries[..i])
      {
        assert deliveries[..i + 1][..i] == deliveries[..i];
        var d := deliveries[i];
        if d.message.topic == MacTopic(settings.nodeId) {
          identityGuard.OnMacObserved(d.message.payload);
        }
        if d.message.topic == IdentifyTopic(settings.nodeId) {
          identifyTimer := Timer(true, d.now);
        }
      }
      assert deliveries[..|deliveries|] == deliveries;
    }

    method Loop(inp: Input) returns (out: Output)
      requires Valid() && inp.Fits(|stations|)
      modifies this, identityGuard, presenceAnnouncer, parts
      ensures Valid() && (State(), out) == Iterated(settings, old(State()), inp)
    {
      if inp.serialReboot {
        return Output([], [], true);
      }
      if settings.bootMode == Commissioning.WirelessSetup {
        BlinkAll(inp.blinked);
        return Output([], [], false);
      }
      out := LoopNormally(inp);
    }

    method LoopNormally(inp: Input) returns (out: Output)
      requires Valid() && inp.Fits(|stations|)
      modifies this, identityGuard, presenceAnnouncer, parts
      ensures Valid() && (State(), out) == IteratedNormally(settings, old(State()), inp)
    {
      var collision := identityGuard.collisionDetected;
      out := RunTop(collision, inp);
      if out.restarted {
        return;
      }
      var announced := RunLinks(inp);
      var messages := RunAndPublish(collision, inp);
      out := out.(published := announced + messages);
    }

    /** From the collision notice to the request for wireless setup. */
    method RunTop(collision: bool, inp: Input) returns (out: Output)
      requires Valid() && collision == identityGuard.collisionDetected
      modifies this`collisionLogged, parts
      ensures Valid() && (State(), out) == Top(settings, old(State()), inp)
    {
      var log: seq<Notice> := [];
      if collision && !collisionLogged {
        log := [CollisionDetected(settings.mac, identityGuard.lastForeignMac)];
        collisionLogged := true;
      }
      SuppressAll(collision);
      if !inp.setupRequested {
        return Output([], log, false);
      }
      out := if inp.setupStored then Output([], log + [EnteringSetup], true)
             else Output([], log + [SetupNotStored], false);
    }

    method PollLinks(inp: Input)
      requires Valid()
      modifies this`identifyTimer, identityGuard
      ensures Valid() && State() == Polled(settings, old(State()), inp)
    {
      if settings.configValid && inp.wifiConnected {
        Deliver(inp.delivered);
      }
    }

    method RunLinks(inp: Input) returns (announced: seq<Message>)
      requires Valid()
      modifies this`identifyTimer, identityGuard, presenceAnnouncer
      ensures Valid() && (State(), announced) == Linked(settings, old(State()), inp)
    {
      PollLinks(inp);
      announced := Announce(inp);
    }

    method Announce(inp: Input) returns (announced: seq<Message>)
      requires Valid()
      modifies presenceAnnouncer
      ensures Valid()
      ensures State() == old(State()).(announcer := AnnouncerUpdated(old(State()).announcer, inp.announceConnected,
                                                                     inp.announceChecked, inp.announceStamped))
      ensures announced == if AnnouncementDue(old(State()).announcer, inp.announceConnected, inp.announceChecked)
                           then Announcement(settings.nodeId, settings.mac) else []
    {
      announced := presenceAnnouncer.Update(inp.announceConnected, inp.announceChecked, inp.announceStamped);
    }

    method RunAndPublish(collision: bool, inp: Input) returns (messages: seq<Message>)
      requires Valid() && inp.Fits(|stations|)
      modifies parts
      ensures Valid()
      ensures var before := old(State());
              var units := StationsRun(settings, before.identify, before.units, collision, inp);
              State() == before.(units := units) && messages == MessagesOf(settings.channels, SentBy(units, |units|))
    {
      var sent := RunStations(collision, inp);
      messages := Publish(sent);
    }

    /** The statements of the loop that follow the announcement. */
    method RunStations(collision: bool, inp: Input) returns (sent: seq<TurnoutCommand>)
      requires Valid() && inp.Fits(|stations|)
      modifies parts
      ensures Valid()
      ensures Units(|stations|) == StationsRun(settings, identifyTimer, old(Units(|stations|)), collision, inp)
      ensures sent == SentBy(Units(|stations|), |stations|)
    {
      if settings.configValid && inp.feedbackConnected && !collision {
        ApplyFeedback(inp.feedback);
      } else {
        ClearAll(inp.cleared);
      }
      if settings.bootMode == Commissioning.Normal {
        IdentifyAll(TimerActive(identifyTimer, inp.identifyRead), inp.identified);
      }
      BlinkAll(inp.blinked);
      sent := UpdateStations(inp.raw, inp.debounced);
    }
  }

  /** A board from its first object to the end of the set-up. */
  method BootBoard(settings: Settings, boots: seq<Boot>) returns (board: PanelBoard)
    ensures fresh(board) && board.Valid() && board.settings == settings
    ensures board.State() == Booted(settings, boots)
  {
    var guard := new NodeIdentityGuard(settings.mac);
    var announcer := new MqttPresenceAnnouncer(settings.nodeId, settings.mac);
    var all, gates, leds, owned := StartStations(settings.bootMode, boots);
    board := new PanelBoard(settings, guard, announcer, gates, leds, all, owned);
    assert board.Wired();
    forall i | 0 <= i < |boots| ensures all[i].Valid() && all[i].State() == UnitsStarted(settings.bootMode, boots)[i] {}
    board.UnitsAre(UnitsStarted(settings.bootMode, boots));
  }
}
