/** Executing a route over LocoNet: its commands are sent one at a time, spaced
    out so that each one's pulse can finish before the next begins. */
module RouteExecution {
  import opened Clock
  import opened Turnouts
  import opened Routes
  import opened LocoNetPulse

  const LOCONET_PULSE_DURATION_MS: Millis := 250
  const ROUTE_COMMAND_SPACING_MS: Millis := 300

  datatype Exec = Exec(active: bool, next: nat, lastSend: Millis)

  /** Starting a route with these commands: the new state, and what is sent. */
  function Started(e: Exec, commands: seq<TurnoutCommand>, now: Millis): (Exec, seq<TurnoutCommand>)
  {
    if commands == [] then (e.(active := false), [])
    else if |commands| == 1 then (Exec(false, 1, e.lastSend), [commands[0]])
    else (Exec(true, 1, now), [commands[0]])
  }

  /** The active route has a command left, and its time has come. */
  predicate SendDue(e: Exec, commands: seq<TurnoutCommand>, spacing: Millis, checked: Millis)
  {
    e.active && e.next < |commands| && Since(checked, e.lastSend) >= spacing
  }

  function Stepped(e: Exec, commands: seq<TurnoutCommand>, spacing: Millis, checked: Millis,
                   now: Millis): (Exec, seq<TurnoutCommand>)
  {
    if !e.active then (e, [])
    else if e.next >= |commands| then (e.(active := false), [])
    else if !SendDue(e, commands, spacing, checked) then (e, [])
    else if e.next + 1 >= |commands| then (Exec(false, e.next + 1, e.lastSend), [commands[e.next]])
    else (Exec(true, e.next + 1, now), [commands[e.next]])
  }

  /** What sending these commands (at most one) does to the transport. */
  function Transmitted(p: Pulser, pulse: Millis, commands: seq<TurnoutCommand>, now: Millis): (Pulser, seq<Request>)
  {
    if commands == [] then (p, []) else Sent(p, pulse, commands[0], now)
  }

  class RouteExecutionService {
    const transport: PulsingLocoNetTransport
    const commandSpacingMs: Millis
    var activeRoute: Route?
    var nextCommandIndex: nat
    var lastSendAtMs: Millis

    function State(): Exec
      reads this
    {
      Exec(IsRunning(), nextCommandIndex, lastSendAtMs)
    }

    predicate IsRunning()
      reads this
    {
      activeRoute != null
    }

    constructor (transport: PulsingLocoNetTransport, spacing: Millis)
      ensures this.transport == transport && commandSpacingMs == spacing && State() == Exec(false, 0, 0)
    {
      this.transport, commandSpacingMs := transport, spacing;
      activeRoute, nextCommandIndex, lastSendAtMs := null, 0, 0;
    }

    /** The clock is read by the transport when it sends, and then here. */
    method Start(route: Route, stamped: Millis, now: Millis)
      requires route.Valid()
      modifies this, transport, transport.driver
      ensures var (e, sent) := Started(old(State()), route.Commands(), now);
              var (p, requests) := Transmitted(old(transport.State()), transport.pulseDurationMs, sent, stamped);
              && State() == e && transport.State() == p
              && transport.driver.requests == old(transport.driver.requests) + requests
      ensures activeRoute != null ==> activeRoute == route
    {
      if route.commandCount == 0 {
        activeRoute := null;
        return;
      }
      activeRoute := route;
      nextCommandIndex := 0;
      var firstCommand := route.commands[nextCommandIndex];
      transport.SendPacket(firstCommand, stamped);
      nextCommandIndex := nextCommandIndex + 1;
      if nextCommandIndex >= route.commandCount {
        activeRoute := null;
        return;
      }
      lastSendAtMs := now;
    }

    method Update(checked: Millis, stamped: Millis, now: Millis)
      requires activeRoute != null ==> activeRoute.Valid()
      modifies this, transport, transport.driver
      ensures var commands := if old(activeRoute) == null then [] else old(activeRoute.Commands());
              var (e, sent) := Stepped(old(State()), commands, commandSpacingMs, checked, now);
              var (p, requests) := Transmitted(old(transport.State()), transport.pulseDurationMs, sent, stamped);
              && State() == e && transport.State() == p
              && transport.driver.requests == old(transport.driver.requests) + requests
      ensures activeRoute == null || activeRoute == old(activeRoute)
    {
      if activeRoute == null {
        return;
      }
      if nextCommandIndex >= activeRoute.commandCount {
        activeRoute := null;
        return;
      }
      if Since(checked, lastSendAtMs) < commandSpacingMs {
        return;
      }
      var command := activeRoute.commands[nextCommandIndex];
      transport.SendPacket(command, stamped);
      nextCommandIndex := nextCommandIndex + 1;
      if nextCommandIndex >= activeRoute.commandCount {
        activeRoute := null;
        return;
      }
      lastSendAtMs := now;
    }
  }

  // ------------------------------------------------------------------- runs

  /** What happens after a route was started, in real time: a command is appended
      to the route, the transport is updated, or the service is. A send is seen
      by the driver at offAt and onAt; the clock is read at the other times. */
  datatype Event =
    | Append(command: TurnoutCommand)
    | TransportUpdate(checkedAt: nat, offAt: nat)
    | RouteUpdate(checkedAt: nat, offAt: nat, onAt: nat, stampedAt: nat, notedAt: nat)
  {
    ghost predicate InOrder()
    {
      match this
      case Append(_) => true
      case TransportUpdate(checkedAt, offAt) => checkedAt <= offAt
      case RouteUpdate(checkedAt, offAt, onAt, stampedAt, notedAt) => checkedAt <= offAt <= onAt <= stampedAt <= notedAt
    }
  }

  /** The service, the route it executes, what has been done with the transport,
      and the real time of the last event and of the service's last note. */
  datatype Board = Board(exec: Exec, commands: seq<TurnoutCommand>, uses: seq<Use>, now: nat, noted: nat)

  function StartedBoard(e: Exec, commands: seq<TurnoutCommand>, start: Event): Board
    requires start.RouteUpdate?
  {
    var (f, sent) := Started(e, commands, Reading(start.notedAt));
    Board(f, commands,
          if sent == [] then [] else [Send(sent[0], start.offAt, start.onAt, start.stampedAt)],
          start.notedAt, start.notedAt)
  }

  function Happened(b: Board, spacing: Millis, e: Event): Board
  {
    match e
    case Append(command) => b.(commands := b.commands + [command])
    case TransportUpdate(checkedAt, offAt) =>
      b.(uses := b.uses + [LocoNetPulse.Update(checkedAt, offAt)], now := offAt)
    case RouteUpdate(checkedAt, offAt, onAt, stampedAt, notedAt) =>
      var (f, sent) := Stepped(b.exec, b.commands, spacing, Reading(checkedAt), Reading(notedAt));
      if sent == [] then b.(exec := f, now := notedAt)
      else Board(f, b.commands, b.uses + [Send(sent[0], offAt, onAt, stampedAt)], notedAt, notedAt)
  }

  function Later(b: Board, spacing: Millis, events: seq<Event>): Board
    decreases |events|
  {
    if events == [] then b
    else Happened(Later(b, spacing, events[..|events| - 1]), spacing, events[|events| - 1])
  }

  function EventBegin(e: Event, now: nat): nat { if e.Append? then now else e.checkedAt }

  ghost predicate Timely(b: Board, spacing: Millis, events: seq<Event>)
    decreases |events|
  {
    events == [] ||
    var before, e := events[..|events| - 1], events[|events| - 1];
    Timely(b, spacing, before) && e.InOrder()
    && Later(b, spacing, before).now <= EventBegin(e, Later(b, spacing, before).now)
  }

  function SentCommands(uses: seq<Use>): seq<TurnoutCommand>
    decreases |uses|
  {
    if uses == [] then []
    else SentCommands(uses[..|uses| - 1]) + if uses[|uses| - 1].Send? then [uses[|uses| - 1].command] else []
  }

  /** A send comes at least the spacing after the one before it, in real time. */
  ghost predicate Spaced(uses: seq<Use>, spacing: Millis)
  {
    forall i, j :: 0 <= i < j < |uses| && uses[i].Send? && uses[j].Send? ==> uses[j].offAt - uses[i].onAt >= spacing
  }

  ghost predicate EndedBy(uses: seq<Use>, t: nat) { forall i :: 0 <= i < |uses| ==> uses[i].End() <= t }

  ghost predicate SentBy(uses: seq<Use>, t: nat)
  {
    forall i :: 0 <= i < |uses| && uses[i].Send? ==> uses[i].stampedAt <= t
  }

  ghost predicate Invariant(b: Board, spacing: Millis)
  {
    && Chronological(b.uses) && Spaced(b.uses, spacing)
    && b.exec.next <= |b.commands| && SentCommands(b.uses) == b.commands[..b.exec.next]
    && b.noted <= b.now && EndedBy(b.uses, b.now)
    && (b.exec.active ==> b.exec.lastSend == Reading(b.noted) && SentBy(b.uses, b.noted))
  }

  lemma StartInvariant(e: Exec, commands: seq<TurnoutCommand>, spacing: Millis, start: Event)
    requires start.RouteUpdate? && start.InOrder() && commands != []
    ensures Invariant(StartedBoard(e, commands, start), spacing)
  {
    var b := StartedBoard(e, commands, start);
    assert b.uses[..0] == [];
    assert SentCommands(b.uses) == [commands[0]] == b.commands[..1];
  }

  lemma OneMoreUse(uses: seq<Use>, u: Use, noted: nat, now: nat)
    requires Chronological(uses) && EndedBy(uses, u.Begin()) && u.End() <= now
    requires if u.Send? then u.offAt <= u.onAt <= u.stampedAt else u.checkedAt <= u.offAt
    ensures Chronological(uses + [u]) && EndedBy(uses + [u], now) && SentBy(uses + [u], now)
    ensures u.Update? && SentBy(uses, noted) ==> SentBy(uses + [u], noted)
  {}

  lemma OneMoreSent(uses: seq<Use>, u: Use)
    ensures SentCommands(uses + [u]) == SentCommands(uses) + if u.Send? then [u.command] else []
  {
    assert (uses + [u])[..|uses|] == uses;
  }

  lemma SendKeepsSpacing(uses: seq<Use>, spacing: Millis, u: Use, noted: nat)
    requires Chronological(uses) && Spaced(uses, spacing) && u.Send? && u.offAt - noted >= spacing
    requires SentBy(uses, noted)
    ensures Spaced(uses + [u], spacing)
  {}

  lemma SendStep(b: Board, spacing: Millis, e: Event)
    requires Invariant(b, spacing) && e.RouteUpdate? && e.InOrder() && b.now <= e.checkedAt
    requires SendDue(b.exec, b.commands, spacing, Reading(e.checkedAt))
    ensures Invariant(Happened(b, spacing, e), spacing)
  {
    SinceIsElapsed(b.noted, e.checkedAt);
    assert e.offAt - b.noted >= spacing;
    var u := Send(b.commands[b.exec.next], e.offAt, e.onAt, e.stampedAt);
    OneMoreUse(b.uses, u, b.noted, e.notedAt);
    OneMoreSent(b.uses, u);
    SendKeepsSpacing(b.uses, spacing, u, b.noted);
    assert b.commands[..b.exec.next + 1] == b.commands[..b.exec.next] + [b.commands[b.exec.next]];
  }

  lemma AppendStep(b: Board, spacing: Millis, e: Event)
    requires Invariant(b, spacing) && e.Append?
    ensures Invariant(Happened(b, spacing, e), spacing)
  {
    assert (b.commands + [e.command])[..b.exec.next] == b.commands[..b.exec.next];
  }

  lemma UpdateKeepsSpacing(uses: seq<Use>, spacing: Millis, u: Use)
    requires Spaced(uses, spacing) && u.Update?
    ensures Spaced(uses + [u], spacing)
  {}

  lemma TransportStep(b: Board, spacing: Millis, e: Event)
    requires Invariant(b, spacing) && e.TransportUpdate? && e.InOrder() && b.now <= e.checkedAt
    ensures Invariant(Happened(b, spacing, e), spacing)
  {
    var u := LocoNetPulse.Update(e.checkedAt, e.offAt);
    OneMoreUse(b.uses, u, b.noted, e.offAt);
    OneMoreSent(b.uses, u);
    UpdateKeepsSpacing(b.uses, spacing, u);
  }

  lemma KeepsInvariant(b: Board, spacing: Millis, e: Event)
    requires Invariant(b, spacing) && e.InOrder() && b.now <= EventBegin(e, b.now)
    ensures Invariant(Happened(b, spacing, e), spacing)
  {
    match e {
      case Append(_) => AppendStep(b, spacing, e);
      case TransportUpdate(_, _) => TransportStep(b, spacing, e);
      case RouteUpdate(_, _, _, _, _) =>
        if SendDue(b.exec, b.commands, spacing, Reading(e.checkedAt)) { SendStep(b, spacing, e); }
    }
  }

  /** Since the last start, the commands sent are exactly the first
      nextCommandIndex of the route, in order, even if the route grows; and each
      is sent at least the spacing after the one before, across wrap-arounds. */
  lemma {:induction false} AlwaysInvariant(e: Exec, commands: seq<TurnoutCommand>, spacing: Millis,
                                           start: Event, events: seq<Event>)
    requires start.RouteUpdate? && start.InOrder() && commands != []
    requires Timely(StartedBoard(e, commands, start), spacing, events)
    ensures Invariant(Later(StartedBoard(e, commands, start), spacing, events), spacing)
    decreases |events|
  {
    if events == [] {
      StartInvariant(e, commands, spacing, start);
    } else {
      var n := |events| - 1;
      AlwaysInvariant(e, commands, spacing, start, events[..n]);
      KeepsInvariant(Later(StartedBoard(e, commands, start), spacing, events[..n]), spacing, events[n]);
    }
  }

  /** Starting an empty route sends nothing, but leaves the index of the route
      before: only then does the index not count what was sent. */
  lemma EmptyStartKeepsIndex(e: Exec, commands: seq<TurnoutCommand>, now: Millis)
    ensures var (f, sent) := Started(e, commands, now);
            (f.next <= |commands| && sent == commands[..f.next]) <==> (commands != [] || e.next == 0)
  {
    var (f, sent) := Started(e, commands, now);
    if commands != [] { assert sent == commands[..1]; }
  }

  /** So after a route of one command and then an empty one, the index says that
      one command of the empty route was sent. */
  lemma EmptyStartAfterRoute(e: Exec, command: TurnoutCommand, now: Millis, later: Millis)
    ensures var (f, sent) := Started(Started(e, [command], now).0, [], later);
            f.next == 1 && sent == [] && !f.active
  {}

  /** Each due update sends one command more, and the route runs for as long as
      commands are left. */
  lemma DueUpdateProgresses(e: Exec, commands: seq<TurnoutCommand>, spacing: Millis, checked: Millis, now: Millis)
    requires SendDue(e, commands, spacing, checked)
    ensures var (f, sent) := Stepped(e, commands, spacing, checked, now);
            && |commands| - f.next < |commands| - e.next
            && (f.active <==> f.next < |commands|)
            && sent == [commands[e.next]]
  {}

  /** In every run, an update of the service sends the next command exactly if the
      service runs, commands are left and the spacing has passed since the note
      of the last send, as the clock tells it. */
  lemma SendsExactlyWhenSpaced(e: Exec, commands: seq<TurnoutCommand>, spacing: Millis, start: Event,
                               events: seq<Event>, u: Event)
    requires start.RouteUpdate? && start.InOrder() && commands != [] && u.RouteUpdate? && u.InOrder()
    requires Timely(StartedBoard(e, commands, start), spacing, events)
    requires Later(StartedBoard(e, commands, start), spacing, events).now <= u.checkedAt
    ensures var b := Later(StartedBoard(e, commands, start), spacing, events);
            Happened(b, spacing, u).uses
            == b.uses + if b.exec.active && b.exec.next < |b.commands| && (u.checkedAt - b.noted) % PERIOD >= spacing
                        then [Send(b.commands[b.exec.next], u.offAt, u.onAt, u.stampedAt)] else []
  {
    AlwaysInvariant(e, commands, spacing, start, events);
    var b := Later(StartedBoard(e, commands, start), spacing, events);
    SinceIsElapsed(b.noted, u.checkedAt);
  }

  lemma {:induction false} SendsAreTheCommands(uses: seq<Use>)
    ensures |Sends(uses)| == |SentCommands(uses)|
    ensures forall k :: 0 <= k < |Sends(uses)| ==>
              Sends(uses)[k].0 == SentCommands(uses)[k].address && Sends(uses)[k].1 == SentCommands(uses)[k].position
    decreases |uses|
  {
    if uses != [] { SendsAreTheCommands(uses[..|uses| - 1]); }
  }

  /** So over every run the driver has switched on exactly the first nextCommandIndex
      turnouts of the route, in order, each to its commanded position. */
  lemma DriverSeesRoute(e: Exec, commands: seq<TurnoutCommand>, spacing: Millis, pulse: Millis,
                        start: Event, events: seq<Event>)
    requires start.RouteUpdate? && start.InOrder() && commands != []
    requires Timely(StartedBoard(e, commands, start), spacing, events)
    ensures var b := Later(StartedBoard(e, commands, start), spacing, events);
            var ons := Ons(After(pulse, b.uses).trace);
            && |ons| == b.exec.next <= |b.commands|
            && forall k :: 0 <= k < |ons| ==>
                 ons[k].0 == b.commands[k].address && ons[k].1 == b.commands[k].position
  {
    AlwaysInvariant(e, commands, spacing, start, events);
    var b := Later(StartedBoard(e, commands, start), spacing, events);
    DriverSeesSends(pulse, b.uses);
    SendsAreTheCommands(b.uses);
    assert SentCommands(b.uses) == b.commands[..b.exec.next];
  }

  ghost predicate NothingAppended(events: seq<Event>) { forall i :: 0 <= i < |events| ==> !events[i].Append? }

  /** If nothing is appended, the service runs exactly while commands are left. */
  lemma {:induction false} RunsWhileCommandsLeft(e: Exec, commands: seq<TurnoutCommand>, spacing: Millis,
                                                 start: Event, events: seq<Event>)
    requires start.RouteUpdate? && commands != [] && NothingAppended(events)
    ensures var b := Later(StartedBoard(e, commands, start), spacing, events);
            && b.commands == commands && b.exec.next <= |commands|
            && (b.exec.active <==> b.exec.next < |commands|)
    decreases |events|
  {
    if events != [] { RunsWhileCommandsLeft(e, commands, spacing, start, events[..|events| - 1]); }
  }

  /** So when it has stopped, it has sent the whole route, and not before. */
  lemma WholeRouteSent(e: Exec, commands: seq<TurnoutCommand>, spacing: Millis, start: Event, events: seq<Event>)
    requires start.RouteUpdate? && start.InOrder() && commands != [] && NothingAppended(events)
    requires Timely(StartedBoard(e, commands, start), spacing, events)
    ensures var b := Later(StartedBoard(e, commands, start), spacing, events);
            !b.exec.active <==> SentCommands(b.uses) == commands
  {
    AlwaysInvariant(e, commands, spacing, start, events);
    RunsWhileCommandsLeft(e, commands, spacing, start, events);
    var b := Later(StartedBoard(e, commands, start), spacing, events);
    assert commands[..|commands|] == commands;
    assert |SentCommands(b.uses)| == b.exec.next;
  }

  // --------------------------------------------------------- full pulses

  /** While a pulse is pending, the last entry of the trace is the ON of a send. */
  lemma {:induction false} PendingIsASend(pulse: Millis, uses: seq<Use>)
    ensures var r := After(pulse, uses);
            r.pulser.pending ==>
              r.trace != []
              && exists i :: 0 <= i < |uses| && uses[i].Send? && r.trace[|r.trace| - 1].at == uses[i].onAt
    decreases |uses|
  {
    if uses != [] {
      var n := |uses| - 1;
      PendingIsASend(pulse, uses[..n]);
      var r, before := After(pulse, uses), After(pulse, uses[..n]);
      if uses[n].Send? {
        assert r.trace[|r.trace| - 1].at == uses[n].onAt;
      } else if r.pulser.pending {
        assert r.trace == before.trace;
        var i :| 0 <= i < n && uses[..n][i].Send? && before.trace[|before.trace| - 1].at == uses[..n][i].onAt;
        assert uses[..n][i] == uses[i];
      }
    }
  }

  lemma SpacedIsNotCutShort(uses: seq<Use>, spacing: Millis, pulse: Millis)
    requires Spaced(uses, spacing) && pulse <= spacing
    ensures NotCutShort(uses, pulse)
  {
    forall i | 0 <= i < |uses| && uses[i].Send?
      ensures SentInTime(After(pulse, uses[..i]), uses[i], pulse)
    {
      PendingIsASend(pulse, uses[..i]);
    }
  }

  /** A route that is the only sender never truncates a pulse: if commands are
      spaced no closer than a pulse lasts, every OFF comes at least the pulse
      duration after its ON, whenever the loop gets to run its updates. */
  lemma RoutePulsesComplete(e: Exec, commands: seq<TurnoutCommand>, spacing: Millis, pulse: Millis,
                            start: Event, events: seq<Event>)
    requires 0 < pulse <= spacing
    requires start.RouteUpdate? && start.InOrder() && commands != []
    requires Timely(StartedBoard(e, commands, start), spacing, events)
    requires NonWrapping(Later(StartedBoard(e, commands, start), spacing, events).uses, pulse)
    ensures FullPulses(After(pulse, Later(StartedBoard(e, commands, start), spacing, events).uses).trace, pulse)
  {
    AlwaysInvariant(e, commands, spacing, start, events);
    var uses := Later(StartedBoard(e, commands, start), spacing, events).uses;
    SpacedIsNotCutShort(uses, spacing, pulse);
    FullUnlessCutShort(pulse, uses);
  }

  // --------------------------------------------------------------- the board

  /** An update of the service, with the times of what it may do. */
  datatype ServiceUpdate = ServiceUpdate(checkedAt: nat, offAt: nat, onAt: nat, stampedAt: nat, notedAt: nat)
  {
    function Happening(): Event { RouteUpdate(checkedAt, offAt, onAt, stampedAt, notedAt) }
  }

  /** The part of an iteration of the board's loop that concerns routes: the
      transport is updated first, the route execution service last. */
  datatype Iteration = Iteration(polledAt: nat, releasedAt: nat, service: ServiceUpdate)

  /** What follows the start of a route: the update of the service at the end of
      the same iteration, and the iterations after that. */
  function BoardEvents(first: ServiceUpdate, iterations: seq<Iteration>): seq<Event>
  {
    if iterations == [] then [first.Happening()]
    else
      var last := iterations[|iterations| - 1];
      BoardEvents(first, iterations[..|iterations| - 1])
      + [TransportUpdate(last.polledAt, last.releasedAt), last.service.Happening()]
  }

  lemma {:induction false} BoardAppendsNothing(first: ServiceUpdate, iterations: seq<Iteration>)
    ensures NothingAppended(BoardEvents(first, iterations))
    decreases |iterations|
  {
    if iterations != [] { BoardAppendsNothing(first, iterations[..|iterations| - 1]); }
  }

  /** A run of the board's loop with its constants: no pulse is truncated, and the
      service stops exactly when the whole route was sent. */
  lemma BoardRunsRoute(e: Exec, commands: seq<TurnoutCommand>, start: Event, first: ServiceUpdate,
                       iterations: seq<Iteration>)
    requires start.RouteUpdate? && start.InOrder() && commands != []
    requires Timely(StartedBoard(e, commands, start), ROUTE_COMMAND_SPACING_MS, BoardEvents(first, iterations))
    ensures var b := Later(StartedBoard(e, commands, start), ROUTE_COMMAND_SPACING_MS, BoardEvents(first, iterations));
            && (!b.exec.active <==> SentCommands(b.uses) == commands)
            && (NonWrapping(b.uses, LOCONET_PULSE_DURATION_MS) ==>
                  FullPulses(After(LOCONET_PULSE_DURATION_MS, b.uses).trace, LOCONET_PULSE_DURATION_MS))
  {
    var events := BoardEvents(first, iterations);
    BoardAppendsNothing(first, iterations);
    WholeRouteSent(e, commands, ROUTE_COMMAND_SPACING_MS, start, events);
    var b := Later(StartedBoard(e, commands, start), ROUTE_COMMAND_SPACING_MS, events);
    if NonWrapping(b.uses, LOCONET_PULSE_DURATION_MS) {
      RoutePulsesComplete(e, commands, ROUTE_COMMAND_SPACING_MS, LOCONET_PULSE_DURATION_MS, start, events);
    }
  }

  /** With a second sender the guarantee is gone: a station button pressed 10 ms
      after a route command truncates that command's pulse. */
  lemma SecondSenderTruncates(routeCommand: TurnoutCommand, buttonCommand: TurnoutCommand)
    ensures var uses := [Send(routeCommand, 0, 0, 0), Send(buttonCommand, 10, 10, 10)];
            && Chronological(uses) && NonWrapping(uses, LOCONET_PULSE_DURATION_MS)
            && !FullPulses(After(LOCONET_PULSE_DURATION_MS, uses).trace, LOCONET_PULSE_DURATION_MS)
  {
    var first := Send(routeCommand, 0, 0, 0);
    var uses := [first, Send(buttonCommand, 10, 10, 10)];
    assert uses[..1] == [first] && [first][..0] == [];
    var trace := After(LOCONET_PULSE_DURATION_MS, uses).trace;
    assert After(LOCONET_PULSE_DURATION_MS, [first]).trace == [Timed(On(routeCommand), 0)];
    assert trace[1].at - trace[0].at == 10;
  }
}
