/** The LocoNet transport turns every turnout command into a pulse: the output is
    switched on, and off again once the pulse duration has passed. It can keep
    one pulse pending at a time. */
module LocoNetPulse {
  import opened Clock
  import opened Turnouts
  import opened Routes

  datatype Request = Request(address: int, position: TurnoutPosition, outputOn: bool)

  datatype Pulser = Pulser(pending: bool, address: int, position: TurnoutPosition, releaseAt: Millis)
  {
    function Release(): seq<Request> { if pending then [Request(address, position, false)] else [] }
  }

  const IDLE := Pulser(false, 0, Closed, 0)

  function On(c: TurnoutCommand): Request { Request(c.address, c.position, true) }

  /** now + pulse in unsigned arithmetic. */
  function ReleaseTime(now: Millis, pulse: Millis): Millis { (now + pulse) % PERIOD }

  function Sent(p: Pulser, pulse: Millis, c: TurnoutCommand, now: Millis): (Pulser, seq<Request>)
  {
    (Pulser(true, c.address, c.position, ReleaseTime(now, pulse)), p.Release() + [On(c)])
  }

  predicate Due(p: Pulser, now: Millis) { p.pending && now >= p.releaseAt }

  function Updated(p: Pulser, now: Millis): (Pulser, seq<Request>)
  {
    if Due(p, now) then (p.(pending := false), p.Release()) else (p, [])
  }

  class LocoNetSwitchDriver {
    var requests: seq<Request>

    constructor ()
      ensures requests == []
    {
      requests := [];
    }

    method RequestSwitch(address: int, position: TurnoutPosition, outputOn: bool)
      modifies this
      ensures requests == old(requests) + [Request(address, position, outputOn)]
    {
      requests := requests + [Request(address, position, outputOn)];
    }
  }

  class PulsingLocoNetTransport {
    const driver: LocoNetSwitchDriver
    const pulseDurationMs: Millis
    var releasePending: bool
    var pendingAddress: int
    var pendingPosition: TurnoutPosition
    var releaseAtMs: Millis

    function State(): Pulser
      reads this
    {
      Pulser(releasePending, pendingAddress, pendingPosition, releaseAtMs)
    }

    constructor (driver: LocoNetSwitchDriver, pulseDuration: Millis)
      ensures this.driver == driver && pulseDurationMs == pulseDuration && State() == IDLE
    {
      this.driver, pulseDurationMs := driver, pulseDuration;
      releasePending, pendingAddress, pendingPosition, releaseAtMs := false, 0, Closed, 0;
    }

    method SendPacket(packet: TurnoutCommand, now: Millis)
      modifies this, driver
      ensures State() == Sent(old(State()), pulseDurationMs, packet, now).0
      ensures driver.requests == old(driver.requests) + Sent(old(State()), pulseDurationMs, packet, now).1
    {
      if releasePending {
        ReleasePendingSwitch();
      }
      driver.RequestSwitch(packet.address, packet.position, true);
      releasePending := true;
      pendingAddress := packet.address;
      pendingPosition := packet.position;
      releaseAtMs := ReleaseTime(now, pulseDurationMs);
    }

    method Update(now: Millis)
      modifies this, driver
      ensures State() == Updated(old(State()), now).0
      ensures driver.requests == old(driver.requests) + Updated(old(State()), now).1
    {
      if releasePending && now >= releaseAtMs {
        ReleasePendingSwitch();
      }
    }

    method ReleasePendingSwitch()
      requires releasePending
      modifies this, driver
      ensures State() == old(State()).(pending := false)
      ensures driver.requests == old(driver.requests) + old(State()).Release()
    {
      driver.RequestSwitch(pendingAddress, pendingPosition, false);
      releasePending := false;
    }
  }

  // ------------------------------------------------------------------- runs

  /** A use of the transport, with the real times at which the driver sees an OFF
      or an ON, and at which the clock is read. */
  datatype Use =
    | Send(command: TurnoutCommand, offAt: nat, onAt: nat, stampedAt: nat)
    | Update(checkedAt: nat, offAt: nat)
  {
    function Begin(): nat { if Send? then offAt else checkedAt }

    function End(): nat { if Send? then stampedAt else offAt }
  }

  ghost predicate Chronological(uses: seq<Use>)
  {
    && (forall i :: 0 <= i < |uses| && uses[i].Send? ==> uses[i].offAt <= uses[i].onAt <= uses[i].stampedAt)
    && (forall i :: 0 <= i < |uses| && uses[i].Update? ==> uses[i].checkedAt <= uses[i].offAt)
    && (forall i, j :: 0 <= i < j < |uses| ==> uses[i].End() <= uses[j].Begin())
  }

  datatype Timed = Timed(request: Request, at: nat)

  /** The transport and what the driver has seen, after a run. */
  datatype Run = Run(pulser: Pulser, trace: seq<Timed>)

  function UseOnce(r: Run, pulse: Millis, u: Use): Run
  {
    match u
    case Send(c, offAt, onAt, stampedAt) =>
      var off := if r.pulser.pending then [Timed(r.pulser.Release()[0], offAt)] else [];
      Run(Sent(r.pulser, pulse, c, Reading(stampedAt)).0, r.trace + off + [Timed(On(c), onAt)])
    case Update(checkedAt, offAt) =>
      var off := if Due(r.pulser, Reading(checkedAt)) then [Timed(r.pulser.Release()[0], offAt)] else [];
      Run(Updated(r.pulser, Reading(checkedAt)).0, r.trace + off)
  }

  function After(pulse: Millis, uses: seq<Use>): Run
    decreases |uses|
  {
    if uses == [] then Run(IDLE, []) else UseOnce(After(pulse, uses[..|uses| - 1]), pulse, uses[|uses| - 1])
  }

  function Requests(trace: seq<Timed>): (r: seq<Request>)
    ensures |r| == |trace| && forall i :: 0 <= i < |r| ==> r[i] == trace[i].request
  {
    seq(|trace|, i requires 0 <= i < |trace| => trace[i].request)
  }

  /** The timed run requests what the transport's operations say. */
  lemma TimedRunIsFaithful(r: Run, pulse: Millis, u: Use)
    ensures var step := if u.Send? then Sent(r.pulser, pulse, u.command, Reading(u.stampedAt))
                        else Updated(r.pulser, Reading(u.checkedAt));
            && UseOnce(r, pulse, u).pulser == step.0
            && Requests(UseOnce(r, pulse, u).trace) == Requests(r.trace) + step.1
  {}

  /** Address, position and time of every ON in a trace. */
  function Ons(trace: seq<Timed>): seq<(int, TurnoutPosition, nat)>
    decreases |trace|
  {
    if trace == [] then []
    else
      var t := trace[|trace| - 1];
      Ons(trace[..|trace| - 1]) + if t.request.outputOn then [(t.request.address, t.request.position, t.at)] else []
  }

  /** Address and position of every command sent, and when its ON is due. */
  function Sends(uses: seq<Use>): seq<(int, TurnoutPosition, nat)>
    decreases |uses|
  {
    if uses == [] then []
    else
      var u := uses[|uses| - 1];
      Sends(uses[..|uses| - 1]) + if u.Send? then [(u.command.address, u.command.position, u.onAt)] else []
  }

  lemma {:induction false} OnsAdd(a: seq<Timed>, b: seq<Timed>)
    ensures Ons(a + b) == Ons(a) + Ons(b)
    decreases |b|
  {
    if b == [] {
      assert a + b == a;
    } else {
      assert (a + b)[..|a + b| - 1] == a + b[..|b| - 1];
      OnsAdd(a, b[..|b| - 1]);
    }
  }

  lemma OnsOfOne(t: Timed)
    ensures Ons([t]) == if t.request.outputOn then [(t.request.address, t.request.position, t.at)] else []
  {
    assert Ons([t][..0]) == [];
  }

  lemma OnsOfUse(r: Run, pulse: Millis, u: Use)
    ensures Ons(UseOnce(r, pulse, u).trace)
            == Ons(r.trace) + if u.Send? then [(u.command.address, u.command.position, u.onAt)] else []
  {
    assert r.trace + [] == r.trace && Ons(r.trace) + [] == Ons(r.trace);
    if r.pulser.pending {
      var off := Timed(r.pulser.Release()[0], u.offAt);
      OnsOfOne(off);
      OnsAdd(r.trace, [off]);
    }
    var before := if u.Send? && r.pulser.pending then r.trace + [Timed(r.pulser.Release()[0], u.offAt)] else r.trace;
    if u.Send? {
      var on := Timed(On(u.command), u.onAt);
      OnsOfOne(on);
      OnsAdd(before, [on]);
      assert UseOnce(r, pulse, u).trace == before + [on];
    }
  }

  /** Whatever is sent and whenever: the driver sees an ON for exactly the commands
      sent, in order, each with its command's address and position. */
  lemma {:induction false} DriverSeesSends(pulse: Millis, uses: seq<Use>)
    ensures Ons(After(pulse, uses).trace) == Sends(uses)
    decreases |uses|
  {
    if uses != [] {
      var n := |uses| - 1;
      DriverSeesSends(pulse, uses[..n]);
      OnsOfUse(After(pulse, uses[..n]), pulse, uses[n]);
    }
  }

  /** (ON x, OFF x)* and possibly one more ON: each OFF names the address and
      position of the ON just before it. */
  ghost predicate PulseTrain(trace: seq<Timed>)
  {
    forall i :: 0 <= i < |trace| ==> OnOrItsOff(trace, i)
  }

  ghost predicate OnOrItsOff(trace: seq<Timed>, i: nat)
    requires i < |trace|
  {
    if i % 2 == 0 then trace[i].request.outputOn
    else trace[i].request == trace[i - 1].request.(outputOn := false)
  }

  ghost predicate TrainState(r: Run)
  {
    && PulseTrain(r.trace)
    && (r.pulser.pending <==> |r.trace| % 2 == 1)
    && (r.pulser.pending ==>
          r.trace[|r.trace| - 1].request == Request(r.pulser.address, r.pulser.position, true))
  }

  /** Whatever is sent and however often the transport is updated. */
  lemma {:induction false} AlwaysPulseTrain(pulse: Millis, uses: seq<Use>)
    ensures TrainState(After(pulse, uses))
    decreases |uses|
  {
    if uses != [] {
      AlwaysPulseTrain(pulse, uses[..|uses| - 1]);
      TrainStep(After(pulse, uses[..|uses| - 1]), pulse, uses[|uses| - 1]);
    }
  }

  lemma TrainStep(r: Run, pulse: Millis, u: Use)
    requires TrainState(r)
    ensures TrainState(UseOnce(r, pulse, u))
  {
    var later := UseOnce(r, pulse, u).trace;
    assert r.pulser.pending ==> OnOrItsOff(r.trace, |r.trace| - 1);
    forall i | 0 <= i < |later|
      ensures OnOrItsOff(later, i)
    {
      if i < |r.trace| { assert OnOrItsOff(r.trace, i); }
    }
  }

  /** The outputs that are on after a trace. */
  function Energised(trace: seq<Timed>): set<(int, TurnoutPosition)>
    decreases |trace|
  {
    if trace == [] then {}
    else
      var before, r := Energised(trace[..|trace| - 1]), trace[|trace| - 1].request;
      if r.outputOn then before + {(r.address, r.position)} else before - {(r.address, r.position)}
  }

  /** At every point of a pulse train at most one output is on. */
  lemma {:induction false} AtMostOneEnergised(trace: seq<Timed>)
    requires PulseTrain(trace)
    ensures Energised(trace) == if |trace| % 2 == 0 then {}
                                else {(trace[|trace| - 1].request.address, trace[|trace| - 1].request.position)}
    decreases |trace|
  {
    if trace != [] {
      var before := trace[..|trace| - 1];
      forall i | 0 <= i < |before| ensures OnOrItsOff(before, i) { assert OnOrItsOff(trace, i); }
      AtMostOneEnergised(before);
      assert OnOrItsOff(trace, |trace| - 1);
    }
  }

  // ----------------------------------------------------------- pulse lengths

  /** Every OFF comes at least the pulse duration after its ON. */
  ghost predicate FullPulses(trace: seq<Timed>, pulse: Millis)
  {
    forall i :: 0 <= i < |trace| && i % 2 == 1 ==> trace[i].at - trace[i - 1].at >= pulse
  }

  /** The release time of a pulse stamped at one time counts as reached at another. */
  ghost predicate Passed(stampedAt: nat, pulse: Millis, checkedAt: nat)
  {
    stampedAt <= checkedAt && Reading(checkedAt) >= ReleaseTime(Reading(stampedAt), pulse)
  }

  /** A release time that does not wrap around is waited for; one that does is
      passed at once. */
  lemma WaitsIffNoWrap(stampedAt: nat, pulse: Millis)
    requires pulse > 0
    ensures Reading(stampedAt) + pulse < PERIOD <==>
            forall checkedAt: nat :: Passed(stampedAt, pulse, checkedAt) ==> checkedAt - stampedAt >= pulse
  {
    if Reading(stampedAt) + pulse < PERIOD {
      forall checkedAt: nat | Passed(stampedAt, pulse, checkedAt)
        ensures checkedAt - stampedAt >= pulse
      {
        SinceIsElapsed(stampedAt, checkedAt);
      }
    } else {
      assert Passed(stampedAt, pulse, stampedAt);
    }
  }

  /** No release time of the run wraps around. */
  ghost predicate NonWrapping(uses: seq<Use>, pulse: Millis)
  {
    forall i :: 0 <= i < |uses| && uses[i].Send? ==> Reading(uses[i].stampedAt) + pulse < PERIOD
  }

  /** No command is sent while a pulse is pending that has not lasted long enough. */
  ghost predicate NotCutShort(uses: seq<Use>, pulse: Millis)
  {
    forall i :: 0 <= i < |uses| && uses[i].Send? ==> SentInTime(After(pulse, uses[..i]), uses[i], pulse)
  }

  ghost predicate SentInTime(r: Run, u: Use, pulse: Millis)
    requires u.Send?
  {
    r.pulser.pending && r.trace != [] ==> u.offAt - r.trace[|r.trace| - 1].at >= pulse
  }

  /** A pending pulse was stamped no earlier than it was seen to start. */
  ghost predicate Stamped(r: Run, pulse: Millis, now: nat)
  {
    r.pulser.pending ==>
      && r.trace != []
      && exists s: nat :: r.trace[|r.trace| - 1].at <= s <= now && Reading(s) + pulse < PERIOD
                          && r.pulser.releaseAt == ReleaseTime(Reading(s), pulse)
  }

  lemma PulseStep(r: Run, pulse: Millis, u: Use, now: nat)
    requires pulse > 0 && TrainState(r) && Stamped(r, pulse, now) && now <= u.Begin()
    requires u.Update? ==> u.checkedAt <= u.offAt
    requires u.Send? ==> u.offAt <= u.onAt <= u.stampedAt && Reading(u.stampedAt) + pulse < PERIOD
    ensures Stamped(UseOnce(r, pulse, u), pulse, u.End())
    ensures FullPulses(UseOnce(r, pulse, u).trace, pulse) <==>
            FullPulses(r.trace, pulse) && (u.Send? ==> SentInTime(r, u, pulse))
  {
    var later := UseOnce(r, pulse, u);
    assert forall i :: 0 <= i < |r.trace| ==> later.trace[i] == r.trace[i];
    if u.Update? && Due(r.pulser, Reading(u.checkedAt)) {
      var s: nat :| r.trace[|r.trace| - 1].at <= s <= now && Reading(s) + pulse < PERIOD
                    && r.pulser.releaseAt == ReleaseTime(Reading(s), pulse);
      WaitsIffNoWrap(s, pulse);
      assert Passed(s, pulse, u.checkedAt);
    }
    if FullPulses(later.trace, pulse) {
      assert FullPulses(r.trace, pulse);
      if u.Send? && r.pulser.pending {
        assert later.trace[|r.trace|].at - later.trace[|r.trace| - 1].at >= pulse;
      }
    }
  }

  /** While no release time wraps around, all pulses are full exactly if none was
      cut short by the next command. */
  lemma {:induction false} FullUnlessCutShort(pulse: Millis, uses: seq<Use>)
    requires pulse > 0 && Chronological(uses) && NonWrapping(uses, pulse)
    ensures FullPulses(After(pulse, uses).trace, pulse) <==> NotCutShort(uses, pulse)
    ensures Stamped(After(pulse, uses), pulse, if uses == [] then 0 else uses[|uses| - 1].End())
    decreases |uses|
  {
    if uses != [] {
      var n := |uses| - 1;
      var before := uses[..n];
      FullUnlessCutShort(pulse, before);
      AlwaysPulseTrain(pulse, before);
      PulseStep(After(pulse, before), pulse, uses[n], if n == 0 then 0 else uses[n - 1].End());
      CutShortStep(uses, pulse);
    }
  }

  lemma CutShortStep(uses: seq<Use>, pulse: Millis)
    requires uses != []
    ensures var n := |uses| - 1;
            NotCutShort(uses, pulse) <==>
            NotCutShort(uses[..n], pulse) && (uses[n].Send? ==> SentInTime(After(pulse, uses[..n]), uses[n], pulse))
  {
    var n := |uses| - 1;
    var before := uses[..n];
    forall i | 0 <= i < n ensures before[..i] == uses[..i] && before[i] == uses[i] {}
    if NotCutShort(before, pulse) && (uses[n].Send? ==> SentInTime(After(pulse, uses[..n]), uses[n], pulse)) {
      forall i | 0 <= i < |uses| && uses[i].Send?
        ensures SentInTime(After(pulse, uses[..i]), uses[i], pulse)
      {
        if i < n { assert SentInTime(After(pulse, before[..i]), before[i], pulse); }
      }
    }
    if NotCutShort(uses, pulse) {
      forall i | 0 <= i < n && before[i].Send?
        ensures SentInTime(After(pulse, before[..i]), before[i], pulse)
      {
        assert SentInTime(After(pulse, uses[..i]), uses[i], pulse);
      }
    }
  }

  /** A wrap-around: the release time of a pulse stamped shortly before it reads
      as passed one millisecond later, and the pulse is cut off. */
  lemma WrapCutsOff(c: TurnoutCommand, pulse: Millis)
    requires pulse >= 100
    ensures var uses := [Send(c, PERIOD - 100, PERIOD - 100, PERIOD - 100), Use.Update(PERIOD - 99, PERIOD - 99)];
            && Chronological(uses) && NotCutShort(uses, pulse)
            && !FullPulses(After(pulse, uses).trace, pulse)
  {
    var send := Send(c, PERIOD - 100, PERIOD - 100, PERIOD - 100);
    var uses := [send, Use.Update(PERIOD - 99, PERIOD - 99)];
    assert uses[..1] == [send] && uses[..0] == [send][..0] == [];
    assert After(pulse, [send]).trace == [Timed(On(c), PERIOD - 100)];
    assert Due(After(pulse, [send]).pulser, Reading(PERIOD - 99));
    var trace := After(pulse, uses).trace;
    assert trace[1].at - trace[0].at == 1;
  }

  // -------------------------------------------------------- late releases

  /** The run after these further updates. */
  function Continued(r: Run, pulse: Millis, updates: seq<Use>): Run
    decreases |updates|
  {
    if updates == [] then r
    else UseOnce(Continued(r, pulse, updates[..|updates| - 1]), pulse, updates[|updates| - 1])
  }

  ghost predicate OnlyUpdates(updates: seq<Use>, from: nat)
  {
    forall i :: 0 <= i < |updates| ==> updates[i].Update? && from <= updates[i].checkedAt <= updates[i].offAt
  }

  /** A pulse stays pending until an update finds its release time passed. */
  lemma {:induction false} PendingUntilPassed(r: Run, pulse: Millis, updates: seq<Use>, stampedAt: nat)
    requires OnlyUpdates(updates, stampedAt)
    requires r.pulser.pending && r.pulser.releaseAt == ReleaseTime(Reading(stampedAt), pulse)
    ensures var p := Continued(r, pulse, updates).pulser;
            && (p.pending <==> forall i :: 0 <= i < |updates| ==> !Passed(stampedAt, pulse, updates[i].checkedAt))
            && (p.pending ==> p.releaseAt == r.pulser.releaseAt)
    decreases |updates|
  {
    if updates != [] {
      var n := |updates| - 1;
      PendingUntilPassed(r, pulse, updates[..n], stampedAt);
      assert forall i :: 0 <= i < n ==> updates[..n][i] == updates[i];
    }
  }

  /** Updates at most d apart, from the stamp of a pulse on until its duration is over. */
  ghost predicate Dense(updates: seq<Use>, stampedAt: nat, pulse: Millis, d: nat)
  {
    && OnlyUpdates(updates, stampedAt)
    && updates != [] && updates[0].checkedAt <= stampedAt + d
    && (forall i, j :: 0 <= i < j < |updates| ==> updates[i].offAt <= updates[j].checkedAt)
    && (forall i, j :: 0 <= i < |updates| && j == i + 1 < |updates| ==>
          updates[j].checkedAt <= updates[i].checkedAt + d)
    && updates[|updates| - 1].checkedAt >= stampedAt + pulse
  }

  /** One of these updates, made no later than the deadline, ended the pulse. */
  ghost predicate OverBy(r: Run, pulse: Millis, updates: seq<Use>, deadline: nat)
  {
    exists i :: 0 <= i < |updates| && updates[i].Update? && updates[i].checkedAt <= deadline
              && EndedAt(r, pulse, updates, i)
  }

  ghost predicate EndedAt(r: Run, pulse: Millis, updates: seq<Use>, i: nat)
    requires i < |updates|
  {
    !Continued(r, pulse, updates[..i + 1]).pulser.pending
  }

  /** The absolute comparison can also come too late: updates that step over the
      wrap-around find a release time that seems far ahead. A pulse whose release
      time does not wrap is over within the pulse duration plus the longest time
      between updates, for all such updates, exactly if that sum stays within
      the clock's period. */
  lemma OverInTimeIff(q: Run, pulse: Millis, send: Use, d: nat)
    requires send.Send? && pulse > 0 && 0 < d < PERIOD && Reading(send.stampedAt) + pulse < PERIOD
    ensures var r := UseOnce(q, pulse, send);
            Reading(send.stampedAt) + pulse + d <= PERIOD <==>
            forall updates :: Dense(updates, send.stampedAt, pulse, d) ==>
              OverBy(r, pulse, updates, send.stampedAt + pulse + d)
  {
    var r := UseOnce(q, pulse, send);
    if Reading(send.stampedAt) + pulse + d <= PERIOD {
      forall updates | Dense(updates, send.stampedAt, pulse, d)
        ensures OverBy(r, pulse, updates, send.stampedAt + pulse + d)
      {
        OverInTime(r, pulse, send.stampedAt, d, updates);
      }
    } else {
      var updates := NeverOver(r, pulse, send.stampedAt, d);
    }
  }

  lemma OverInTime(r: Run, pulse: Millis, stampedAt: nat, d: nat, updates: seq<Use>)
    requires r.pulser.pending && r.pulser.releaseAt == ReleaseTime(Reading(stampedAt), pulse)
    requires pulse > 0 && d > 0 && Reading(stampedAt) + pulse + d <= PERIOD && Dense(updates, stampedAt, pulse, d)
    ensures OverBy(r, pulse, updates, stampedAt + pulse + d)
  {
    var i := 0;
    while updates[i].checkedAt < stampedAt + pulse
      invariant 0 <= i < |updates| && updates[i].checkedAt < stampedAt + pulse + d
      decreases |updates| - i
    {
      i := i + 1;
    }
    SinceExact(stampedAt, updates[i].checkedAt);
    assert Passed(stampedAt, pulse, updates[i].checkedAt);
    PendingUntilPassed(r, pulse, updates[..i + 1], stampedAt);
    assert updates[..i + 1][i] == updates[i];
    assert EndedAt(r, pulse, updates, i);
  }

  /** Updates every millisecond until just before the release time, and the next
      one only after the clock has wrapped around. */
  lemma NeverOver(r: Run, pulse: Millis, stampedAt: nat, d: nat) returns (updates: seq<Use>)
    requires r.pulser.pending && r.pulser.releaseAt == ReleaseTime(Reading(stampedAt), pulse)
    requires pulse > 0 && 0 < d < PERIOD && Reading(stampedAt) + pulse < PERIOD < Reading(stampedAt) + pulse + d
    ensures Dense(updates, stampedAt, pulse, d) && !OverBy(r, pulse, updates, stampedAt + pulse + d)
  {
    var last := stampedAt + pulse - 1 + d;
    updates := seq(pulse, k requires 0 <= k < pulse =>
                     var t := if k < pulse - 1 then stampedAt + 1 + k else last; Use.Update(t, t));
    SinceExact(stampedAt, last);
    forall i | 0 <= i < |updates| ensures !Passed(stampedAt, pulse, updates[i].checkedAt) {
      if i < pulse - 1 { WaitsIffNoWrap(stampedAt, pulse); }
    }
    forall i | 0 <= i < |updates| ensures !EndedAt(r, pulse, updates, i) {
      PendingUntilPassed(r, pulse, updates[..i + 1], stampedAt);
    }
  }
}
