/** Presence of the panels that share a broker: topics, announcements, and the
    guard that notices another panel with the same node id. */
module Presence {
  import opened Clock
  import opened Text

  // ------------------------------------------------------------------ topics

  function Topic(start: string, n: int, end: string): string { start + (ToText(n) + end) }

  function StatusTopic(nodeId: int): string { Topic("panel/", nodeId, "/status") }

  function MacTopic(nodeId: int): string { Topic("panel/", nodeId, "/mac") }

  function IdentifyTopic(nodeId: int): string { Topic("panel/", nodeId, "/identify") }

  /** The topic on which a command for a turnout is published. */
  function CommandTopic(address: int): string { Topic("loconet/turnout/", address, "/set") }

  lemma TopicInjective(start: string, m: int, n: int, end: string)
    requires Topic(start, m, end) == Topic(start, n, end)
    ensures m == n
  {
    var tm, tn := Topic(start, m, end), Topic(start, n, end);
    assert tm[|start|..] == ToText(m) + end && tn[|start|..] == ToText(n) + end;
    assert ToText(m) == tm[|start|..][..|tm| - |start| - |end|];
    assert ToText(n) == tn[|start|..][..|tn| - |start| - |end|];
    PrintInjective(m, n);
  }

  lemma TopicEnds(start: string, n: int, end: string)
    requires end != ""
    ensures Topic(start, n, end) != ""
    ensures Topic(start, n, end)[|Topic(start, n, end)| - 1] == end[|end| - 1]
  {}

  /** Different nodes announce on different topics, which are used for nothing
      else: neither for status, identify nor turnout commands. */
  lemma MacTopicsApart(m: int, n: int)
    ensures MacTopic(m) == MacTopic(n) <==> m == n
    ensures MacTopic(m) != StatusTopic(n) && MacTopic(m) != IdentifyTopic(n) && MacTopic(m) != CommandTopic(n)
    ensures IdentifyTopic(m) != StatusTopic(n) && IdentifyTopic(m) != CommandTopic(n)
    ensures StatusTopic(m) != CommandTopic(n)
  {
    if MacTopic(m) == MacTopic(n) { TopicInjective("panel/", m, n, "/mac"); }
    TopicEnds("panel/", m, "/mac");
    TopicEnds("panel/", n, "/status");
    TopicEnds("panel/", m, "/identify");
    TopicEnds("panel/", n, "/identify");
    TopicEnds("loconet/turnout/", n, "/set");
    assert StatusTopic(m)[0] == 'p' && CommandTopic(n)[0] == 'l';
  }

  /** Topics spelled out. */
  lemma TopicsSpelledOut()
    ensures StatusTopic(7) == "panel/7/status" && MacTopic(7) == "panel/7/mac"
    ensures IdentifyTopic(42) == "panel/42/identify" && CommandTopic(500) == "loconet/turnout/500/set"
  {
    assert ToText(7) == "7" && ToText(42) == "42";
    assert Digits(5) == "5" && Digits(50) == Digits(5) + "0" && Digits(500) == Digits(50) + "0";
  }

  // ------------------------------------------------------------------- guard

  datatype GuardState = GuardState(collision: bool, lastForeign: string)

  function Observed(g: GuardState, own: string, mac: string): GuardState
  {
    if mac != own then GuardState(true, mac) else g
  }

  class NodeIdentityGuard {
    const ownMac: string
    var collisionDetected: bool
    var lastForeignMac: string

    function State(): GuardState
      reads this
    {
      GuardState(collisionDetected, lastForeignMac)
    }

    constructor (own: string)
      ensures ownMac == own && State() == GuardState(false, "")
    {
      ownMac := own;
      collisionDetected, lastForeignMac := false, "";
    }

    method OnMacObserved(mac: string)
      modifies this
      ensures State() == Observed(old(State()), ownMac, mac)
    {
      if mac != ownMac {
        collisionDetected := true;
        lastForeignMac := mac;
      }
    }
  }

  // --------------------------------------------------------------- announcer

  const HEARTBEAT_INTERVAL_MS: Millis := 30000

  datatype Message = Message(topic: string, payload: string)

  datatype AnnouncerState = AnnouncerState(wasConnected: bool, lastAnnounced: Millis)

  const NOT_ANNOUNCED := AnnouncerState(false, 0)

  predicate AnnouncementDue(a: AnnouncerState, connected: bool, checked: Millis)
  {
    connected && (!a.wasConnected || Since(checked, a.lastAnnounced) >= HEARTBEAT_INTERVAL_MS)
  }

  /** One update: the clock is read for the check, and again for the stamp. */
  function AnnouncerUpdated(a: AnnouncerState, connected: bool, checked: Millis, stamped: Millis): AnnouncerState
  {
    AnnouncerState(connected, if AnnouncementDue(a, connected, checked) then stamped else a.lastAnnounced)
  }

  function Announcement(nodeId: int, mac: string): seq<Message>
  {
    [Message(StatusTopic(nodeId), "online"), Message(MacTopic(nodeId), mac)]
  }

  class MqttPresenceAnnouncer {
    const nodeId: int
    const ownMac: string
    var wasConnected: bool
    var lastAnnouncedAtMs: Millis

    function State(): AnnouncerState
      reads this
    {
      AnnouncerState(wasConnected, lastAnnouncedAtMs)
    }

    constructor (nodeId: int, ownMac: string)
      ensures this.nodeId == nodeId && this.ownMac == ownMac && State() == NOT_ANNOUNCED
    {
      this.nodeId, this.ownMac := nodeId, ownMac;
      wasConnected, lastAnnouncedAtMs := false, 0;
    }

    method Update(currentlyConnected: bool, checked: Millis, stamped: Millis) returns (published: seq<Message>)
      modifies this
      ensures State() == AnnouncerUpdated(old(State()), currentlyConnected, checked, stamped)
      ensures published == if AnnouncementDue(old(State()), currentlyConnected, checked)
                           then Announcement(nodeId, ownMac) else []
    {
      published := [];
      if !currentlyConnected {
        wasConnected := false;
        return;
      }
      var justConnected := !wasConnected;
      var heartbeatDue := Since(checked, lastAnnouncedAtMs) >= HEARTBEAT_INTERVAL_MS;
      if justConnected || heartbeatDue {
        published := [Message(StatusTopic(nodeId), "online"), Message(MacTopic(nodeId), ownMac)];
        lastAnnouncedAtMs := stamped;
      }
      wasConnected := true;
    }
  }

  // --------------------------------------------------------------- heartbeat

  /** An update while connected, with the real times of the two clock readings. */
  datatype Beat = Beat(checked: nat, stamped: nat)

  ghost predicate Chronological(beats: seq<Beat>)
  {
    && (forall i :: 0 <= i < |beats| ==> beats[i].checked <= beats[i].stamped)
    && (forall i, j :: 0 <= i < j < |beats| ==> beats[i].stamped <= beats[j].checked)
  }

  /** The announcer after the first n updates since it got connected. */
  function Beaten(a: AnnouncerState, beats: seq<Beat>, n: nat): AnnouncerState
    requires n <= |beats|
  {
    if n == 0 then a
    else AnnouncerUpdated(Beaten(a, beats, n - 1), true, Reading(beats[n - 1].checked), Reading(beats[n - 1].stamped))
  }

  predicate Announces(a: AnnouncerState, beats: seq<Beat>, i: nat)
    requires i < |beats|
  {
    AnnouncementDue(Beaten(a, beats, i), true, Reading(beats[i].checked))
  }

  /** As long as nothing is announced, the stamp of the last announcement stays. */
  lemma {:induction false} StampStays(a: AnnouncerState, beats: seq<Beat>, i: nat, k: nat)
    requires i < k <= |beats| && Announces(a, beats, i)
    requires forall m :: i < m < k ==> !Announces(a, beats, m)
    ensures Beaten(a, beats, k) == AnnouncerState(true, Reading(beats[i].stamped))
    decreases k
  {
    if k > i + 1 {
      StampStays(a, beats, i, k - 1);
      assert !Announces(a, beats, k - 1);
    }
  }

  /** Nothing is announced before the interval has passed, even across a
      wrap-around of the clock. */
  lemma {:induction false} NotEarly(a: AnnouncerState, beats: seq<Beat>, i: nat, k: nat)
    requires Chronological(beats) && i < k < |beats| && Announces(a, beats, i)
    requires beats[k].checked - beats[i].stamped < HEARTBEAT_INTERVAL_MS
    ensures forall m :: i < m <= k ==> !Announces(a, beats, m)
    decreases k
  {
    if k > i + 1 { NotEarly(a, beats, i, k - 1); }
    StampStays(a, beats, i, k);
    SinceIsElapsed(beats[i].stamped, beats[k].checked);
  }

  /** Whether an update announces depends on the time since the last stamp as the
      clock can tell it: an update that comes a whole period late is silent. */
  lemma AnnouncesWhenClockSaysSo(a: AnnouncerState, beats: seq<Beat>, i: nat, k: nat)
    requires Chronological(beats) && i < k < |beats| && Announces(a, beats, i)
    requires forall m :: i < m < k ==> !Announces(a, beats, m)
    ensures Announces(a, beats, k) <==> (beats[k].checked - beats[i].stamped) % PERIOD >= HEARTBEAT_INTERVAL_MS
  {
    StampStays(a, beats, i, k);
    SinceIsElapsed(beats[i].stamped, beats[k].checked);
  }

  /** While connected and updated at most d apart, the next announcement after
      update i is made by the first update that comes an interval later; so it
      comes within the interval plus d. */
  lemma Heartbeat(a: AnnouncerState, beats: seq<Beat>, d: nat, i: nat, n: nat) returns (k: nat)
    requires Chronological(beats) && i < n < |beats| && Announces(a, beats, i)
    requires forall m :: i <= m < n ==> beats[m + 1].checked - beats[m].checked <= d
    requires d <= PERIOD - HEARTBEAT_INTERVAL_MS
    requires beats[n].checked - beats[i].stamped >= HEARTBEAT_INTERVAL_MS
    ensures i < k <= n && Announces(a, beats, k)
    ensures forall m :: i < m < k ==> !Announces(a, beats, m)
    ensures HEARTBEAT_INTERVAL_MS <= beats[k].checked - beats[i].stamped <= HEARTBEAT_INTERVAL_MS + d
  {
    k := i + 1;
    while beats[k].checked - beats[i].stamped < HEARTBEAT_INTERVAL_MS
      invariant i < k <= n
      invariant forall m :: i < m < k ==> beats[m].checked - beats[i].stamped < HEARTBEAT_INTERVAL_MS
      decreases n - k
    {
      k := k + 1;
    }
    if k > i + 1 { NotEarly(a, beats, i, k - 1); }
    StampStays(a, beats, i, k);
    var m := k - 1;
    assert beats[m + 1].checked - beats[m].checked <= d;
    SinceExact(beats[i].stamped, beats[k].checked);
  }

  /** The first update after a connection is established announces at once. */
  lemma ConnectingAnnounces(a: AnnouncerState, connected: bool, checked: Millis, stamped: Millis, next: Millis)
    requires !connected
    ensures AnnouncementDue(AnnouncerUpdated(a, connected, checked, stamped), true, next)
    ensures !AnnouncementDue(a, connected, checked)
  {}
}
