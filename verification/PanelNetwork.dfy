/** Panels that share a broker. The loops of the panels interleave statement
    group by statement group; the broker delivers anything published before, late,
    repeatedly, out of order or never. */
module PanelNetwork {
  import opened Clock
  import opened Turnouts
  import opened Routes
  import opened LedDrivers
  import opened Presence
  import opened Panel
  import Commissioning
  import Debounce
  import PanelRuns

  // ---------------------------------------------------------------- one panel

  /** Where a panel is in its loop: between iterations, polling its links, about
      to run its stations, or waiting for its restart. */
  datatype Phase = Idle | Linking | Running | Halted

  datatype Node = Node(settings: Settings, panel: Panel, phase: Phase, collision: bool, log: seq<Notice>)
  {
    predicate Underway() { phase == Linking || phase == Running }
  }

  function Rebooted(c: Settings, boots: seq<Boot>): Node { Node(c, Booted(c, boots), Idle, false, []) }

  /** The iteration up to the polling of the links; `collision` is its local copy
      of the flag. */
  function Begun(node: Node, inp: Input): (r: Node)
    requires inp.Fits(|node.panel.units|)
    ensures |r.panel.units| == |node.panel.units|
  {
    if inp.serialReboot then node.(phase := Halted)
    else if node.settings.bootMode == Commissioning.WirelessSetup
    then node.(panel := node.panel.(units := BlinkedAll(node.panel.units, inp.blinked)))
    else
      var (panel, out) := Top(node.settings, node.panel, inp);
      node.(panel := panel, phase := if out.restarted then Halted else Linking,
            collision := node.panel.guard.collision, log := node.log + out.log)
  }

  function Heard(node: Node, d: Delivery): Node
  {
    var (guard, identify) := DeliveredOne(node.settings, node.panel.guard, node.panel.identify, d);
    node.(panel := node.panel.(guard := guard, identify := identify))
  }

  function Announced(node: Node, inp: Input): Node
  {
    node.(phase := Running,
          panel := node.panel.(announcer := AnnouncerUpdated(node.panel.announcer, inp.announceConnected,
                                                             inp.announceChecked, inp.announceStamped)))
  }

  function AnnouncementOf(node: Node, inp: Input): seq<Message>
  {
    if AnnouncementDue(node.panel.announcer, inp.announceConnected, inp.announceChecked)
    then Announcement(node.settings.nodeId, node.settings.mac) else []
  }

  function Finished(node: Node, inp: Input): Node
    requires inp.Fits(|node.panel.units|)
  {
    var units := StationsRun(node.settings, node.panel.identify, node.panel.units, node.collision, inp);
    node.(phase := Idle, panel := node.panel.(units := units))
  }

  function CommandsOf(node: Node, inp: Input): seq<Message>
    requires inp.Fits(|node.panel.units|)
  {
    var units := Finished(node, inp).panel.units;
    MessagesOf(node.settings.channels, SentBy(units, |units|))
  }

  function HeardAll(node: Node, deliveries: seq<Delivery>): (r: Node)
    ensures r.panel.units == node.panel.units
    decreases |deliveries|
  {
    if deliveries == [] then node
    else Heard(HeardAll(node, deliveries[..|deliveries| - 1]), deliveries[|deliveries| - 1])
  }

  lemma {:induction false} HeardAllIsDelivered(node: Node, deliveries: seq<Delivery>)
    ensures var (guard, identify) := DeliveredAll(node.settings, node.panel.guard, node.panel.identify, deliveries);
            HeardAll(node, deliveries) == node.(panel := node.panel.(guard := guard, identify := identify))
    decreases |deliveries|
  {
    if deliveries != [] { HeardAllIsDelivered(node, deliveries[..|deliveries| - 1]); }
  }

  /** The steps of an undisturbed iteration one after the other, and what they
      publish. */
  function Steps(node: Node, inp: Input): (Node, seq<Message>)
    requires inp.Fits(|node.panel.units|)
  {
    var begun := Begun(node, inp);
    if begun.phase != Linking then (begun, [])
    else
      var heard := if node.settings.configValid && inp.wifiConnected then HeardAll(begun, inp.delivered) else begun;
      (Finished(Announced(heard, inp), inp), AnnouncementOf(heard, inp) + CommandsOf(Announced(heard, inp), inp))
  }

  /** They are the loop's body. */
  lemma StepsAreTheLoop(node: Node, inp: Input)
    requires node.phase == Idle && inp.Fits(|node.panel.units|)
    ensures var (last, published) := Steps(node, inp);
            var (panel, out) := Iterated(node.settings, node.panel, inp);
            && last.panel == panel && published == out.published
            && last.log == node.log + out.log && (last.phase == if out.restarted then Halted else Idle)
  {
    if !inp.serialReboot && node.settings.bootMode != Commissioning.WirelessSetup {
      NormalSteps(node, inp);
    }
  }

  lemma NormalSteps(node: Node, inp: Input)
    requires node.phase == Idle && inp.Fits(|node.panel.units|)
    requires !inp.serialReboot && node.settings.bootMode != Commissioning.WirelessSetup
    ensures var (last, published) := Steps(node, inp);
            var (panel, out) := IteratedNormally(node.settings, node.panel, inp);
            && last.panel == panel && published == out.published
            && last.log == node.log + out.log && (last.phase == if out.restarted then Halted else Idle)
  {
    var begun := Begun(node, inp);
    var (t, out) := Top(node.settings, node.panel, inp);
    assert begun.panel == t;
    if !out.restarted {
      HeardAllIsDelivered(begun, inp.delivered);
      var heard := if node.settings.configValid && inp.wifiConnected then HeardAll(begun, inp.delivered) else begun;
      assert (Announced(heard, inp).panel, AnnouncementOf(heard, inp)) == Linked(node.settings, t, inp);
    }
  }

  // --------------------------------------------------------------- the system

  /** A message on the broker: from a panel, under the node id it then had, or
      from somewhere else. */
  datatype Post = ByPanel(panel: nat, nodeId: int, message: Message) | ByOther(message: Message)

  /** The MAC suffix of a panel is its own for good; its settings are those it
      was last started with. */
  datatype System = System(macs: seq<string>, nodes: seq<Node>, posts: seq<Post>)

  datatype Step =
    | Begin(n: nat, inp: Input)
    | Deliver(n: nat, k: nat, now: Millis)
    | Announce(n: nat, inp: Input)
    | Finish(n: nat, inp: Input)
    | Restart(n: nat, c: Settings, boots: seq<Boot>)
    | Publish(message: Message)

  ghost predicate IsMacTopic(topic: string) { exists id: int :: topic == MacTopic(id) }

  ghost predicate IsCommandTopic(topic: string) { exists a: int :: topic == CommandTopic(a) }

  /** Whether a step can happen. Only panels use the topics for MAC suffixes; a
      panel restarts whenever it likes, under any settings. */
  ghost predicate Enabled(s: System, step: Step)
    requires |s.macs| == |s.nodes|
  {
    if step.Publish? then !IsMacTopic(step.message.topic)
    else
      step.n < |s.nodes|
      && match step
         case Begin(n, inp) => s.nodes[n].phase == Idle && inp.Fits(|s.nodes[n].panel.units|)
         case Deliver(n, k, now) => s.nodes[n].phase == Linking && s.nodes[n].settings.configValid && k < |s.posts|
         case Announce(n, inp) => s.nodes[n].phase == Linking
         case Finish(n, inp) => s.nodes[n].phase == Running && inp.Fits(|s.nodes[n].panel.units|)
         case Restart(n, c, boots) => c.mac == s.macs[n]
  }

  function PostsOf(n: nat, nodeId: int, messages: seq<Message>): (r: seq<Post>)
    ensures |r| == |messages| && forall k :: 0 <= k < |r| ==> r[k] == ByPanel(n, nodeId, messages[k])
  {
    seq(|messages|, k requires 0 <= k < |messages| => ByPanel(n, nodeId, messages[k]))
  }

  /** The node that takes the step, afterwards. */
  ghost function Moved(s: System, step: Step): Node
    requires |s.macs| == |s.nodes| && !step.Publish? && Enabled(s, step)
  {
    match step
    case Begin(n, inp) => Begun(s.nodes[n], inp)
    case Deliver(n, k, now) => Heard(s.nodes[n], Delivery(s.posts[k].message, now))
    case Announce(n, inp) => Announced(s.nodes[n], inp)
    case Finish(n, inp) => Finished(s.nodes[n], inp)
    case Restart(n, c, boots) => Rebooted(c, boots)
  }

  ghost function Posted(s: System, step: Step): seq<Post>
    requires |s.macs| == |s.nodes| && Enabled(s, step)
  {
    match step
    case Announce(n, inp) => PostsOf(n, s.nodes[n].settings.nodeId, AnnouncementOf(s.nodes[n], inp))
    case Finish(n, inp) => PostsOf(n, s.nodes[n].settings.nodeId, CommandsOf(s.nodes[n], inp))
    case Publish(message) => [ByOther(message)]
    case _ => []
  }

  /** A step that cannot happen leaves everything as it is. */
  ghost function Next(s: System, step: Step): (r: System)
    requires |s.macs| == |s.nodes|
    ensures r.macs == s.macs && |r.nodes| == |s.nodes| && s.posts <= r.posts
  {
    if !Enabled(s, step) then s
    else if step.Publish? then s.(posts := s.posts + Posted(s, step))
    else s.(nodes := s.nodes[step.n := Moved(s, step)], posts := s.posts + Posted(s, step))
  }

  ghost function After(s: System, steps: seq<Step>): (r: System)
    requires |s.macs| == |s.nodes|
    ensures r.macs == s.macs && |r.nodes| == |s.nodes| && s.posts <= r.posts
    decreases |steps|
  {
    if steps == [] then s else Next(After(s, steps[..|steps| - 1]), steps[|steps| - 1])
  }

  /** Every panel freshly started, and nothing published yet. */
  function Start(settings: seq<Settings>, boots: seq<seq<Boot>>): (r: System)
    requires |settings| == |boots|
    ensures |r.macs| == |r.nodes| == |settings| && r.posts == []
    ensures forall i :: 0 <= i < |settings| ==> r.macs[i] == settings[i].mac
    ensures forall i :: 0 <= i < |settings| ==> r.nodes[i] == Rebooted(settings[i], boots[i])
  {
    System(seq(|settings|, i requires 0 <= i < |settings| => settings[i].mac),
           seq(|settings|, i requires 0 <= i < |settings| => Rebooted(settings[i], boots[i])), [])
  }

  // ---------------------------------------------------------------- invariants

  /** A panel announces its own MAC suffix on the topic of its own node id, and
      nobody else writes there. */
  ghost predicate Honest(p: Post, macs: seq<string>)
  {
    match p
    case ByPanel(i, id, m) =>
      i < |macs| && forall j: int :: m.topic == MacTopic(j) ==> j == id && m.payload == macs[i]
    case ByOther(m) => !IsMacTopic(m.topic)
  }

  /** The announcement of another panel, with another MAC suffix, under this node id. */
  ghost predicate Rival(p: Post, macs: seq<string>, n: nat, nodeId: int)
    requires n < |macs|
  {
    && p.ByPanel? && p.panel < |macs| && p.panel != n && macs[p.panel] != macs[n]
    && p.nodeId == nodeId && p.message == Message(MacTopic(nodeId), macs[p.panel])
  }

  function CollisionNotices(log: seq<Notice>): nat
  {
    if log == [] then 0
    else CollisionNotices(log[..|log| - 1]) + if log[|log| - 1].CollisionDetected? then 1 else 0
  }

  /** During an iteration the gates agree with its copy of the flag, which is never
      ahead of the flag itself. */
  ghost predicate Gated(node: Node)
  {
    && (node.collision && node.Underway() ==> node.panel.guard.collision)
    && (node.Underway() ==>
          forall i :: 0 <= i < |node.panel.units| ==> node.panel.units[i].suppressed == node.collision)
    && (node.panel.logged ==> node.panel.guard.collision)
  }

  ghost predicate Sound(node: Node, mac: string)
  {
    && node.settings.mac == mac && Gated(node)
    && CollisionNotices(node.log) == (if node.panel.logged then 1 else 0)
  }

  ghost predicate Explained(s: System, n: nat)
    requires |s.macs| == |s.nodes| && n < |s.nodes|
  {
    var g := s.nodes[n].panel.guard;
    g.collision ==> exists k: nat :: k < |s.posts| && Rival(s.posts[k], s.macs, n, s.nodes[n].settings.nodeId)
                                    && g.lastForeign == s.posts[k].message.payload
  }

  ghost predicate Inv(s: System)
  {
    && |s.macs| == |s.nodes|
    && (forall n :: 0 <= n < |s.nodes| ==> Sound(s.nodes[n], s.macs[n]))
    && (forall k :: 0 <= k < |s.posts| ==> Honest(s.posts[k], s.macs))
    && (forall n :: 0 <= n < |s.nodes| ==> Explained(s, n))
  }

  ghost predicate CommandsOnly(messages: seq<Message>)
  {
    forall k :: 0 <= k < |messages| ==> IsCommandTopic(messages[k].topic)
  }

  lemma OneCommandOnly(channels: seq<int>, c: TurnoutCommand)
    ensures CommandsOnly(CommandMessages(channels, c))
  {}

  lemma {:induction false} CommandsGoToCommandTopics(channels: seq<int>, commands: seq<TurnoutCommand>)
    ensures CommandsOnly(MessagesOf(channels, commands))
    decreases |commands|
  {
    if commands != [] {
      CommandsGoToCommandTopics(channels, commands[..|commands| - 1]);
      OneCommandOnly(channels, commands[|commands| - 1]);
    }
  }

  lemma CommandTopicsAreNotForMacs(topic: string)
    requires IsCommandTopic(topic)
    ensures !IsMacTopic(topic)
  {
    if IsMacTopic(topic) {
      var a: int :| topic == CommandTopic(a);
      var id: int :| topic == MacTopic(id);
      MacTopicsApart(id, a);
    }
  }

  lemma AnnouncementIsHonest(macs: seq<string>, n: nat, nodeId: int)
    requires n < |macs|
    ensures forall m <- Announcement(nodeId, macs[n]) :: Honest(ByPanel(n, nodeId, m), macs)
  {
    forall j: int ensures MacTopic(nodeId) == MacTopic(j) ==> j == nodeId { MacTopicsApart(nodeId, j); }
    forall j: int ensures StatusTopic(nodeId) != MacTopic(j) { MacTopicsApart(j, nodeId); }
  }

  lemma CommandsAreHonest(macs: seq<string>, n: nat, node: Node, inp: Input)
    requires n < |macs| && inp.Fits(|node.panel.units|)
    ensures CommandsOnly(CommandsOf(node, inp))
    ensures forall m <- CommandsOf(node, inp) :: Honest(ByPanel(n, node.settings.nodeId, m), macs)
  {
    var units := Finished(node, inp).panel.units;
    var messages := MessagesOf(node.settings.channels, SentBy(units, |units|));
    CommandsGoToCommandTopics(node.settings.channels, SentBy(units, |units|));
    forall k | 0 <= k < |messages| ensures !IsMacTopic(messages[k].topic) {
      CommandTopicsAreNotForMacs(messages[k].topic);
    }
  }

  lemma StepPostsHonestly(s: System, step: Step)
    requires Inv(s) && Enabled(s, step)
    ensures forall k :: 0 <= k < |Posted(s, step)| ==> Honest(Posted(s, step)[k], s.macs)
  {
    if step.Announce? {
      AnnouncementIsHonest(s.macs, step.n, s.nodes[step.n].settings.nodeId);
    } else if step.Finish? {
      CommandsAreHonest(s.macs, step.n, s.nodes[step.n], step.inp);
    }
  }

  lemma {:induction false} NoticesAdd(a: seq<Notice>, b: seq<Notice>)
    ensures CollisionNotices(a + b) == CollisionNotices(a) + CollisionNotices(b)
    decreases |b|
  {
    if b == [] {
      assert a + b == a;
    } else {
      NoticesAdd(a, b[..|b| - 1]);
      assert (a + b)[..|a + b| - 1] == a + b[..|b| - 1];
    }
  }

  lemma NoticesOfTop(c: Settings, s: Panel, inp: Input)
    ensures CollisionNotices(Top(c, s, inp).1.log) == if s.guard.collision && !s.logged then 1 else 0
  {
    var log := if s.guard.collision && !s.logged then [CollisionDetected(c.mac, s.guard.lastForeign)] else [];
    NoticesAdd(log, [EnteringSetup]);
    NoticesAdd(log, [SetupNotStored]);
  }

  lemma BegunNotices(node: Node, inp: Input)
    requires inp.Fits(|node.panel.units|)
    ensures var r := Begun(node, inp);
            CollisionNotices(r.log) - CollisionNotices(node.log)
            == if r.panel.logged && !node.panel.logged then 1 else 0
  {
    if !inp.serialReboot && node.settings.bootMode != Commissioning.WirelessSetup {
      NoticesOfTop(node.settings, node.panel, inp);
      NoticesAdd(node.log, Top(node.settings, node.panel, inp).1.log);
    }
  }

  lemma BegunIsGated(node: Node, inp: Input)
    requires node.phase == Idle && inp.Fits(|node.panel.units|) && Gated(node)
    ensures Gated(Begun(node, inp)) && Begun(node, inp).settings == node.settings
    ensures node.panel.logged ==> Begun(node, inp).panel.logged
  {}

  lemma BegunIsSound(node: Node, inp: Input, mac: string)
    requires node.phase == Idle && inp.Fits(|node.panel.units|) && Sound(node, mac)
    ensures Sound(Begun(node, inp), mac)
  {
    BegunNotices(node, inp);
    BegunIsGated(node, inp);
    var log := Begun(node, inp).log;
    assert CollisionNotices(log) == if Begun(node, inp).panel.logged then 1 else 0;
  }

  lemma MovedIsSound(s: System, step: Step)
    requires Inv(s) && !step.Publish? && Enabled(s, step)
    ensures Sound(Moved(s, step), s.macs[step.n])
  {
    if step.Begin? { BegunIsSound(s.nodes[step.n], step.inp, s.macs[step.n]); }
  }

  /** What a step can do to a flag: set it by delivering a foreign MAC suffix, or
      take it away by a restart. */
  lemma FlagOfMoved(s: System, step: Step)
    requires Inv(s) && !step.Publish? && Enabled(s, step)
    ensures var node, moved := s.nodes[step.n], Moved(s, step);
            match step
            case Deliver(n, k, now) =>
              var m := s.posts[k].message;
              && moved.settings == node.settings
              && moved.panel.guard == if m.topic == MacTopic(node.settings.nodeId) && m.payload != s.macs[n]
                                      then GuardState(true, m.payload) else node.panel.guard
            case Restart(n, c, boots) => !moved.panel.guard.collision
            case _ => moved.settings == node.settings && moved.panel.guard == node.panel.guard
  {}

  lemma ExplainedStays(s: System, step: Step, n: nat)
    requires Inv(s) && n < |s.nodes| && Enabled(s, step)
    ensures Explained(Next(s, step), n)
  {
    var t := Next(s, step);
    if !step.Publish? && step.n == n { FlagOfMoved(s, step); }
    if t.nodes[n].panel.guard.collision {
      if t.nodes[n].panel.guard == s.nodes[n].panel.guard {
        assert Explained(s, n);
      } else {
        assert Honest(s.posts[step.k], s.macs);
        assert Rival(t.posts[step.k], t.macs, n, t.nodes[n].settings.nodeId);
      }
    }
  }

  lemma StepKeepsInv(s: System, step: Step)
    requires Inv(s)
    ensures Inv(Next(s, step))
  {
    if Enabled(s, step) {
      StepPostsHonestly(s, step);
      if !step.Publish? { MovedIsSound(s, step); }
      forall n | 0 <= n < |s.nodes| ensures Explained(Next(s, step), n) { ExplainedStays(s, step, n); }
    }
  }

  lemma {:induction false} RunKeepsInv(s: System, steps: seq<Step>)
    requires Inv(s)
    ensures Inv(After(s, steps))
    decreases |steps|
  {
    if steps != [] {
      RunKeepsInv(s, steps[..|steps| - 1]);
      StepKeepsInv(After(s, steps[..|steps| - 1]), steps[|steps| - 1]);
    }
  }

  lemma StartIsSound(settings: seq<Settings>, boots: seq<seq<Boot>>)
    requires |settings| == |boots|
    ensures Inv(Start(settings, boots))
  {}

  /** The invariant holds in every run. */
  lemma AlwaysInv(settings: seq<Settings>, boots: seq<seq<Boot>>, steps: seq<Step>)
    requires |settings| == |boots|
    ensures Inv(After(Start(settings, boots), steps))
  {
    StartIsSound(settings, boots);
    RunKeepsInv(Start(settings, boots), steps);
  }

  // ------------------------------------------------------------ main theorems

  /** In every run, a panel's flag is set only if another panel, with another MAC
      suffix, announced itself before under this panel's node id; its suffix is
      the one the guard reports. The notice is given at most once per start. */
  lemma FlaggedByRival(settings: seq<Settings>, boots: seq<seq<Boot>>, steps: seq<Step>, n: nat)
    requires n < |settings| == |boots|
    ensures var s := After(Start(settings, boots), steps);
            && Explained(s, n)
            && CollisionNotices(s.nodes[n].log) <= 1
            && (CollisionNotices(s.nodes[n].log) == 1 ==> s.nodes[n].panel.guard.collision)
  {
    AlwaysInv(settings, boots, steps);
    assert Sound(After(Start(settings, boots), steps).nodes[n], After(Start(settings, boots), steps).macs[n]);
  }

  /** The panels keep their node ids. */
  ghost predicate IdsKept(steps: seq<Step>, ids: seq<int>)
  {
    forall k :: 0 <= k < |steps| && steps[k].Restart? && steps[k].n < |ids| ==> steps[k].c.nodeId == ids[steps[k].n]
  }

  ghost predicate UnderOwnIds(s: System, ids: seq<int>)
  {
    && |s.macs| == |s.nodes| == |ids|
    && (forall i :: 0 <= i < |ids| ==> s.nodes[i].settings.nodeId == ids[i])
    && (forall k :: 0 <= k < |s.posts| && s.posts[k].ByPanel? ==>
          s.posts[k].panel < |ids| && s.posts[k].nodeId == ids[s.posts[k].panel])
  }

  lemma {:induction false} AlwaysUnderOwnIds(settings: seq<Settings>, boots: seq<seq<Boot>>, steps: seq<Step>,
                                             ids: seq<int>)
    requires |settings| == |boots| == |ids| && IdsKept(steps, ids)
    requires forall i :: 0 <= i < |ids| ==> settings[i].nodeId == ids[i]
    ensures UnderOwnIds(After(Start(settings, boots), steps), ids)
    decreases |steps|
  {
    if steps != [] {
      var before, step := steps[..|steps| - 1], steps[|steps| - 1];
      AlwaysUnderOwnIds(settings, boots, before, ids);
      StepUnderOwnIds(After(Start(settings, boots), before), step, ids);
    }
  }

  lemma StepUnderOwnIds(s: System, step: Step, ids: seq<int>)
    requires UnderOwnIds(s, ids) && (step.Restart? && step.n < |ids| ==> step.c.nodeId == ids[step.n])
    ensures UnderOwnIds(Next(s, step), ids)
  {
    if Enabled(s, step) {
      var posted := Posted(s, step);
      assert forall k :: 0 <= k < |posted| && posted[k].ByPanel? ==>
               posted[k].panel == step.n && posted[k].nodeId == s.nodes[step.n].settings.nodeId;
    }
  }

  /** Panels with pairwise distinct node ids never raise a flag. */
  lemma DistinctIdsNeverFlag(settings: seq<Settings>, boots: seq<seq<Boot>>, steps: seq<Step>, ids: seq<int>, n: nat)
    requires n < |settings| == |boots| == |ids| && IdsKept(steps, ids)
    requires forall i :: 0 <= i < |ids| ==> settings[i].nodeId == ids[i]
    requires forall i, j :: 0 <= i < j < |ids| ==> ids[i] != ids[j]
    ensures !After(Start(settings, boots), steps).nodes[n].panel.guard.collision
  {
    AlwaysUnderOwnIds(settings, boots, steps, ids);
    AlwaysInv(settings, boots, steps);
    var s := After(Start(settings, boots), steps);
    assert Explained(s, n);
  }

  /** In any run, a step raises the flag exactly when it delivers to the panel,
      on the topic of its node id, another suffix than its own; the echo of its
      own announcement never does. */
  lemma RaisedExactlyByForeignMac(settings: seq<Settings>, boots: seq<seq<Boot>>, steps: seq<Step>, step: Step, n: nat)
    requires n < |settings| == |boots|
    requires !After(Start(settings, boots), steps).nodes[n].panel.guard.collision
    ensures var s := After(Start(settings, boots), steps);
            Next(s, step).nodes[n].panel.guard.collision
            <==> (&& Enabled(s, step) && step.Deliver? && step.n == n
                  && s.posts[step.k].message.topic == MacTopic(s.nodes[n].settings.nodeId)
                  && s.posts[step.k].message.payload != s.macs[n])
  {
    AlwaysInv(settings, boots, steps);
    var s := After(Start(settings, boots), steps);
    if Enabled(s, step) && !step.Publish? { FlagOfMoved(s, step); }
  }

  /** An announcement is posted in exactly those announce steps of a connected
      panel that are the first since it got connected, or come 30 s after the
      last one as the clock tells it; it carries the panel's own MAC suffix. */
  lemma AnnouncementIsPosted(s: System, n: nat, inp: Input)
    requires Inv(s) && Enabled(s, Announce(n, inp))
    ensures var a, id := s.nodes[n].panel.announcer, s.nodes[n].settings.nodeId;
            Next(s, Announce(n, inp)).posts
            == s.posts + if inp.announceConnected
                            && (!a.wasConnected || Since(inp.announceChecked, a.lastAnnounced) >= 30000)
                         then [ByPanel(n, id, Message(StatusTopic(id), "online")),
                               ByPanel(n, id, Message(MacTopic(id), s.macs[n]))]
                         else []
  {
    assert Sound(s.nodes[n], s.macs[n]);
  }

  /** After a restart, the first connected announce step is due. */
  lemma RestartedPanelIsUnannounced(s: System, n: nat, c: Settings, boots: seq<Boot>)
    requires |s.macs| == |s.nodes| && Enabled(s, Restart(n, c, boots))
    ensures !Next(s, Restart(n, c, boots)).nodes[n].panel.announcer.wasConnected
  {}

  /** Panel a is connected, and its announcement due. */
  ghost predicate AnnouncesItself(s: System, a: nat, inp: Input)
    requires |s.macs| == |s.nodes|
  {
    && Enabled(s, Announce(a, inp)) && inp.announceConnected
    && var announcer := s.nodes[a].panel.announcer;
       !announcer.wasConnected || Since(inp.announceChecked, announcer.lastAnnounced) >= 30000
  }

  /** Two panels with the same node id and different MAC suffixes notice it: in
      every run, what one announces is a message that sets the other's flag
      whenever it is delivered, however late, and names the one that announced. */
  lemma RivalIsNoticed(settings: seq<Settings>, boots: seq<seq<Boot>>, before: seq<Step>, a: nat, inp: Input,
                       between: seq<Step>, b: nat) returns (k: nat)
    requires |settings| == |boots|
    requires var s := After(Start(settings, boots), before);
             && AnnouncesItself(s, a, inp) && b < |s.nodes| && s.macs[b] != s.macs[a]
             && After(Next(s, Announce(a, inp)), between).nodes[b].settings.nodeId == s.nodes[a].settings.nodeId
    ensures var s := After(Start(settings, boots), before);
            var t := After(Next(s, Announce(a, inp)), between);
            && k < |t.posts|
            && forall now: Millis ::
                 t.nodes[b].phase == Linking && t.nodes[b].settings.configValid ==>
                   Next(t, Deliver(b, k, now)).nodes[b].panel.guard == GuardState(true, s.macs[a])
  {
    AlwaysInv(settings, boots, before);
    var s := After(Start(settings, boots), before);
    var u := Next(s, Announce(a, inp));
    AnnouncementIsPosted(s, a, inp);
    StepKeepsInv(s, Announce(a, inp));
    RunKeepsInv(u, between);
    k := |s.posts| + 1;
    var t := After(u, between);
    assert t.posts[k] == u.posts[k];
    forall now: Millis | t.nodes[b].phase == Linking && t.nodes[b].settings.configValid
      ensures Next(t, Deliver(b, k, now)).nodes[b].panel.guard == GuardState(true, s.macs[a])
    {
      FlagOfMoved(t, Deliver(b, k, now));
    }
  }

  /** Once set, at whatever point of an iteration, a flag stays set until its
      panel restarts. */
  lemma {:induction false} FlagStays(s: System, steps: seq<Step>, n: nat)
    requires Inv(s) && n < |s.nodes| && s.nodes[n].panel.guard.collision
    requires forall k :: 0 <= k < |steps| && steps[k].Restart? ==> steps[k].n != n
    ensures Inv(After(s, steps)) && After(s, steps).nodes[n].panel.guard.collision
    decreases |steps|
  {
    if steps != [] {
      FlagStays(s, steps[..|steps| - 1], n);
      var t, step := After(s, steps[..|steps| - 1]), steps[|steps| - 1];
      StepKeepsInv(t, step);
      if Enabled(t, step) && !step.Publish? { FlagOfMoved(t, step); }
    }
  }

  // ------------------------------------------------------- flagged panels

  /** The panel has noticed a collision, and an iteration it may be in the middle
      of began after that. */
  ghost predicate Muted(node: Node)
  {
    && node.panel.guard.collision
    && (node.Underway() ==>
          node.collision && forall i :: 0 <= i < |node.panel.units| ==> node.panel.units[i].suppressed)
  }

  ghost predicate SameTurnouts(a: seq<Unit>, b: seq<Unit>)
  {
    |a| == |b| && forall i :: 0 <= i < |a| ==> a[i].turnout == b[i].turnout
  }

  /** None of these posts is a command by panel n. */
  ghost predicate NoCommandsBy(n: nat, posts: seq<Post>)
  {
    forall k :: 0 <= k < |posts| && posts[k].ByPanel? && posts[k].panel == n ==> !IsCommandTopic(posts[k].message.topic)
  }

  lemma LowIsNoPress(b: Debounce.ButtonState, at: (Millis, Millis))
    ensures !Debounce.Updated(b, DEBOUNCE_MS, false, at.0, at.1).WasPressed()
  {}

  /** A gated button is never pressed, whatever its debouncer was about to say. */
  lemma GatedNeverPressed(u: Unit, normal: bool, active: bool, inp: Input, i: nat)
    requires inp.Fits(|inp.raw|) && i < |inp.raw|
    ensures var v := PanelRuns.Finished(ClearedOne(u, inp.cleared[i]), normal, active, inp, i);
            && (u.suppressed ==> StationSends(v) == [] && v.suppressed)
            && v.turnout == u.turnout && ClearedBlinking(v.led)
  {
    UnconfirmedLedBlinks(u.led, inp.cleared[i], normal, active, inp.identified[i], inp.blinked[i]);
    LowIsNoPress(u.button, inp.debounced[i]);
  }

  lemma {:induction false} NobodySends(units: seq<Unit>, n: nat)
    requires n <= |units| && forall i :: 0 <= i < n ==> StationSends(units[i]) == []
    ensures SentBy(units, n) == []
  {
    if n > 0 { NobodySends(units, n - 1); }
  }

  /** The rest of a muted iteration sends nothing, moves no turnout, and leaves
      every LED pair blinking "unconfirmed". */
  lemma MutedFinishIsSilent(node: Node, inp: Input)
    requires inp.Fits(|node.panel.units|) && node.Underway() && Muted(node)
    ensures Muted(Finished(node, inp)) && CommandsOf(node, inp) == []
    ensures var units := Finished(node, inp).panel.units;
            SameTurnouts(units, node.panel.units) && forall i :: 0 <= i < |units| ==> ClearedBlinking(units[i].led)
  {
    var c, units := node.settings, Finished(node, inp).panel.units;
    var normal, active := c.bootMode == Commissioning.Normal, TimerActive(node.panel.identify, inp.identifyRead);
    forall i | 0 <= i < |units|
      ensures StationSends(units[i]) == [] && units[i].suppressed
      ensures units[i].turnout == node.panel.units[i].turnout && ClearedBlinking(units[i].led)
    {
      PanelRuns.OneStationRun(c, node.panel.identify, node.panel.units, node.collision, inp, i);
      GatedNeverPressed(node.panel.units[i], normal, active, inp, i);
    }
    NobodySends(units, |units|);
  }

  lemma AnnouncementsAreNoCommands(nodeId: int, mac: string)
    ensures forall m <- Announcement(nodeId, mac) :: !IsCommandTopic(m.topic)
  {
    forall a: int ensures MacTopic(nodeId) != CommandTopic(a) && StatusTopic(nodeId) != CommandTopic(a) {
      MacTopicsApart(nodeId, a);
    }
  }

  lemma MutedStep(s: System, step: Step, n: nat)
    requires |s.macs| == |s.nodes| && n < |s.nodes| && Muted(s.nodes[n]) && Enabled(s, step)
    requires !(step.Restart? && step.n == n)
    ensures var t := Next(s, step);
            && Muted(t.nodes[n]) && NoCommandsBy(n, Posted(s, step))
            && SameTurnouts(t.nodes[n].panel.units, s.nodes[n].panel.units)
  {
    if !step.Publish? && step.n == n {
      match step {
        case Announce(_, inp) => AnnouncementsAreNoCommands(s.nodes[n].settings.nodeId, s.nodes[n].settings.mac);
        case Finish(_, inp) => MutedFinishIsSilent(s.nodes[n], inp);
        case _ =>
      }
    }
  }

  /** None of the posts from this one on is a command by panel n, whose turnouts
      are as in these units. */
  ghost predicate SilentSince(from: nat, units: seq<Unit>, t: System, n: nat)
    requires n < |t.nodes|
  {
    && (forall k :: from <= k < |t.posts| && t.posts[k].ByPanel? && t.posts[k].panel == n ==>
          !IsCommandTopic(t.posts[k].message.topic))
    && SameTurnouts(t.nodes[n].panel.units, units)
  }

  lemma SilentStep(from: nat, units: seq<Unit>, t: System, step: Step, n: nat)
    requires |t.macs| == |t.nodes| && n < |t.nodes| && Muted(t.nodes[n]) && SilentSince(from, units, t, n)
    requires !(step.Restart? && step.n == n)
    ensures Muted(Next(t, step).nodes[n]) && SilentSince(from, units, Next(t, step), n)
  {
    if Enabled(t, step) {
      MutedStep(t, step, n);
      assert Next(t, step).posts == t.posts + Posted(t, step);
      StillTheSame(units, t.nodes[n].panel.units, Next(t, step).nodes[n].panel.units);
    }
  }

  lemma StillTheSame(a: seq<Unit>, b: seq<Unit>, c: seq<Unit>)
    requires SameTurnouts(b, a) && SameTurnouts(c, b)
    ensures SameTurnouts(c, a)
  {}

  /** From the first iteration that begins with the flag set until the panel is
      restarted, whatever happens meanwhile: it publishes no command, none of
      its turnouts changes, and the flag stays. */
  lemma {:induction false} FlaggedPanelIsSilent(s: System, steps: seq<Step>, n: nat)
    requires |s.macs| == |s.nodes| && n < |s.nodes| && Muted(s.nodes[n])
    requires forall k :: 0 <= k < |steps| && steps[k].Restart? ==> steps[k].n != n
    ensures Muted(After(s, steps).nodes[n]) && SilentSince(|s.posts|, s.nodes[n].panel.units, After(s, steps), n)
    decreases |steps|
  {
    if steps != [] {
      FlaggedPanelIsSilent(s, steps[..|steps| - 1], n);
      SilentStep(|s.posts|, s.nodes[n].panel.units, After(s, steps[..|steps| - 1]), steps[|steps| - 1], n);
    }
  }

  lemma {:induction false} HearingKeepsMuted(node: Node, deliveries: seq<Delivery>)
    requires Muted(node)
    ensures Muted(HeardAll(node, deliveries)) && HeardAll(node, deliveries).phase == node.phase
    ensures HeardAll(node, deliveries).settings == node.settings
    decreases |deliveries|
  {
    if deliveries != [] { HearingKeepsMuted(node, deliveries[..|deliveries| - 1]); }
  }

  /** The rest of an iteration that began with the flag set. */
  lemma RestIsSilent(begun: Node, inp: Input, heard: Node)
    requires begun.phase == Linking && Muted(begun) && inp.Fits(|begun.panel.units|)
    requires heard == if begun.settings.configValid && inp.wifiConnected then HeardAll(begun, inp.delivered) else begun
    ensures Muted(Finished(Announced(heard, inp), inp)) && CommandsOf(Announced(heard, inp), inp) == []
    ensures SameTurnouts(Finished(Announced(heard, inp), inp).panel.units, begun.panel.units)
  {
    HearingKeepsMuted(begun, inp.delivered);
    MutedFinishIsSilent(Announced(heard, inp), inp);
  }

  ghost predicate NoCommands(messages: seq<Message>) { forall m <- messages :: !IsCommandTopic(m.topic) }

  lemma AnnouncingIsNoCommand(node: Node, inp: Input)
    ensures NoCommands(AnnouncementOf(node, inp))
  {
    AnnouncementsAreNoCommands(node.settings.nodeId, node.settings.mac);
  }

  lemma FlaggedStepsAreSilent(node: Node, inp: Input)
    requires node.phase == Idle && node.panel.guard.collision && inp.Fits(|node.panel.units|)
    ensures var (last, published) := Steps(node, inp);
            last.panel.guard.collision && SameTurnouts(last.panel.units, node.panel.units) && NoCommands(published)
  {
    var begun := Begun(node, inp);
    assert SameTurnouts(begun.panel.units, node.panel.units);
    if begun.phase == Linking {
      var heard := if node.settings.configValid && inp.wifiConnected then HeardAll(begun, inp.delivered) else begun;
      RestIsSilent(begun, inp, heard);
      AnnouncingIsNoCommand(heard, inp);
      assert Steps(node, inp).1 == AnnouncementOf(heard, inp);
      StillTheSame(node.panel.units, begun.panel.units, Steps(node, inp).0.panel.units);
    }
  }

  /** So does every single iteration of the loop that begins with the flag set. */
  lemma FlaggedIterationIsSilent(c: Settings, s: Panel, inp: Input)
    requires s.guard.collision && inp.Fits(|s.units|)
    ensures var (t, out) := Iterated(c, s, inp);
            t.guard.collision && SameTurnouts(t.units, s.units) && NoCommands(out.published)
  {
    var node := Node(c, s, Idle, false, []);
    StepsAreTheLoop(node, inp);
    FlaggedStepsAreSilent(node, inp);
  }
}
