# Verified model of the turnout control firmware

This project models, in Dafny, the control logic of the turnout panels and of the
LocoNet board, and three algorithms of the Catch2 copy that the repository builds its
tests with. Classes have the source's fields and are proved against functions on
their states; the main results are lemmas over all runs of those functions.

`dafny verify dfyconfig.toml` checks everything.

| file | what it models |
|---|---|
| `Clock.dfy` | the 32-bit millisecond clock: readings wrap around, real times do not |
| `Button.dfy`, `SetupTrigger.dfy` | the debounced button; the hold, release and settle machine that asks for wireless setup |
| `LedDrivers.dfy` | the two red/green LED drivers and the turnout indicator |
| `Presence.dfy` | topics, presence announcements, and the guard that notices a second panel with the same node id |
| `Panel.dfy` | a panel of the ESP32 node board and one iteration of its loop, statement by statement |
| `PanelRuns.dfy` | what the iterations of a panel come to, from the levels of its buttons to its commands and LED pairs |
| `PanelNetwork.dfy` | any number of panels on one broker, their loops interleaved step by step |
| `LocoNetPulse.dfy`, `RouteExecution.dfy` | the pulsing transport, and the service that executes a route command by command |
| `Turnouts.dfy`, `Routes.dfy` | the turnout and route tables, updated in place, and the activation of a route |
| `Text.dfy`, `Commissioning.dfy`, `SerialFraming.dfy` | printing, reading and splitting text; commands, validation, session, store and web form; lines on the serial port |
| `SectionTracker.dfy`, `ExtendedMult.dfy`, `IsPermutation.dfy` | Catch2: running every section of a test case, 64-bit by 64-bit multiplication, comparing ranges as multisets |

## Reading the model

* **Time.** A clock reading is an argument of the operation that reads the clock. Runs
  give each reading a real time, and `Reading` maps it to what the clock shows, so a
  claim about elapsed time is about real time unless it says "as the clock tells it".
* **Input and output.** Levels of inputs, messages handed over by the broker, link
  states and the store's willingness to save are arguments of a step or arbitrary
  functions. What an operation sends is its result, or is appended to a sequence.
* **The network.** The loop of a panel is cut into the steps *begin* (up to the polling
  of the links), *deliver* (one message), *announce* and *finish*. `StepsAreTheLoop`
  shows that these steps in a row are the loop's body, which `PanelBoard.Loop`
  implements; `PanelNetwork` interleaves the steps of all panels, with restarts under
  new settings at any point, with messages from elsewhere, and with a broker that may
  deliver anything ever published, in any order, repeatedly, or never.
* **Texts.** Answers, complaints and notices are datatypes with a `Text()` or
  `Message()` function. The program compares answers as texts; `ResponsesDiffer` shows
  that comparing the datatypes is the same.

## Where the code does less than one might expect

* `EmptyStartKeepsIndex`: starting an empty route leaves the index of the route before
  (`lib/McsCore/src/application/RouteExecutionService.cpp:9-15`), so the index counts
  what was sent exactly if the route is not empty or the index was 0.
  `EmptyStartAfterRoute` is such a run.
* `WaitsIffNoWrap`: a pulse whose release time wraps around the clock counts as finished
  at once, because `PulsingLocoNetTransport::update` compares absolute times; a pulse
  waits for its duration exactly if its release time does not wrap. `WrapCutsOff` is a
  run in which a pulse is cut off after one millisecond.
* `OverInTimeIff`: the same comparison can come too late. With updates at most d ms
  apart, a pulse whose release time does not wrap is over within its duration plus d,
  whatever the updates, exactly if that sum stays within the clock's period; otherwise
  updates that step over the wrap-around leave the output on (`NeverOver`).
* `FullUnlessCutShort`, `SecondSenderTruncates`: apart from wrap-around, all pulses are
  full exactly if no command arrives while one is pending. The `static_assert` of the
  board ensures this for a route (`BoardRunsRoute`), but not when a station button is
  pressed during a route.
* `AnnouncesWhenClockSaysSo`, `Heartbeat`: an announcement is due when the elapsed time
  modulo 2^32 has reached the interval; the heartbeat is therefore kept when updates
  are at most 2^32 - 30000 ms apart.
* `RequestedIffEpisodeCloses`: hold and settle times are those that the clock tells;
  `SettlesInRealTime` says when the settle time is real.

The round trip of the web form is an identity exactly if the broker host contains no
white space (`RoundTrip`), since the form is turned into command lines. No host that
was typed in contains any (`HostsStaySpaceFree`), so every draft that a node can reach
makes the round trip (`ReachedDraftsRoundTrip`).

## Model

| member | source | states |
|---|---|---|
| Clock.SinceIsElapsed | lib/McsCore/src/domain/Button.cpp:22-25 | unsigned subtraction of two readings never exceeds the time that really passed, and is that time modulo 2^32 |
| Clock.SinceExact | lib/McsCore/src/domain/Button.cpp:22-25 | it is exactly the time that passed when that is less than a clock period, across wrap-arounds |
| Debounce.Button.Update | lib/McsCore/src/domain/Button.cpp:10-26 | the whole new state of the debouncer, including the order of the two clock readings |
| Debounce.ReportedIffHeld | lib/McsCore/src/domain/Button.cpp:28-41 | in every run, a press is reported by exactly those updates that find a released button held for the debounce time, a release by those that find a pressed one let go that long |
| Debounce.ChangeNoted | lib/McsCore/src/domain/Button.cpp:14-18 | over every run, the noted time is that of the last change of the raw level |
| Debounce.FlipIsDebounced | lib/McsCore/src/domain/Button.cpp:20-25 | the stable reading flips only after every sample since the last raw change had the new value and the debounce time really passed, also across wrap-around |
| Debounce.SteadyIsStable | lib/McsCore/src/domain/Button.cpp:20-25 | conversely, a level steady for the debounce time (below a clock period) is the stable reading |
| Debounce.EventsAlternate | lib/McsCore/src/domain/Button.cpp:33-41 | over every run, presses and releases alternate, beginning with a press |
| SetupTrigger.ButtonSetupModeTrigger.Update | lib/McsEsp32/src/adapters/ButtonSetupModeTrigger.cpp:9-43 | the whole new state of the trigger |
| SetupTrigger.FollowsEpisode | lib/McsEsp32/src/adapters/ButtonSetupModeTrigger.cpp:14-31 | from the first active sample until a gap settles, the trigger remembers when the episode and its last gap began, whatever the button bounces |
| SetupTrigger.StateExplained | lib/McsEsp32/src/adapters/ButtonSetupModeTrigger.cpp:9-43 | after every run the trigger is either at rest with no episode in progress, or in the middle of exactly the episode the samples show |
| SetupTrigger.RequestedIffEpisodeCloses | lib/McsEsp32/src/adapters/ButtonSetupModeTrigger.cpp:9-43 | a request is made in exactly those updates that close a press episode that lasted the minimum hold |
| SetupTrigger.OneRequestPerEpisode | lib/McsEsp32/src/adapters/ButtonSetupModeTrigger.cpp:11-42 | an episode is closed by one sample only, so it makes at most one request |
| SetupTrigger.SettlesInRealTime | lib/McsEsp32/src/adapters/ButtonSetupModeTrigger.cpp:32-42 | sampled often enough, a gap settles exactly when the settle time has really passed |
| LedDrivers.LedPairDriver.constructor | lib/McsEsp32/src/domain/LedPairDriver.cpp:3-9 | the initial state and the colour first shown |
| LedDrivers.LedPairDriver.Begin | lib/McsEsp32/src/domain/LedPairDriver.cpp:11-15 | new state; the pin shows the colour written last |
| LedDrivers.LedPairDriver.SetGreen | lib/McsEsp32/src/domain/LedPairDriver.cpp:17-21 | new state after a request for green is made or withdrawn |
| LedDrivers.LedPairDriver.SetRed | lib/McsEsp32/src/domain/LedPairDriver.cpp:23-27 | new state after a request for red is made or withdrawn |
| LedDrivers.LedPairDriver.SetIdentifying | lib/McsEsp32/src/domain/LedPairDriver.cpp:39-56 | entering and leaving the identify overlay |
| LedDrivers.LedPairDriver.ApplyState | lib/McsEsp32/src/domain/LedPairDriver.cpp:58-101 | the mode that the two requests lead to, and the colour written if it changed |
| LedDrivers.LedPairDriver.Update | lib/McsEsp32/src/domain/LedPairDriver.cpp:124-155 | toggling of the blink and of the identify overlay |
| LedDrivers.IndependentLedPairDriver.constructor | lib/McsEsp32/src/domain/IndependentLedPairDriver.cpp:3-11 | the initial state and the colour first shown |
| LedDrivers.IndependentLedPairDriver.Begin | lib/McsEsp32/src/domain/IndependentLedPairDriver.cpp:13-17 | new state; the two pins are complementary |
| LedDrivers.IndependentLedPairDriver.SetGreen | lib/McsEsp32/src/domain/IndependentLedPairDriver.cpp:19-23 | new state after a request for green is made or withdrawn |
| LedDrivers.IndependentLedPairDriver.SetRed | lib/McsEsp32/src/domain/IndependentLedPairDriver.cpp:25-29 | new state after a request for red is made or withdrawn |
| LedDrivers.IndependentLedPairDriver.SetIdentifying | lib/McsEsp32/src/domain/IndependentLedPairDriver.cpp:41-58 | entering and leaving the identify overlay |
| LedDrivers.IndependentLedPairDriver.ApplyState | lib/McsEsp32/src/domain/IndependentLedPairDriver.cpp:60-103 | the mode that the two requests lead to, and the colour written if it changed |
| LedDrivers.IndependentLedPairDriver.Update | lib/McsEsp32/src/domain/IndependentLedPairDriver.cpp:127-158 | toggling of the blink and of the identify overlay |
| LedDrivers.Lockstep | lib/McsEsp32/src/domain/IndependentLedPairDriver.h:7-19 | fed the same calls and clock readings from construction, after every call the green pin equals the shared pin and the red pin is its complement |
| LedDrivers.RequestsDecide | lib/McsEsp32/src/domain/LedPairDriver.cpp:58-101 | a single request shows its colour, none blinks from now on beginning with the colour shown last, both at once change nothing; a colour is written exactly when the mode changes |
| LedDrivers.BlinksAtInterval | lib/McsEsp32/src/domain/LedPairDriver.cpp:138-155 | over every run of updates, a blinking pair changes its colour exactly at the updates that come an interval, as the clock tells it, after the last change |
| LedDrivers.NewPairBlinks | lib/McsEsp32/src/domain/LedPairDriver.cpp:3-15 | a new pair shows its default colour and blinks from its begin on |
| LedDrivers.IdentifyBeginsGreen | lib/McsEsp32/src/domain/LedPairDriver.cpp:39-56 | an identify episode begins with green, whatever was shown |
| LedDrivers.IdentifiesEvery150 | lib/McsEsp32/src/domain/LedPairDriver.cpp:124-136 | under the overlay it changes its colour in the same way every 150 ms |
| LedDrivers.AlwaysConsistent | lib/McsEsp32/src/domain/LedPairDriver.cpp:103-155 | over every run, whenever the pair is not identifying, it shows the colour its mode calls for |
| LedDrivers.CallKeepsConsistent | lib/McsEsp32/src/domain/LedPairDriver.cpp:11-155 | every single call keeps that, and keeps mode and requests in agreement |
| LedDrivers.IdentifyUndone | lib/McsEsp32/src/domain/LedPairDriver.cpp:39-56 | after an identify episode of any length, the pair is in the state and shows the colour that the requests made meanwhile alone would have led to |
| LedDrivers.TurnoutIndicator.Display | lib/McsCore/src/domain/TurnoutIndicator.cpp:8-20 | the driver's state after the two requests, the new colour first |
| LedDrivers.TurnoutIndicator.Clear | lib/McsCore/src/domain/TurnoutIndicator.cpp:22-26 | the driver's state after both requests were withdrawn |
| LedDrivers.DisplayEndsInColour | lib/McsCore/src/domain/TurnoutIndicator.cpp:8-20 | from any state of the driver, displaying a position ends in its colour with at most one colour written, and never newly blinks on the way |
| LedDrivers.DisplayShows | lib/McsCore/src/domain/TurnoutIndicator.cpp:8-20 | unless it is identifying, the pair then shows that colour |
| LedDrivers.ClearEndsBlinking | lib/McsCore/src/domain/TurnoutIndicator.cpp:22-26 | clearing releases red first: it ends in blinking, from green if both were requested and else from the colour shown last |
| LedDrivers.ClearsChangeNothing | lib/McsCore/src/domain/TurnoutIndicator.cpp:22-26 | any number of clears among the updates of a blinking pair changes neither toggle times nor colours |
| Presence.MacTopicsApart | lib/McsEsp32/src/domain/PresenceTopics.h:8-21 | the MAC topic is injective in the node id, and apart from status, identify and command topics |
| Presence.NodeIdentityGuard.OnMacObserved | lib/McsEsp32/src/domain/NodeIdentityGuard.cpp:7-14 | a foreign suffix sets the flag and is remembered; one's own changes nothing |
| Presence.TopicsSpelledOut | lib/McsEsp32/src/domain/PresenceTopics.h:8-21 | the topics of a node and of a turnout, spelled out |
| Presence.MqttPresenceAnnouncer.Update | lib/McsEsp32/src/application/MqttPresenceAnnouncer.cpp:9-33 | when an announcement is made, its two messages, and the new state |
| Presence.NotEarly | lib/McsEsp32/src/application/MqttPresenceAnnouncer.cpp:17-23 | no announcement before the interval has really passed |
| Presence.AnnouncesWhenClockSaysSo | lib/McsEsp32/src/application/MqttPresenceAnnouncer.cpp:17-23 | an update announces exactly if the time since the last announcement, modulo 2^32, has reached the interval |
| Presence.Heartbeat | lib/McsEsp32/src/application/MqttPresenceAnnouncer.cpp:9-33 | connected and updated at most d apart, a panel announces again after at least 30000 and at most 30000 + d ms |
| Presence.ConnectingAnnounces | lib/McsEsp32/src/application/MqttPresenceAnnouncer.cpp:11-23 | nothing is announced while disconnected, and the first connected update announces at once |
| Panel.ToggleTurnoutStation.constructor | lib/McsEsp32/src/adapters/ToggleTurnoutStation.cpp:3-13 | the initial state of a station: turnout closed, button released |
| Panel.ToggleTurnoutStation.Update | lib/McsEsp32/src/adapters/ToggleTurnoutStation.cpp:20-24 | the new state, and the command sent |
| Panel.ToggleTurnoutStation.ApplyFeedback | lib/McsEsp32/src/application/ToggleTurnoutControl.cpp:21-38 | a report for the station's address sets position and indicator; any other changes nothing |
| Panel.ToggleTurnoutStation.ClearIndicator | lib/McsEsp32/src/adapters/ToggleTurnoutStation.cpp:31-34 | only the LED pair changes |
| Panel.PayloadReadBack | lib/McsEsp32/src/domain/PayloadCodec.h:11-27 | a payload is read back as the position it was made from, and is "THROWN" exactly for thrown, "CLOSED" exactly for closed |
| Panel.PublishedIffAskedFor | lib/McsEsp32/src/application/ToggleTurnoutControl.cpp:9-19 | a command is published exactly if a station with a configured channel was just pressed, and it asks for the opposite of the position last reported |
| Panel.AskedForIsSent | lib/McsEsp32/src/adapters/Loco2MqttTurnoutCommandAdapter.cpp:14-28 | the same for one station: channel range, unconfigured channel, topic and payload |
| Panel.LastReportShows | lib/McsEsp32/src/application/ToggleTurnoutControl.cpp:21-38 | after any number of reports, position and colour are those of the last report for the turnout's address |
| Panel.BootBoard | src/esp32node4/main.cpp:135-222 | construction and set-up lead to the initial state of a panel, every station with its own parts |
| Panel.PanelBoard.Loop | src/esp32node4/main.cpp:246-378 | one iteration, on the objects of the board: the state of every part afterwards, what is published and what is logged |
| Panel.PanelBoard.RunTop | src/esp32node4/main.cpp:268-295 | collision notice, gates, and the restart for wireless setup |
| Panel.PanelBoard.PollLinks | src/esp32node4/main.cpp:297-304 | what the subscriptions make of the messages handed over |
| Panel.PanelBoard.RunLinks | src/esp32node4/main.cpp:297-326 | polling, then the announcement |
| Panel.PanelBoard.RunStations | src/esp32node4/main.cpp:328-370 | feedback or its absence, identify overlay, LED updates and button updates, in this order |
| Panel.PanelBoard.Publish | lib/McsEsp32/src/adapters/Loco2MqttTurnoutCommandAdapter.cpp:14-28 | the messages for a sequence of commands |
| PanelRuns.OneStation | src/esp32node4/main.cpp:277-370 | every station takes its own course through the passes of an iteration: gate, reports or their absence, overlay, LED update, button |
| PanelRuns.ConfirmedByLastReport | src/esp32node4/main.cpp:328-339 | connected and without a collision, a turnout and its LED pair end an iteration as last reported |
| PanelRuns.TurnoutAsLastReported | lib/McsEsp32/src/application/ToggleTurnoutControl.cpp:21-38 | over every run, an unblocked turnout stays so and has the position last reported in all the reports ever taken in |
| PanelRuns.RequestOpposesLastReport | lib/McsEsp32/src/application/ToggleTurnoutControl.cpp:9-19 | from the set-up on, no turnout is blocked, each is closed until reported otherwise, and a command asks for the opposite of the position last reported |
| PanelRuns.CommandsOfRun | lib/McsEsp32/src/application/ToggleTurnoutControl.cpp:9-19 | over every run from the set-up on, the commands published in an iteration are exactly those of stations just pressed with a configured channel, and each says "THROWN" if its turnout was last reported closed or never reported, "CLOSED" if thrown |
| PanelRuns.UnconfirmedWithoutReports | src/esp32node4/main.cpp:339-346 | otherwise every pair ends it blinking "unconfirmed", whatever it was doing |
| PanelRuns.IdentifyingIffActive | src/esp32node4/main.cpp:348-365 | in normal mode, pairs identify at the end of an iteration exactly while the timer is active |
| PanelRuns.IdentifyTakesEffectAtOnce | src/esp32node4/main.cpp:348-365 | an identify message takes effect in the very iteration that polls it, unless its time is over by then |
| PanelRuns.IdentifyingIffAsked | lib/McsEsp32/src/domain/IdentifyModeTimer.cpp:8-17 | over every run in normal mode, pairs identify exactly if an identify message was polled, the last one less than ten seconds ago as the clock tells it |
| PanelRuns.OverlayComesFirst | src/esp32node4/main.cpp:348-365 | the overlay is set before the pairs are updated: while a pair identifies, its own blinking stands still |
| PanelRuns.RestartsAndNotices | src/esp32node4/main.cpp:246-295 | a panel restarts exactly when told to on the serial port or when a setup request was stored; it says so, says if it could not store it, and reports a collision once |
| PanelRuns.BootShowsMode | src/esp32node4/main.cpp:208-222 | after the set-up every pair blinks, from red, and identifies exactly in wireless setup |
| PanelRuns.WirelessSetupIsQuiet | src/esp32node4/main.cpp:256-264 | in wireless setup the loop keeps the pairs going and does nothing else |
| PanelRuns.UnconfiguredIsDeaf | src/esp32node4/main.cpp:297-346 | without a valid configuration, flag, timer and turnouts do not change |
| PanelRuns.ButtonFollowsInput | lib/McsCore/src/domain/Button.cpp:10-26 | over every run of the loop, a station's debouncer is that of its raw level gated by the collision flag as each iteration found it |
| PanelRuns.CommandNeedsSteadyPress | src/esp32node4/main.cpp:268-370 | over every run from a state with the button at rest, a restart in particular, a command is asked for only after the raw level was high in every iteration for the debounce time in real time, none of which began with the flag set |
| PanelRuns.SteadyPressIsSent | src/esp32node4/main.cpp:268-370 | conversely, once the gated level of a released button has been high that long, the command is published, if the channel is configured |
| PanelNetwork.StepsAreTheLoop | src/esp32node4/main.cpp:246-378 | begin, deliver, announce and finish in a row have the same result, messages and notices as the loop's body |
| PanelNetwork.FlaggedByRival | lib/McsEsp32/src/domain/NodeIdentityGuard.cpp:7-14 | in every run of any number of panels, a flag is set only if another panel with another MAC suffix announced itself earlier under this panel's node id; the suffix reported is that panel's; the notice is given at most once per start |
| PanelNetwork.AlwaysInv | src/esp32node4/main.cpp:236-237 | the invariant behind it: every MAC message comes from the panel it names, under the node id it then had |
| PanelNetwork.DistinctIdsNeverFlag | lib/McsEsp32/src/domain/PresenceTopics.h:13-16 | panels that keep pairwise distinct node ids never raise a flag, whatever the broker does |
| PanelNetwork.AnnouncementIsPosted | lib/McsEsp32/src/application/MqttPresenceAnnouncer.cpp:9-33 | an announce step posts the panel's MAC suffix on the topic of its node id, after "online", exactly if it is connected and either was not before or announced 30 s ago, as the clock tells it |
| PanelNetwork.RivalIsNoticed | lib/McsEsp32/src/domain/NodeIdentityGuard.cpp:7-14 | in every run, what a connected panel with a due announcement posts sets the flag of any panel with the same node id and another suffix to which it is delivered, however late, and names the one that announced |
| PanelNetwork.RestartedPanelIsUnannounced | lib/McsEsp32/src/application/MqttPresenceAnnouncer.cpp:17-23 | after a restart the first connected announce step is due |
| PanelNetwork.RaisedExactlyByForeignMac | src/esp32node4/main.cpp:236-237 | in every run, a step raises a flag exactly if it delivers to this panel another suffix than its own on the topic of its node id; its own echo never does |
| PanelNetwork.FlagStays | lib/McsEsp32/src/domain/NodeIdentityGuard.cpp:7-14 | once set, at whatever point of an iteration, a flag stays set until its panel restarts |
| PanelNetwork.FlaggedPanelIsSilent | src/esp32node4/main.cpp:268-370 | from the first iteration that begins with the flag set until the panel restarts, it publishes no command, no turnout of it changes, and the flag stays, whatever all other panels and the broker do |
| PanelNetwork.FlaggedIterationIsSilent | src/esp32node4/main.cpp:268-370 | the same for a single iteration of the loop, from any state of debouncers, LED pairs and timers |
| PanelNetwork.MutedFinishIsSilent | src/esp32node4/main.cpp:328-370 | the rest of such an iteration sends nothing and leaves every LED pair blinking "unconfirmed" |
| PanelNetwork.GatedNeverPressed | lib/McsEsp32/src/adapters/GatedDigitalInput.cpp:12-15 | behind a closed gate no button is pressed, whatever its debouncer was about to report |
| LocoNetPulse.PulsingLocoNetTransport.SendPacket | lib/McsLoconet/src/adapters/PulsingLocoNetTransport.cpp:8-21 | new state and requests: an OFF for a pending pulse, then the ON |
| LocoNetPulse.PulsingLocoNetTransport.Update | lib/McsLoconet/src/adapters/PulsingLocoNetTransport.cpp:23-29 | new state and requests: the OFF once the release time is reached |
| LocoNetPulse.PulsingLocoNetTransport.ReleasePendingSwitch | lib/McsLoconet/src/adapters/PulsingLocoNetTransport.cpp:31-35 | the OFF names the pending address and position |
| LocoNetPulse.TimedRunIsFaithful | lib/McsLoconet/src/adapters/PulsingLocoNetTransport.cpp:8-35 | a run with real times requests what the operations say |
| LocoNetPulse.DriverSeesSends | lib/McsLoconet/src/adapters/PulsingLocoNetTransport.cpp:8-21 | for any senders and updates, the driver sees an ON for exactly the commands sent, in order, each with its command's address and position |
| LocoNetPulse.AlwaysPulseTrain | lib/McsLoconet/src/adapters/PulsingLocoNetTransport.cpp:8-35 | for any senders and updates the trace is (ON x, OFF x)* and possibly one ON, and a pulse is pending exactly in the latter case |
| LocoNetPulse.AtMostOneEnergised | lib/McsLoconet/src/adapters/PulsingLocoNetTransport.cpp:8-35 | at every point at most one output is on, and it is that of the last ON |
| LocoNetPulse.WaitsIffNoWrap | lib/McsLoconet/src/adapters/PulsingLocoNetTransport.cpp:20-28 | a pulse waits for its duration exactly if its release time does not wrap around |
| LocoNetPulse.WrapCutsOff | lib/McsLoconet/src/adapters/PulsingLocoNetTransport.cpp:20-28 | a run in which a wrap-around cuts a pulse off after one millisecond |
| LocoNetPulse.PendingUntilPassed | lib/McsLoconet/src/adapters/PulsingLocoNetTransport.cpp:23-29 | a pulse stays pending exactly until an update finds its release time passed |
| LocoNetPulse.OverInTimeIff | lib/McsLoconet/src/adapters/PulsingLocoNetTransport.cpp:20-28 | with updates at most d apart, a pulse that does not wrap is over within its duration plus d, whatever the updates, exactly if the sum stays within the clock's period |
| LocoNetPulse.FullUnlessCutShort | lib/McsLoconet/src/adapters/PulsingLocoNetTransport.cpp:8-35 | without wrap-around, every OFF comes at least the pulse duration after its ON exactly if no command was sent while a pulse was pending and too young |
| RouteExecution.RouteExecutionService.Start | lib/McsCore/src/application/RouteExecutionService.cpp:9-31 | new state of service and transport, and what is sent |
| RouteExecution.RouteExecutionService.Update | lib/McsCore/src/application/RouteExecutionService.cpp:33-62 | new state of service and transport, and what is sent, with every early exit |
| RouteExecution.AlwaysInvariant | lib/McsCore/src/application/RouteExecutionService.cpp:9-62 | since the start of a non-empty route the commands sent are exactly its first nextCommandIndex, in order, even if it grows; sends are at least the spacing apart in real time, across wrap-arounds |
| RouteExecution.DriverSeesRoute | lib/McsCore/src/application/RouteExecutionService.cpp:9-62 | over every run, the driver has switched on exactly the first nextCommandIndex turnouts of the route, in order, each to its commanded position |
| RouteExecution.SendsExactlyWhenSpaced | lib/McsCore/src/application/RouteExecutionService.cpp:33-62 | over every run, an update sends the next command exactly if the service runs, commands are left and the spacing has passed since the last send, as the clock tells it |
| RouteExecution.EmptyStartKeepsIndex | lib/McsCore/src/application/RouteExecutionService.cpp:9-15 | that holds after a start exactly if the route is not empty or the index was 0 |
| RouteExecution.DueUpdateProgresses | lib/McsCore/src/application/RouteExecutionService.cpp:46-67 | each due update sends the next command, and the service runs exactly while commands are left |
| RouteExecution.RoutePulsesComplete | lib/McsLoconet/src/adapters/PulsingLocoNetTransport.cpp:8-35 | a route as the only sender, spaced at least the pulse duration, never truncates a pulse, for any times at which updates happen |
| RouteExecution.WholeRouteSent | lib/McsCore/src/application/RouteExecutionService.cpp:33-67 | over every run, the service has stopped exactly when the whole route was sent, if nothing was appended |
| RouteExecution.EmptyStartAfterRoute | lib/McsCore/src/application/RouteExecutionService.cpp:9-15 | a run in which the index claims a command of an empty route |
| RouteExecution.BoardRunsRoute | src/mega/main.cpp:124-157 | with the board's 250 and 300 ms, the update that follows a start and then iterations that update the transport first and the service last: no pulse is truncated, and the service stops exactly when the whole route was sent |
| RouteExecution.SecondSenderTruncates | src/mega/main.cpp:124-157 | a concrete run in which a second sender truncates a pulse |
| Turnouts.Turnout.ThrowStraight | lib/McsCore/src/domain/Turnout.cpp:22-25 | only an unlocked, enabled turnout moves |
| Turnouts.Turnout.ThrowDiverging | lib/McsCore/src/domain/Turnout.cpp:27-30 | only an unlocked, enabled turnout moves |
| Turnouts.Turnout.Toggle | lib/McsCore/src/domain/Turnout.cpp:44-51 | only an unlocked, enabled turnout moves, to its other position |
| Turnouts.TurnoutCollection.Add | lib/McsCore/src/domain/TurnoutCollection.cpp:3-17 | overwrites the entry with the same address, else appends, else (table full) changes nothing; addresses stay unique |
| Turnouts.AddedIsFound | lib/McsCore/src/domain/TurnoutCollection.cpp:3-17 | unless its address is new and the table full, an added turnout is then in the table; nothing else is lost, added or moved |
| Turnouts.TurnoutCollection.GetByAddress | lib/McsCore/src/domain/TurnoutCollection.cpp:23-39 | the only entry with this address, or none |
| Turnouts.ValidationDecides | lib/McsCore/src/domain/TurnoutService.cpp:15-29 | which of the four results a table with unique addresses gives for an address, each exactly if there is no such entry, a locked one, a disabled but unlocked one, or a free one |
| Turnouts.TurnoutService.ThrowStraight | lib/McsCore/src/domain/TurnoutService.cpp:31-40 | the result code, and a table in which at most the named turnout's position changed |
| Turnouts.TurnoutService.ThrowDiverging | lib/McsCore/src/domain/TurnoutService.cpp:42-51 | the result code, and a table in which at most the named turnout's position changed |
| Routes.Route.AddTurnout | lib/McsCore/src/domain/Route.cpp:15-25 | refuses a second command for a turnout and a full route, else appends |
| Routes.Route.ContainsTurnout | lib/McsCore/src/domain/Route.cpp:31-38 | whether a command names the turnout |
| Routes.Route.GetTurnoutPosition | lib/McsCore/src/domain/Route.cpp:40-47 | the position commanded for a turnout, if any |
| Routes.RouteService.GetRoute | lib/McsCore/src/domain/RouteService.cpp:19-26 | the only route with this id, or none |
| Routes.RouteService.AddRoute | lib/McsCore/src/domain/RouteService.cpp:7-17 | refused exactly for an id in use (as when given one of the table's own routes) or a full table; ids stay unique and the other routes unchanged |
| Routes.RouteService.ActivateRoute | lib/McsCore/src/domain/RouteService.cpp:28-70 | the table afterwards and the result are exactly those determined by the first blocked command; an unknown route changes nothing |
| Routes.Activate | lib/McsCore/src/domain/RouteService.cpp:35-70 | the same for the loop over the commands, with its early exits and partial success |
| Routes.OneCommand | lib/McsCore/src/domain/RouteService.cpp:39-63 | one turn of that loop, by what validation says of the turnout |
| Routes.ActivationExact | lib/McsCore/src/domain/RouteService.cpp:28-70 | turnouts named before the first blocked command hold their commanded positions; every other entry, and every other field, is as it was |
| Routes.ActivationIdempotent | lib/McsCore/src/domain/RouteService.cpp:28-70 | a second activation changes nothing and returns the same result |
| Text.ParsePrinted | lib/McsEsp32/src/domain/CommandLineParser.cpp:28-49 | reading undoes printing for every 32-bit integer |
| Text.ParseIntExactly | lib/McsEsp32/src/domain/CommandLineParser.cpp:28-49 | a text is read exactly if it is white space, at most one sign and digits, of a value within 32 bits |
| Text.Tokenize | lib/McsEsp32/src/domain/CommandLineParser.cpp:16-26 | the loop collects exactly the words of the line |
| Text.TokensOfJoined | lib/McsEsp32/src/domain/CommandLineParser.cpp:16-26 | splitting undoes joining, for every sequence of words |
| Text.TokensKeepText | lib/McsEsp32/src/domain/CommandLineParser.cpp:16-26 | splitting loses nothing but white space, for every line |
| Commissioning.Validate | lib/McsEsp32/src/domain/NodeConfig.h:63-114 | the errors in order, and none exactly if all fields are in range and all configured addresses distinct |
| Commissioning.ValidateChannel | lib/McsEsp32/src/domain/NodeConfig.h:89-111 | the errors of one channel: its range, then its clashes with later channels |
| Commissioning.NoErrorsIffValid | lib/McsEsp32/src/domain/NodeConfig.h:63-114 | the list of errors is empty exactly for valid configurations |
| Commissioning.ReportedExactly | lib/McsEsp32/src/domain/NodeConfig.h:63-114 | each message is reported exactly if the configuration is as it complains: field out of range or empty, address out of range, two channels with one address |
| Commissioning.ParseExactly | lib/McsEsp32/src/domain/CommandLineParser.cpp:52-168 | a command is given by exactly the lines whose words spell it; every other line is refused |
| Commissioning.ChannelCommandExactly | lib/McsEsp32/src/application/CommissioningSession.h:18-67 | a channel command sets the address of an existing channel and nothing else, and is refused for any other |
| Commissioning.ResponsesDiffer | lib/McsEsp32/src/application/CommissioningSession.h:18-104 | the three texts the program compares answers with belong to these three answers only |
| Commissioning.CommissioningSession.Apply | lib/McsEsp32/src/application/CommissioningSession.h:18-67 | draft, store, reboot flag and answer after each command |
| Commissioning.WebFormCommissioningAdapter.Submit | lib/McsEsp32/src/adapters/WebFormCommissioningAdapter.h:19-62 | the session, the store and the answer after a submission, which stops at the first refusal |
| Commissioning.WebFormCommissioningAdapter.SubmitChannels | lib/McsEsp32/src/adapters/WebFormCommissioningAdapter.h:43-53 | the loop over the channels, a blank address standing for 0 |
| Commissioning.WebFormCommissioningAdapter.CurrentValues | lib/McsEsp32/src/adapters/WebFormCommissioningAdapter.h:69-86 | the form filled in from the draft, zeros blank, and never the password |
| Commissioning.FormSays | lib/McsEsp32/src/adapters/WebFormCommissioningAdapter.h:69-86 | the form filled in from a configuration reads as that configuration: a node id or address of 0 is blank, the port is always there, the password never |
| Commissioning.ParseBrokerLine | lib/McsEsp32/src/domain/CommandLineParser.cpp:93-109 | whatever was typed into the form, the line is a broker command or refused, and an accepted host has no white space |
| Commissioning.ParseTurnoutPrinted | lib/McsEsp32/src/domain/CommandLineParser.cpp:111-132 | a printed channel line is parsed back to its channel and address |
| Commissioning.FormTransfers | lib/McsEsp32/src/adapters/WebFormCommissioningAdapter.h:19-62 | a form filled in from one configuration transfers it to any session, which stores it and reboots |
| Commissioning.RoundTrip | lib/McsEsp32/src/adapters/WebFormCommissioningAdapter.h:69-86 | from a valid draft, submitting the current values answers "rebooting", leaves the draft as it was and stores it, exactly if the host has no white space |
| Commissioning.HostsStaySpaceFree | lib/McsEsp32/src/application/CommissioningSession.h:18-67 | over any history, neither draft nor store gets a host with white space |
| Commissioning.ReachedDraftsRoundTrip | lib/McsEsp32/src/adapters/WebFormCommissioningAdapter.h:69-86 | so every valid draft that a node reaches makes the round trip, without a condition on the host |
| Commissioning.StoredAsTyped | lib/McsEsp32/src/adapters/WebFormCommissioningAdapter.h:19-62 | whatever was typed: if the answer is "rebooting", the stored configuration is the one typed in, with the typed password or the former one if that field is blank, and blank addresses as 0 |
| Commissioning.SubmissionOutcome | lib/McsEsp32/src/adapters/WebFormCommissioningAdapter.h:19-62 | a submission answers "rebooting" exactly if the configuration it made up was valid and saved; with any other answer the store is unchanged |
| Commissioning.HistoryIsFaithful | lib/McsEsp32/src/application/CommissioningSession.h:18-67 | over any history of serial lines, submissions and restarts, only valid configurations reach the store, which holds the last accepted one |
| Commissioning.SelectBootMode | lib/McsEsp32/src/domain/BootModeSelector.h:10-18 | each of the three boot modes, exactly when it is selected |
| Commissioning.BootsNormallyOnceSaved | lib/McsEsp32/src/domain/BootModeSelector.h:10-18 | after any successful save, a restart selects normal mode unless wireless setup was requested |
| SerialFraming.SerialCommissioningAdapter.Poll | lib/McsEsp32/src/adapters/SerialCommissioningAdapter.h:21-45 | the buffer, the session and the answers after reading what is available |
| SerialFraming.SplitAnywhere | lib/McsEsp32/src/adapters/SerialCommissioningAdapter.h:21-45 | how the characters are split across polls makes no difference |
| SerialFraming.BufferBounded | lib/McsEsp32/src/adapters/SerialCommissioningAdapter.h:36-43 | the buffer never exceeds 128 characters |
| SerialFraming.LineDelivered | lib/McsEsp32/src/adapters/SerialCommissioningAdapter.h:21-45 | from an empty buffer a line arrives as its suffix from the last multiple of 129, less one trailing carriage return |
| SerialFraming.WholeLineDelivered | lib/McsEsp32/src/adapters/SerialCommissioningAdapter.h:14-45 | a line of up to 128 characters that does not end in a carriage return arrives whole |
| SerialFraming.WholeLineWithReturnDelivered | lib/McsEsp32/src/adapters/SerialCommissioningAdapter.h:26-35 | with a carriage return before the line feed, a line of up to 127 characters arrives whole |
| SerialFraming.TypedLineIsObeyed | lib/McsEsp32/src/adapters/SerialCommissioningAdapter.h:26-35 | and its command is what the session obeys and answers |
| SerialFraming.LinesDelivered | lib/McsEsp32/src/adapters/SerialCommissioningAdapter.h:21-45 | the same for any sequence of lines, independently of each other |
| SectionTracking.TrackerContext.StartCycle | lib/Catch2/include/catch2/internal/catch_test_case_tracker.hpp:179-182 | the root becomes the current tracker and the cycle is executing |
| SectionTracking.TrackerContext.OpenChild | lib/Catch2/include/catch2/internal/catch_test_case_tracker.cpp:65-72 | this tracker and those above it that were not so yet are executing children |
| SectionTracking.TrackerContext.Open | lib/Catch2/include/catch2/internal/catch_test_case_tracker.cpp:106-111 | the tracker becomes current and executing, those above it execute children |
| SectionTracking.TrackerContext.Close | lib/Catch2/include/catch2/internal/catch_test_case_tracker.cpp:113-141 | trackers still open below are closed first, the innermost first; each completes if it ran itself or all its children are complete; the parent becomes current and the cycle is completed |
| SectionTracking.TrackerContext.Acquire | lib/Catch2/include/catch2/internal/catch_test_case_tracker.cpp:185-214 | the child with this name is found or added, and opened if the cycle is still executing and it is not complete |
| SectionTracking.RunContext.SectionStarted | lib/Catch2/include/catch2/internal/catch_run_context.cpp:319-342 | a section's body runs exactly if its tracker is open |
| SectionTracking.RunContext.SectionEnded | lib/Catch2/include/catch2/internal/catch_run_context.cpp:388-395 | the innermost active section, if any, is closed |
| SectionTracking.RunContext.RunBody | lib/Catch2/include/catch2/internal/catch_run_context.cpp:529-561 | with k leaves of a section done before, running its body enters exactly leaf k |
| SectionTracking.RunContext.RunCycle | lib/Catch2/include/catch2/internal/catch_run_context.cpp:233-252 | one cycle enters one further leaf, and the test case is complete exactly after the last one |
| SectionTracking.RunContext.RunTest | lib/Catch2/include/catch2/internal/catch_run_context.cpp:233-252 | for every finite tree of distinctly named sections, the cycles end after as many as there are leaves, and every leaf is entered exactly once, in depth-first order |
| SectionTracking.LeafPathsExact | lib/Catch2/include/catch2/internal/catch_run_context.cpp:233-252 | the expected order lists exactly the leaves of the tree |
| SectionTracking.LeafPathsDistinct | lib/Catch2/include/catch2/internal/catch_run_context.cpp:233-252 | and lists none of them twice |
| ExtendedMult.ProductExact | lib/Catch2/include/catch2/internal/catch_random_integer_helpers.hpp:83-104 | upper * 2^64 + lower is the product, for all 64-bit arguments, though every operation wraps |
| ExtendedMult.CarriesAddUp | lib/Catch2/include/catch2/internal/catch_random_integer_helpers.hpp:92-101 | no intermediate sum exceeds 64 bits, and carrying in halves loses nothing |
| ExtendedMult.HalvesMultiply | lib/Catch2/include/catch2/internal/catch_random_integer_helpers.hpp:87-90 | partial products do not wrap, with room for the carries |
| ExtendedMult.OrOfDisjointBits | lib/Catch2/include/catch2/internal/catch_random_integer_helpers.hpp:100-101 | on 64-bit words, the or of the two halves is their sum |
| ExtendedMult.PortableIs128 | lib/Catch2/include/catch2/internal/catch_random_integer_helpers.hpp:106-120 | the portable version equals the one on 128-bit integers |
| IsPermutation.FindSentinel | lib/Catch2/include/catch2/internal/catch_is_permutation.hpp:22-31 | the first equivalent element, or the sentinel |
| IsPermutation.CountSentinel | lib/Catch2/include/catch2/internal/catch_is_permutation.hpp:38-48 | the number of equivalent elements of the range |
| IsPermutation.CheckElementCounts | lib/Catch2/include/catch2/internal/catch_is_permutation.hpp:74-101 | true exactly if every class that occurs in the first range is equally large in both, though each is counted only once; for ranges of equal size that settles all classes |
| IsPermutation.IsPermutation | lib/Catch2/include/catch2/internal/catch_is_permutation.hpp:108-136 | the same for any two ranges and any equivalence, the common prefix skipped |
| IsPermutation.SkippedPrefix | lib/Catch2/include/catch2/internal/catch_is_permutation.hpp:115-119 | skipping a pairwise equivalent prefix does not change the answer |
| IsPermutation.CountsBoundSize | lib/Catch2/include/catch2/internal/catch_is_permutation.hpp:126-135 | classes counted in one range bound the size of the other, so classes that occur in the second range alone cannot go unnoticed |
| IsPermutation.PermutationIsMultisetEquality | lib/Catch2/include/catch2/internal/catch_is_permutation.hpp:108-136 | with equality as the comparator, the answer is multiset equality |

## Left out

- MqttLink and WiFiLink: connecting and reconnecting; whether a link is up, and what it hands over, are inputs of an iteration. MqttTransport's own code is not part of this model.
- Loco2MqttFeedbackSource: reports from the layout are an arbitrary input of an iteration.
- Network status LED, activity LED and boot mode indicator beyond its effect at start: outputs that nothing else depends on.
- Panel.BootBoard: does not model the begin calls of pins, serial port, links and captive portal, the subscriptions (they are part of delivering) and the ready notices, which nothing else depends on.
- Panel.PanelBoard.Loop: does not model the network status LED, the activity LED, the captive portal and the polling behind the inputs of an iteration.
- Panel.PanelBoard.RunLinks: does not model the network status LED, which only shows the flag and the state of the links.
- Panel.PanelBoard.RunStations: does not model the activity flash that reports and commands trigger, which only drives an LED.
- LedDrivers.TurnoutIndicator.Display: fixed to the two outputs of one IndependentLedPairDriver, as the panel uses it, where the source takes any two indicators.
- LedDrivers.TurnoutIndicator.Clear: fixed in the same way.
- Commissioning inside the panel's loop: that a serial command asked for a restart, and what the setup trigger and its store say, are inputs of an iteration; both are modelled on their own.
- src/esp32/main.cpp: the same loop for twelve shared-pin stations; the model of a panel works for any number of stations.
- WifiScanFormatter: removal of duplicates and library sort.
- MegaCommissioningSession and EEPROM storage: depend on the semantics of sscanf.
- MrrwaLocoNetTurnoutAdapter: only passes commands on; it is folded into the transport's sender.
- TurnoutService.toggle and RouteService's other accessors: single lookups of the kind shown for throwStraight.
- FixedString32: names are strings of any length, so their truncation is not modelled.
- Config store: saving is atomic by assumption; which attempts succeed is an arbitrary function of their number.
- std::to_string, std::stoi and operator>>: modelled in Text for 32-bit int and the white space of the C locale.
- Commissioning.CommissioningSession.Apply: the answer is a datatype; its text is given by Text(), but the wording of the answers to `show`, of error messages and of usage hints has no property beyond not being mistaken for another answer. What each error message complains of is stated by ReportedExactly.
- SectionTracking.RunContext.RunTest: no generators, section filters, failing assertions, exceptions, skipped tests or aborts; trackers are indices into a sequence instead of pointers, so ownership and destruction of trackers are not modelled.
- Warnings about missing assertions, reporters, totals and output redirection in runTest: they do not influence which sections run.
- ExtendedMult.ProductExact: 64-bit words are integers below 2^64 with explicit wrap-around; the bitwise or of the two halves is their sum, which OrOfDisjointBits shows on bit vectors.
- IsPermutation.IsPermutation: ranges are sequences and iterators are positions; a comparator that is not an equivalence, or that compares two different types, is not modelled.
- RouteExecution.AlwaysInvariant: a command appended to the running route is modelled by its effect on the list, the capacity of a route being part of Route.AddTurnout.
- The remaining parts of Catch2, hardware adapters, the captive portal, HTML and the circuit boards.
