/** The setup button: held long enough and then let go, it asks for setup mode.
    Contact bounce while it is held does not restart the press. */
module SetupTrigger {
  import opened Clock

  const RELEASE_SETTLE_MS: Millis := 50

  datatype TriggerState = TriggerState(
    holding: bool, holdStart: Millis, releasing: bool, releaseStart: Millis, requested: bool)

  const AT_REST := TriggerState(false, 0, false, 0, false)

  function Updated(t: TriggerState, minHold: Millis, active: bool, now: Millis): TriggerState
  {
    var u := t.(requested := false);
    if active && !t.holding then u.(holding := true, holdStart := now)
    else if !active && t.holding && !t.releasing then u.(releasing := true, releaseStart := now)
    else if t.releasing && active then u.(releasing := false)
    else if t.releasing && Since(now, t.releaseStart) >= RELEASE_SETTLE_MS then
      u.(holding := false, releasing := false, requested := Since(t.releaseStart, t.holdStart) >= minHold)
    else u
  }

  class ButtonSetupModeTrigger {
    const minHoldMs: Millis
    var holding: bool
    var holdStartMs: Millis
    var releasing: bool
    var releaseStartMs: Millis
    var requestedThisTick: bool

    function State(): TriggerState
      reads this
    {
      TriggerState(holding, holdStartMs, releasing, releaseStartMs, requestedThisTick)
    }

    constructor (minHold: Millis)
      ensures minHoldMs == minHold && State() == AT_REST
    {
      minHoldMs := minHold;
      holding, holdStartMs, releasing, releaseStartMs, requestedThisTick := false, 0, false, 0, false;
    }

    method Update(active: bool, now: Millis)
      modifies this
      ensures State() == Updated(old(State()), minHoldMs, active, now)
    {
      requestedThisTick := false;
      if active && !holding {
        holding := true;
        holdStartMs := now;
      } else if !active && holding && !releasing {
        releasing := true;
        releaseStartMs := now;
      } else if releasing {
        if active {
          releasing := false;
        } else if Since(now, releaseStartMs) >= RELEASE_SETTLE_MS {
          holding := false;
          releasing := false;
          var heldFor := Since(releaseStartMs, holdStartMs);
          if heldFor >= minHoldMs {
            requestedThisTick := true;
          }
        }
      }
    }
  }

  // ------------------------------------------------------------------- runs

  datatype Sample = Sample(active: bool, at: nat)

  type History = seq<Sample>

  ghost predicate Chronological(h: History)
  {
    forall i, j :: 0 <= i <= j < |h| ==> h[i].at <= h[j].at
  }

  /** The trigger after the first n samples. */
  function Run(h: History, minHold: Millis, n: nat): TriggerState
    requires n <= |h|
  {
    if n == 0 then AT_REST
    else Updated(Run(h, minHold, n - 1), minHold, h[n - 1].active, Reading(h[n - 1].at))
  }

  ghost predicate Inactive(h: History, from: nat, to: nat)
    requires to <= |h|
  {
    forall i :: from <= i < to ==> !h[i].active
  }

  /** Elapsed real time as the clock can tell it. */
  function Elapsed(h: History, from: nat, to: nat): Millis
    requires from <= to < |h| && Chronological(h)
  {
    (h[to].at - h[from].at) % PERIOD
  }

  /** A gap opened at sample e, and sample m finds the button still inactive
      once the settle time has passed. */
  ghost predicate SettledGap(h: History, e: nat, m: nat)
    requires m < |h| && Chronological(h)
  {
    0 < e < m && h[e - 1].active && Inactive(h, e, m + 1) && Elapsed(h, e, m) >= 50
  }

  /** No gap that opened after sample s had settled before sample n. */
  ghost predicate Bridged(h: History, s: nat, n: nat)
    requires n <= |h| && Chronological(h)
  {
    forall e, m :: s < e < m < n ==> !SettledGap(h, e, m)
  }

  /** Sample n closes the press episode that sample s began; sample g began its
      final gap. */
  ghost predicate Closes(h: History, s: nat, g: nat, n: nat)
    requires n < |h| && Chronological(h)
    decreases n, 0
  {
    && s < g < n
    && Begins(h, s)
    && Bridged(h, s, n)
    && SettledGap(h, g, n)
  }

  /** Sample s is active and no episode is in progress. */
  ghost predicate Begins(h: History, s: nat)
    requires s < |h| && Chronological(h)
    decreases s, 1
  {
    h[s].active && Resting(h, s)
  }

  /** No episode is in progress before sample n: the button was never active,
      or has not been active since an episode closed. */
  ghost predicate Resting(h: History, n: nat)
    requires n <= |h| && Chronological(h)
    decreases n, 0
  {
    || Inactive(h, 0, n)
    || exists s, g, c :: 0 <= s && 0 <= g && 0 <= c < n && Closes(h, s, g, c) && Inactive(h, c, n)
  }

  /** In the middle of the episode that sample s began. */
  ghost predicate Following(h: History, t: TriggerState, s: nat, n: nat)
    requires s < n <= |h| && Chronological(h)
  {
    && t.holding && t.holdStart == Reading(h[s].at)
    && t.releasing == !h[n - 1].active
    && (t.releasing ==> exists g :: FinalGap(h, t, s, g, n))
  }

  ghost predicate FinalGap(h: History, t: TriggerState, s: nat, g: int, n: nat)
    requires s < n <= |h|
  {
    s < g < n && h[g - 1].active && Inactive(h, g, n) && t.releaseStart == Reading(h[g].at)
  }

  /** One more sample of an episode: it goes on unless the final gap settled. */
  lemma FollowStep(h: History, minHold: Millis, s: nat, n: nat)
    requires Chronological(h) && s < n < |h|
    requires Following(h, Run(h, minHold, n), s, n)
    ensures (exists g: nat :: s < g && SettledGap(h, g, n)) || Following(h, Run(h, minHold, n + 1), s, n + 1)
    ensures forall g: nat :: s < g && SettledGap(h, g, n) ==>
              && !Run(h, minHold, n + 1).holding && !Run(h, minHold, n + 1).releasing
              && (Run(h, minHold, n + 1).requested <==> Elapsed(h, s, g) >= minHold)
    ensures Following(h, Run(h, minHold, n + 1), s, n + 1) ==> !Run(h, minHold, n + 1).requested
  {
    var t := Run(h, minHold, n);
    var u := Run(h, minHold, n + 1);
    if t.releasing {
      var g :| FinalGap(h, t, s, g, n);
      SinceIsElapsed(h[g].at, h[n].at);
      SinceIsElapsed(h[s].at, h[g].at);
      forall g': nat | s < g' && SettledGap(h, g', n)
        ensures g' == g
      {}
      if !h[n].active {
        assert FinalGap(h, t, s, g, n + 1);
        if Elapsed(h, g, n) >= RELEASE_SETTLE_MS {
          assert SettledGap(h, g, n);
        } else {
          assert FinalGap(h, u, s, g, n + 1);
        }
      }
    } else {
      if !h[n].active { assert FinalGap(h, u, s, n, n + 1); }
      forall g': nat | s < g' && SettledGap(h, g', n)
        ensures false
      {}
    }
  }

  /** From its first sample on, the trigger follows an episode until it closes. */
  lemma {:induction false} FollowsEpisode(h: History, minHold: Millis, s: nat, n: nat)
    requires Chronological(h) && s < n <= |h| && Begins(h, s) && Bridged(h, s, n)
    ensures Following(h, Run(h, minHold, n), s, n)
    decreases n, 0
  {
    if n == s + 1 {
      RestingIsIdle(h, minHold, s);
    } else {
      FollowsEpisode(h, minHold, s, n - 1);
      FollowStep(h, minHold, s, n - 1);
    }
  }

  lemma {:induction false} RestingIsIdle(h: History, minHold: Millis, n: nat)
    requires Chronological(h) && n <= |h| && Resting(h, n)
    ensures !Run(h, minHold, n).holding && !Run(h, minHold, n).releasing
    decreases n, 1
  {
    if n > 0 {
      if Inactive(h, 0, n) {
        assert Inactive(h, 0, n - 1);
        RestingIsIdle(h, minHold, n - 1);
      } else {
        var s, g, c :| 0 <= s && 0 <= g && 0 <= c < n && Closes(h, s, g, c) && Inactive(h, c, n);
        if c == n - 1 {
          FollowsEpisode(h, minHold, s, c);
          FollowStep(h, minHold, s, c);
        } else {
          assert Inactive(h, c, n - 1);
          RestingIsIdle(h, minHold, n - 1);
        }
      }
    }
  }

  /** The trigger's state is always explained by the samples. */
  lemma {:induction false} StateExplained(h: History, minHold: Millis, n: nat)
    requires Chronological(h) && n <= |h|
    ensures (Resting(h, n) && !Run(h, minHold, n).holding && !Run(h, minHold, n).releasing)
            || exists s :: 0 <= s < n && InEpisode(h, minHold, s, n)
  {
    if n > 0 {
      var m := n - 1;
      StateExplained(h, minHold, m);
      if s :| 0 <= s < m && InEpisode(h, minHold, s, m) {
        EpisodeStep(h, minHold, s, m);
      } else if h[m].active {
        assert InEpisode(h, minHold, m, n);
      } else {
        RestGoesOn(h, m);
      }
    }
  }

  ghost predicate InEpisode(h: History, minHold: Millis, s: nat, n: nat)
    requires s < n <= |h| && Chronological(h)
  {
    Begins(h, s) && Bridged(h, s, n) && Following(h, Run(h, minHold, n), s, n)
  }

  lemma RestGoesOn(h: History, n: nat)
    requires Chronological(h) && n < |h| && Resting(h, n) && !h[n].active
    ensures Resting(h, n + 1)
  {
    if !Inactive(h, 0, n) {
      var s, g, c :| 0 <= s && 0 <= g && 0 <= c < n && Closes(h, s, g, c) && Inactive(h, c, n);
      assert Inactive(h, c, n + 1);
    }
  }

  lemma EpisodeStep(h: History, minHold: Millis, s: nat, n: nat)
    requires Chronological(h) && s < n < |h| && InEpisode(h, minHold, s, n)
    ensures InEpisode(h, minHold, s, n + 1)
            || (Resting(h, n + 1) && !Run(h, minHold, n + 1).holding && !Run(h, minHold, n + 1).releasing)
  {
    FollowStep(h, minHold, s, n);
    if g: nat :| s < g && SettledGap(h, g, n) {
      assert Closes(h, s, g, n);
      assert Inactive(h, n, n + 1);
    }
  }

  /** The request is made in exactly the update that closes a press episode
      whose hold, from its first active sample to the start of its final gap,
      lasted minHold as the clock tells it. */
  lemma RequestedIffEpisodeCloses(h: History, minHold: Millis, n: nat)
    requires Chronological(h) && n < |h|
    ensures Run(h, minHold, n + 1).requested <==>
            exists s, g :: 0 <= s && 0 <= g && Closes(h, s, g, n) && Elapsed(h, s, g) >= minHold
  {
    if s, g :| 0 <= s && 0 <= g && Closes(h, s, g, n) && Elapsed(h, s, g) >= minHold {
      FollowsEpisode(h, minHold, s, n);
      FollowStep(h, minHold, s, n);
    }
    if Run(h, minHold, n + 1).requested {
      StateExplained(h, minHold, n);
      var s :| 0 <= s < n && InEpisode(h, minHold, s, n);
      FollowStep(h, minHold, s, n);
      var g: nat :| s < g && SettledGap(h, g, n);
      assert Closes(h, s, g, n);
    }
  }

  /** Each episode makes at most one request: it is closed by one sample only,
      and a request lasts a single update. */
  lemma OneRequestPerEpisode(h: History, s: nat, g: nat, n: nat, g': nat, n': nat)
    requires Chronological(h) && n < |h| && n' < |h|
    requires Closes(h, s, g, n) && Closes(h, s, g', n')
    ensures n == n' && g == g'
  {
  }

  /** Sampled often enough, a gap settles when the settle time has really passed. */
  lemma SettlesInRealTime(h: History, e: nat, m: nat)
    requires Chronological(h) && 0 < e < m < |h|
    requires forall i :: e <= i < m ==> h[i + 1].at - h[i].at <= PERIOD - RELEASE_SETTLE_MS
    requires forall i :: e <= i < m ==> Elapsed(h, e, i) < RELEASE_SETTLE_MS
    ensures Elapsed(h, e, m) >= RELEASE_SETTLE_MS <==> h[m].at - h[e].at >= RELEASE_SETTLE_MS
  {
    GapIsShort(h, e, m - 1);
    var i := m - 1;
    assert h[i + 1].at - h[i].at <= PERIOD - RELEASE_SETTLE_MS;
    assert Elapsed(h, e, m) == h[m].at - h[e].at;
  }

  lemma {:induction false} GapIsShort(h: History, e: nat, m: nat)
    requires Chronological(h) && 0 < e <= m < |h|
    requires forall i :: e <= i < m ==> h[i + 1].at - h[i].at <= PERIOD - RELEASE_SETTLE_MS
    requires forall i :: e <= i <= m ==> Elapsed(h, e, i) < RELEASE_SETTLE_MS
    ensures h[m].at - h[e].at < RELEASE_SETTLE_MS
    decreases m
  {
    if m > e {
      GapIsShort(h, e, m - 1);
      var i := m - 1;
      assert h[i + 1].at - h[i].at <= PERIOD - RELEASE_SETTLE_MS;
      assert Elapsed(h, e, m) == h[m].at - h[e].at;
    }
  }
}
