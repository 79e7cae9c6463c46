/** The user-pause rules over whole runs of browser requests and daemon patches. */
module UserPause {
  import opened Base
  import opened SessionMeta
  import Lock = PatchLock
  import LockRuns = PatchLockRuns

  datatype BrowserStatus = BrowserPaused | BrowserRunning

  /** validateBrowserStatusTransition: whether the dashboard may ask for `next` now. */
  predicate Allowed(current: Status, next: BrowserStatus) {
    match next
    case BrowserPaused => current == Running || current == Acknowledged || current == NeedsAttention || current == Paused
    case BrowserRunning => current == Paused
  }

  /** The patch the dashboard's PATCH handler builds for a requested status. */
  function BrowserPatch(next: BrowserStatus): Patch {
    match next
    case BrowserPaused => Patch(Some(Paused), Some(RunningReason), None, None, Some(true), map[])
    case BrowserRunning => Patch(Some(Running), Some(RunningReason), Some(None), Some(None), Some(false), map[])
  }

  datatype Event = Browser(next: BrowserStatus) | Daemon(patch: Patch)

  /** The patch call an event makes. */
  function RequestOf(e: Event): Request {
    match e
    case Browser(next) => Request((m: Meta) => Allowed(m.status, next), _ => Some(BrowserPatch(next)))
    case Daemon(p) => Request(_ => true, _ => Some(p))
  }

  /** The record after the event's call. */
  function Step(m: Meta, e: Event, now: nat): Meta {
    RunRequest(Some(m), RequestOf(e), now).value
  }

  function Run(m: Meta, events: seq<Event>, now: nat): Meta
    decreases |events|
  {
    if events == [] then m else Run(Step(m, events[0], now), events[1..], now + 1)
  }

  /** Each event acts on what the events before it left. */
  lemma {:induction false} RunStep(m: Meta, events: seq<Event>, e: Event, now: nat)
    ensures Run(m, [], now) == m && Run(m, events + [e], now) == Step(Run(m, events, now), e, now + |events|)
    decreases |events|
  {
    if events == [] {
      assert [e][1..] == [] && [] + [e] == [e];
    } else {
      assert (events + [e])[1..] == events[1..] + [e];
      RunStep(Step(m, events[0], now), events[1..], e, now + 1);
    }
  }

  /** A patch from a daemon of a live session: it never touches userPaused and sets no terminal status. */
  predicate LivePatch(p: Patch) {
    p.userPaused.None? && (p.status.Some? ==> Live(p.status.value))
  }

  predicate UserPauseHolds(m: Meta) {
    m.userPaused && Live(m.status)
  }

  /** What a read shows in the fields the pause governs. */
  function Shown(m: Meta): (Status, Reason, Option<string>, Option<string>) {
    var r := Overlay(m);
    (r.status, r.priorityReason, r.attentionMatchedAt, r.attentionReason)
  }

  /** The exact condition under which one daemon patch leaves a user pause in force: it clears neither the
      marker nor the liveness of the status. In that case a read shows the same four fields. */
  lemma PauseSurvivesPatch(m: Meta, p: Patch, now: nat)
    requires UserPauseHolds(m)
    ensures UserPauseHolds(Step(m, Daemon(p), now)) <==>
              (p.userPaused != Some(false) && (p.status.Some? ==> Live(p.status.value)))
    ensures UserPauseHolds(Step(m, Daemon(p), now)) ==> Shown(Step(m, Daemon(p), now)) == Shown(m)
  {
  }

  /** What a dashboard request does, exactly: a pause needs a session that shows running, acknowledged, needs
      attention or paused, and marks it without touching the attention fields; a resume needs one that shows paused, and clears
      the marker and the attention fields. Otherwise nothing changes. */
  lemma BrowserRequestDoes(m: Meta, now: nat)
    ensures
      var shown := Overlay(m);
      && Step(m, Browser(BrowserPaused), now) ==
           (if shown.status in {Running, Acknowledged, NeedsAttention, Paused}
            then shown.(status := Paused, priorityReason := RunningReason, userPaused := true, updatedAt := now) else m)
      && Step(m, Browser(BrowserRunning), now) ==
           (if shown.status == Paused
            then shown.(status := Running, priorityReason := RunningReason, attentionMatchedAt := None, attentionReason := None,
                        userPaused := false, updatedAt := now) else m)
  {
    assert Patched(Overlay(m).other, map[]) == Overlay(m).other;
  }

  /** A user pause is sticky: through any number of live daemon patches, and any repeated pause request,
      a read keeps showing the same status, reason and attention fields. */
  lemma {:induction false} PauseIsSticky(m: Meta, events: seq<Event>, now: nat)
    requires UserPauseHolds(m)
    requires forall e <- events :: e == Browser(BrowserPaused) || (e.Daemon? && LivePatch(e.patch))
    ensures UserPauseHolds(Run(m, events, now))
    ensures Shown(Run(m, events, now)) == Shown(m) == (Paused, RunningReason, None, None)
    decreases |events|
  {
    if events != [] {
      assert events[0] in events;
      var m' := Step(m, events[0], now);
      assert UserPauseHolds(m') && Shown(m') == Shown(m);
      PauseIsSticky(m', events[1..], now + 1);
    }
  }

  /** A terminal status always shows through, whatever the marker says, and stays shown through patches
      that set no status; no browser request is accepted any more. */
  lemma {:induction false} TerminalShows(m: Meta, p: Patch, events: seq<Event>, now: nat)
    requires p.status.Some? && !Live(p.status.value)
    requires forall e <- events :: e.Browser? || e.patch.status.None?
    ensures Overlay(Run(Step(m, Daemon(p), now), events, now + 1)).status == p.status.value
  {
    StaysTerminal(Step(m, Daemon(p), now), events, now + 1);
  }

  lemma {:induction false} StaysTerminal(m: Meta, events: seq<Event>, now: nat)
    requires !Live(m.status)
    requires forall e <- events :: e.Browser? || e.patch.status.None?
    ensures Run(m, events, now).status == m.status
    decreases |events|
  {
    if events != [] {
      assert events[0] in events;
      assert Step(m, events[0], now).status == m.status;
      StaysTerminal(Step(m, events[0], now), events[1..], now + 1);
    }
  }

  /** A browser resume is accepted exactly when a read shows paused, and then a read shows running with
      the pause lifted; a refused one changes nothing. */
  lemma ResumeExactlyWhenShownPaused(m: Meta, now: nat)
    ensures Shown(m).0 == Paused ==>
              Shown(Step(m, Browser(BrowserRunning), now)) == (Running, RunningReason, None, None)
              && !Step(m, Browser(BrowserRunning), now).userPaused
    ensures Shown(m).0 != Paused ==> Step(m, Browser(BrowserRunning), now) == m
  {
  }

  /** A pause request is accepted exactly when the shown status is live, and a refused one changes nothing.
      From an accepted one on, through any live daemon activity, the session shows paused, and a resume is
      accepted. */
  lemma PauseThenResume(m: Meta, events: seq<Event>, now: nat)
    requires forall e <- events :: e == Browser(BrowserPaused) || (e.Daemon? && LivePatch(e.patch))
    ensures Accepted(Some(m), RequestOf(Browser(BrowserPaused))) <==> Live(Shown(m).0)
    ensures !Live(Shown(m).0) ==> Step(m, Browser(BrowserPaused), now) == m
    ensures Live(Shown(m).0) ==>
      var paused := Run(Step(m, Browser(BrowserPaused), now), events, now + 1);
      && Shown(paused) == (Paused, RunningReason, None, None)
      && forall later :: Shown(Step(paused, Browser(BrowserRunning), later)).0 == Running
  {
    if Live(Shown(m).0) {
      PauseIsSticky(Step(m, Browser(BrowserPaused), now), events, now + 1);
    }
  }

  // ---------------------------------------------------------------- a pause in the shared file

  /** Whenever the call is accepted, it writes a live patch or the pause itself. */
  ghost predicate SparesPause(r: Request) {
    forall m: Meta :: r.validates(m) && r.patch(m).Some? ==>
      LivePatch(r.patch(m).value) || r.patch(m).value == BrowserPatch(BrowserPaused)
  }

  lemma SparingCallKeepsPause(m: Meta, r: Request, now: nat)
    requires UserPauseHolds(m) && SparesPause(r)
    ensures var m' := RunRequest(Some(m), r, now); m'.Some? && UserPauseHolds(m'.value) && Shown(m'.value) == Shown(m)
  {
    if Accepted(Some(m), r) {
      var p := r.patch(Overlay(m)).value;
      assert LivePatch(p) || p == BrowserPatch(BrowserPaused);
    }
  }

  lemma {:induction false} SerialKeepsPause(initial: Option<Meta>, log: seq<Lock.Commit>, k: nat)
    requires k <= |log| && Lock.Serial(initial, log[..k]).Some? && UserPauseHolds(Lock.Serial(initial, log[..k]).value)
    requires forall i :: k <= i < |log| ==> SparesPause(log[i].request)
    ensures
      var m, m' := Lock.Serial(initial, log[..k]), Lock.Serial(initial, log);
      m'.Some? && UserPauseHolds(m'.value) && Shown(m'.value) == Shown(m.value)
    decreases |log|
  {
    hide Lock.Serial, UserPauseHolds, SparesPause, Shown, RunRequest;
    if k < |log| {
      var shorter := log[..|log| - 1];
      assert shorter[..k] == log[..k] && log == shorter + [log[|log| - 1]];
      SerialKeepsPause(initial, shorter, k);
      LockRuns.SerialAppend(initial, shorter, log[|log| - 1]);
      SparingCallKeepsPause(Lock.Serial(initial, shorter).value, log[|log| - 1].request, log[|log| - 1].now);
    } else {
      assert log[..k] == log;
    }
  }

  /** A user pause is sticky in the shared file too: in every run of any number of processes, as long as the
      calls that commit are live patches and pause requests, every read after it shows paused. */
  lemma PauseIsStickyOnDisk(states: seq<Lock.State>, i: nat, j: nat)
    requires Lock.Run(states) && i <= j < |states|
    requires states[i].stored.Some? && UserPauseHolds(states[i].stored.value)
    requires forall k :: |states[i].log| <= k < |states[j].log| ==> SparesPause(states[j].log[k].request)
    ensures states[j].stored.Some? && UserPauseHolds(states[j].stored.value)
    ensures Shown(states[j].stored.value) == Shown(states[i].stored.value) == (Paused, RunningReason, None, None)
  {
    LockRuns.LogGrows(states, i, j);
    LockRuns.NoLostUpdate(states, i);
    LockRuns.NoLostUpdate(states, j);
    var log := states[j].log;
    assert log[..|states[i].log|] == states[i].log;
    SerialKeepsPause(states[0].initial, log, |states[i].log|);
  }
}
