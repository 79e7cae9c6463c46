/** What the stored record holds after any run of the patch lock, field by field. */
module PatchFields {
  import opened Base
  import opened SessionMeta
  import opened PatchLock
  import LockRuns = PatchLockRuns
  import PatchLockProofs

  /** A read hides what the record says about its activity. */
  predicate Hides(m: Meta) {
    m.userPaused && (m.status == Running || m.status == Acknowledged || m.status == NeedsAttention || m.status == Paused)
  }

  function Shown(m: Meta): Meta {
    if Hides(m) then Meta(Paused, RunningReason, None, None, m.userPaused, m.other, m.updatedAt) else m
  }

  /** The patch that the step from s to s' commits, if it commits one: what the call asks for on what a read shows. */
  function Committed(s: State, s': State): Option<Patch> {
    if |s.log| < |s'.log| && s.stored.Some? then s'.log[|s.log|].request.patch(Shown(s.stored.value)) else None
  }

  /** What the step gives the field: what the patch sets, else what a read of a hidden record shows in its place. */
  function Given<T>(s: State, s': State, field: Patch -> Option<T>, hidden: Option<T>): Option<T> {
    var p := Committed(s, s');
    if p.None? then None
    else if field(p.value).Some? then field(p.value)
    else if Hides(s.stored.value) then hidden
    else None
  }

  /** The last thing that the first j steps gave the field; `first` if they gave nothing. */
  function LastGiven<T>(states: seq<State>, j: nat, field: Patch -> Option<T>, hidden: Option<T>, first: T): T
    requires j < |states|
  {
    if j == 0 then first
    else if Given(states[j - 1], states[j], field, hidden).Some? then Given(states[j - 1], states[j], field, hidden).value
    else LastGiven(states, j - 1, field, hidden, first)
  }

  /** The fields of the patch. */
  function StatusOf(): Patch -> Option<Status> { (p: Patch) => p.status }

  function ReasonOf(): Patch -> Option<Reason> { (p: Patch) => p.priorityReason }

  function MatchedAtOf(): Patch -> Option<Option<string>> { (p: Patch) => p.attentionMatchedAt }

  function AttentionOf(): Patch -> Option<Option<string>> { (p: Patch) => p.attentionReason }

  function PausedOf(): Patch -> Option<bool> { (p: Patch) => p.userPaused }

  function OtherOf(key: string): Patch -> Option<Option<string>> {
    (p: Patch) => if key in p.other then Some(p.other[key]) else None
  }

  /** What one step does to a record, field by field. */
  ghost predicate Follows(s: State, s': State) {
    && (s'.stored.Some? <==> s.stored.Some?)
    && (s.stored.Some? ==>
          var m, m' := s.stored.value, s'.stored.value;
          && m'.status == Or(Given(s, s', StatusOf(), Some(Paused)), m.status)
          && m'.priorityReason == Or(Given(s, s', ReasonOf(), Some(RunningReason)), m.priorityReason)
          && m'.attentionMatchedAt == Or(Given(s, s', MatchedAtOf(), Some(None)), m.attentionMatchedAt)
          && m'.attentionReason == Or(Given(s, s', AttentionOf(), Some(None)), m.attentionReason)
          && m'.userPaused == Or(Given(s, s', PausedOf(), None), m.userPaused)
          && (forall key: string :: At(m'.other, key) == Or(Given(s, s', OtherOf(key), None), At(m.other, key)))
          && ((s'.log == s.log && m' == m) || (|s'.log| == |s.log| + 1 && m'.updatedAt == s'.log[|s.log|].now)))
  }

  lemma StepFollows(s: State, s': State)
    requires LockRuns.LogStep(s, s')
    ensures Follows(s, s')
  {
  }

  /** After any run each field of the stored record holds the last thing that a commit gave it, or what it held at
      the start. A commit gives a field the value its patch sets. To the four fields of the overlay it gives, where
      its patch sets nothing, what its read showed of a paused live record. The time is that of the last commit. */
  lemma {:induction false} StoredFields(states: seq<State>, j: nat)
    requires Run(states) && j < |states|
    ensures states[j].stored.Some? <==> states[0].stored.Some?
    ensures states[0].stored.Some? ==>
      var m0, m := states[0].stored.value, states[j].stored.value;
      && m.status == LastGiven(states, j, StatusOf(), Some(Paused), m0.status)
      && m.priorityReason == LastGiven(states, j, ReasonOf(), Some(RunningReason), m0.priorityReason)
      && m.attentionMatchedAt == LastGiven(states, j, MatchedAtOf(), Some(None), m0.attentionMatchedAt)
      && m.attentionReason == LastGiven(states, j, AttentionOf(), Some(None), m0.attentionReason)
      && m.userPaused == LastGiven(states, j, PausedOf(), None, m0.userPaused)
      && (forall key: string :: At(m.other, key) == LastGiven(states, j, OtherOf(key), None, At(m0.other, key)))
      && m.updatedAt == if states[j].log == [] then m0.updatedAt else states[j].log[|states[j].log| - 1].now
    decreases j
  {
    hide PatchLockProofs.Inv, Next, LockRuns.LogStep, Given;
    if j > 0 {
      StoredFields(states, j - 1);
      PatchLockProofs.RunKeepsInv(states, j - 1);
      LockRuns.NextExtendsLog(states[j - 1], states[j]);
      StepFollows(states[j - 1], states[j]);
    } else {
      StartsEmpty(states[0]);
    }
  }

  lemma StartsEmpty(s: State)
    requires Init(s)
    ensures s.log == []
  {
  }

  // ---------------------------------------------------------------- when the last patch is what is stored

  /** Since the last commit whose patch sets the field, some commit read a paused live record. */
  ghost predicate HiddenSince<T>(states: seq<State>, j: nat, field: Patch -> Option<T>)
    requires j < |states|
  {
    exists i :: 0 <= i < j && ReadsHidden(states, i) && SetNowhere(states, i, j, field)
  }

  /** Step i commits a call that read a paused live record. */
  predicate ReadsHidden(states: seq<State>, i: nat)
    requires i + 1 < |states|
  {
    Committed(states[i], states[i + 1]).Some? && Hides(states[i].stored.value)
  }

  predicate Sets<T>(states: seq<State>, i: nat, field: Patch -> Option<T>)
    requires i + 1 < |states|
  {
    Committed(states[i], states[i + 1]).Some? && field(Committed(states[i], states[i + 1]).value).Some?
  }

  predicate SetNowhere<T>(states: seq<State>, i: nat, j: nat, field: Patch -> Option<T>)
    requires i <= j < |states|
  {
    forall k :: i <= k < j ==> !Sets(states, k, field)
  }

  lemma HiddenSinceStep<T>(states: seq<State>, j: nat, field: Patch -> Option<T>)
    requires 0 < j < |states|
    ensures HiddenSince(states, j, field) <==>
              !Sets(states, j - 1, field) && (ReadsHidden(states, j - 1) || HiddenSince(states, j - 1, field))
  {
    hide Sets, ReadsHidden;
    if !Sets(states, j - 1, field) {
      if ReadsHidden(states, j - 1) { assert SetNowhere(states, j - 1, j, field); }
      if i :| 0 <= i < j && ReadsHidden(states, i) && SetNowhere(states, i, j, field) {
        if i < j - 1 { assert SetNowhere(states, i, j - 1, field); }
      }
      if i :| 0 <= i < j - 1 && ReadsHidden(states, i) && SetNowhere(states, i, j - 1, field) {
        assert SetNowhere(states, i, j, field);
      }
    }
  }

  /** A field holds the value of the last committed patch that sets it, or its first value if none does, exactly if
      no commit since then read a paused live record, or if that is what such a read shows anyway. */
  lemma {:induction false} LastPatchUnlessPaused<T>(states: seq<State>, j: nat, field: Patch -> Option<T>, hidden: T, first: T)
    requires j < |states|
    ensures LastGiven(states, j, field, Some(hidden), first) ==
              if HiddenSince(states, j, field) then hidden else LastGiven(states, j, field, None, first)
  {
    if j > 0 {
      LastPatchUnlessPaused(states, j - 1, field, hidden, first);
      HiddenSinceStep(states, j, field);
      hide HiddenSince;
    }
  }

  /** A call that always asks for the same patch. */
  function Always(p: Patch): Request { Request((m: Meta) => true, (m: Meta) => Some(p)) }

  const NO_CHANGE := Patch(None, None, None, None, None, map[])

  /** An input: a running session is marked as paused and then renamed. No patch set a status, yet the stored one is
      paused. */
  lemma PauseIsWrittenBack(m: Meta, name: string)
    requires m.status == Running && !m.userPaused
    ensures
      var marked := RunRequest(Some(m), Always(NO_CHANGE.(userPaused := Some(true))), 1);
      RunRequest(marked, Always(NO_CHANGE.(other := map["name" := Some(name)])), 2).value.status == Paused
  {
  }
}
