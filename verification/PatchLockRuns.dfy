/** What every run of the patch lock guarantees: mutual exclusion, no theft of a live holder's
    directory, and a stored record that is the serial result of the committed calls. */
module PatchLockRuns {
  import opened Base
  import opened SessionMeta
  import opened PatchLock
  import opened PatchLockProofs

  /** Between the return of acquire and the moment release has moved or removed the directory. */
  predicate InCriticalSection(pc: Pc) {
    pc.ReadMeta? || pc.WriteMeta? || (pc.Releasing? && pc.target == Main && BeforeMove(pc.rel))
  }

  ghost predicate LiveIn(s: State, p: ProcId) {
    p in s.procs && p !in s.dead
  }

  /** At most one live process counts the main lock as its own, whatever the interleaving, and the
      directory at the lock path is then the one that process made and labelled. */
  lemma MutualExclusion(states: seq<State>, i: nat, p: ProcId, q: ProcId)
    requires Run(states) && i < |states|
    requires LiveIn(states[i], p) && InCriticalSection(states[i].procs[p].pc)
    requires LiveIn(states[i], q) && MainHeld(states[i].procs[q].pc).Some?
    ensures p == q
    ensures Main in states[i].fs && states[i].fs[Main].ino == MainHeld(states[i].procs[p].pc).value
    ensures states[i].fs[Main].ino in states[i].maker && states[i].maker[states[i].fs[Main].ino] == p
    ensures states[i].fs[Main].owner == OwnerWritten(states[i].procs[p].pc, Main)
  {
    RunKeepsInv(states, i);
    assert ProcInv(states[i], p) && ProcInv(states[i], q);
  }

  /** No step of another process - acquirer, backing-off acquirer, reclaimer, releaser - touches the
      directory of a live process that holds the main lock, from its mkdir to its own removal. */
  lemma NoTheft(states: seq<State>, i: nat, p: ProcId, q: ProcId)
    requires Run(states) && i + 1 < |states| && p != q
    requires LiveIn(states[i], p) && MainHeld(states[i].procs[p].pc).Some?
    requires NextBy(states[i], q, states[i + 1])
    ensures SameAt(states[i], states[i + 1], Main)
  {
    var s, s' := states[i], states[i + 1];
    RunKeepsInv(states, i);
    assert ProcInv(s, p);
    if Act(s, q, s') {
      assert ProcInv(s, q);
      ActKeepsInv(s, q, s');
    }
  }

  /** At most one process is in the recovery section, and its directory is at the recovery path. */
  lemma RecoveryExclusion(states: seq<State>, i: nat, p: ProcId, q: ProcId)
    requires Run(states) && i < |states| && p in states[i].procs && q in states[i].procs
    requires RecoveryHeld(states[i].procs[p].pc).Some? && RecoveryHeld(states[i].procs[q].pc).Some?
    ensures p == q && PresentAs(states[i], Recovery, RecoveryHeld(states[i].procs[p].pc).value)
  {
    RunKeepsInv(states, i);
    assert ProcInv(states[i], p) && ProcInv(states[i], q);
  }

  /** A directory a reclaimer is about to move away was made by a process that takes no further step,
      it is still the directory both snapshots saw, and no live process holds the lock. */
  lemma OnlyDeadLocksAreReclaimed(states: seq<State>, i: nat, r: ProcId, q: ProcId)
    requires Run(states) && i < |states|
    requires LiveIn(states[i], r) && states[i].procs[r].pc.InQuarantine? && states[i].procs[r].pc.q.QRename?
    requires LiveIn(states[i], q)
    ensures states[i].procs[r].pc.target == Main
    ensures Main in states[i].fs && states[i].fs[Main].ino == states[i].procs[r].pc.q.snap.ino
    ensures states[i].fs[Main].ino in states[i].maker && states[i].maker[states[i].fs[Main].ino] in states[i].dead
    ensures MainHeld(states[i].procs[q].pc).None?
  {
    RunKeepsInv(states, i);
    assert ProcInv(states[i], r) && ProcInv(states[i], q);
  }

  /** While the recovery section works as assumed, no reclaimer ever meets another's claim. */
  lemma ClaimsNeverContend(states: seq<State>, i: nat, p: ProcId)
    requires Run(states) && i < |states| && LiveIn(states[i], p) && states[i].procs[p].pc.InQuarantine?
    ensures var q := states[i].procs[p].pc.q;
            !q.QClaimRead? && !q.QClaimVerdict? && !q.QClaimMove? && !q.QClaimRecheck?
  {
    RunKeepsInv(states, i);
    assert ProcInv(states[i], p);
  }

  // ---------------------------------------------------------------- the stored record

  /** Points of a call after which it commits nothing more. */
  predicate CallOver(pc: Pc) {
    match pc
    case Idle => true
    case Releasing(_, _, _, _, after) => after == EndCall
    case Emptying(_, _, after) => after == EndCall
    case Removing(_, _, after) => after == EndCall
    case _ => false
  }

  ghost predicate CallsInv(s: State, p: ProcId)
    requires p in s.procs
  {
    var proc := s.procs[p];
    && (forall k :: 0 <= k < |proc.queue| ==> proc.queue[k].num == proc.started + k)
    && (proc.pc != Idle ==> proc.call.num + 1 == proc.started)
    && (forall k :: 0 <= k < |s.log| && s.log[k].pid == p ==>
          s.log[k].num < proc.started && (!CallOver(proc.pc) ==> s.log[k].num + 1 < proc.started))
  }

  ghost predicate LogInv(s: State) {
    && s.stored == Serial(s.initial, s.log)
    && (forall j, k :: 0 <= j < k < |s.log| && s.log[j].pid == s.log[k].pid ==> s.log[j].num < s.log[k].num)
    && (forall k :: 0 <= k < |s.log| ==> s.log[k].pid in s.procs)
    && forall p <- s.procs :: CallsInv(s, p)
  }

  /** What a step of p does to the calls: only the write of the record adds one commit, p's own. */
  ghost predicate CallEffect(s: State, p: ProcId, s': State)
    requires p in s.procs
  {
    var proc := s.procs[p];
    && proc.pc != Idle && p in s'.procs
    && s'.procs == s.procs[p := proc.(pc := s'.procs[p].pc)]
    && s'.initial == s.initial
    && (CallOver(proc.pc) ==> CallOver(s'.procs[p].pc))
    && (|| (s'.log == s.log && s'.stored == s.stored)
        || (&& proc.pc.WriteMeta? && CallOver(s'.procs[p].pc)
            && s'.log == s.log + [Commit(p, proc.call.num, proc.call.request, proc.pc.now)]
            && s'.stored == RunRequest(s.stored, proc.call.request, proc.pc.now)))
  }

  lemma MoveKeepsCallOver(s: State, p: ProcId, to: Pc)
    requires p in s.procs && WellFormed(s.procs[p].pc) && Move(s, p, to)
    ensures s.procs[p].pc != Idle && (CallOver(s.procs[p].pc) ==> CallOver(to))
  {
  }

  lemma AcquireOnCalls(s: State, p: ProcId, s': State)
    requires Core(s, p) && AcquireStep(s, p, s')
    ensures CallEffect(s, p, s')
  {
  }

  lemma ReclaimOnCalls(s: State, p: ProcId, s': State)
    requires Core(s, p) && s.procs[p].pc.InQuarantine? && ReclaimStep(s, p, s')
    ensures CallEffect(s, p, s')
  {
  }

  lemma ReleaseOnCalls(s: State, p: ProcId, s': State)
    requires Core(s, p) && ReleaseStep(s, p, s')
    ensures CallEffect(s, p, s')
  {
  }

  lemma ActOnCalls(s: State, p: ProcId, s': State)
    requires Core(s, p) && Act(s, p, s')
    ensures CallEffect(s, p, s')
  {
    if to :| Move(s, p, to) && s' == With(s, p, to) {
      MoveKeepsCallOver(s, p, to);
    } else if AcquireStep(s, p, s') {
      AcquireOnCalls(s, p, s');
    } else if s.procs[p].pc.InQuarantine? && ReclaimStep(s, p, s') {
      ReclaimOnCalls(s, p, s');
    } else {
      ReleaseOnCalls(s, p, s');
    }
  }

  lemma ActEffect(s: State, p: ProcId, s': State)
    requires Inv(s) && Act(s, p, s')
    ensures LiveIn(s, p) && CallEffect(s, p, s')
  {
    hide AcquireStep, ReclaimStep, ReleaseStep, Move, CallEffect;
    assert ProcInv(s, p);
    ActOnCalls(s, p, s');
  }

  lemma SerialAppend(initial: Option<Meta>, log: seq<Commit>, c: Commit)
    ensures Serial(initial, log + [c]) == RunRequest(Serial(initial, log), c.request, c.now)
  {
    assert (log + [c])[..|log|] == log;
  }

  lemma EffectKeepsLog(s: State, p: ProcId, s': State)
    requires LogInv(s) && p in s.procs && CallEffect(s, p, s')
    ensures LogInv(s')
  {
    hide Serial, RunRequest;
    assert CallsInv(s, p);
    if s'.log != s.log {
      SerialAppend(s.initial, s.log, s'.log[|s.log|]);
    }
    forall q <- s'.procs ensures CallsInv(s', q) {
      assert CallsInv(s, q);
    }
  }

  lemma EnqueueKeepsLog(s: State, p: ProcId, s': State)
    requires LogInv(s) && Enqueue(s, p, s')
    ensures LogInv(s')
  {
    forall q <- s'.procs ensures CallsInv(s', q) { assert CallsInv(s, q); }
  }

  lemma StartKeepsLog(s: State, p: ProcId, s': State)
    requires LogInv(s) && Start(s, p, s')
    ensures LogInv(s')
  {
    forall q <- s'.procs ensures CallsInv(s', q) { assert CallsInv(s, q); }
  }

  lemma CrashKeepsLog(s: State, p: ProcId, s': State)
    requires LogInv(s) && Crash(s, p, s')
    ensures LogInv(s')
  {
    forall q <- s'.procs ensures CallsInv(s', q) { assert CallsInv(s, q); }
  }

  lemma NextKeepsLog(s: State, s': State)
    requires Inv(s) && LogInv(s) && Next(s, s')
    ensures LogInv(s') && s'.initial == s.initial
  {
    hide Act, Inv, LogInv;
    var p :| NextBy(s, p, s');
    if Act(s, p, s') {
      ActEffect(s, p, s');
      EffectKeepsLog(s, p, s');
    } else if Enqueue(s, p, s') {
      EnqueueKeepsLog(s, p, s');
    } else if Start(s, p, s') {
      StartKeepsLog(s, p, s');
    } else {
      CrashKeepsLog(s, p, s');
    }
  }

  lemma InitialLog(s: State)
    requires Init(s)
    ensures LogInv(s)
  {
  }

  lemma {:induction false} RunKeepsLog(states: seq<State>, i: nat)
    requires Run(states) && i < |states|
    ensures LogInv(states[i]) && states[i].initial == states[0].initial
  {
    hide Inv, LogInv, Next, Init;
    if i > 0 {
      RunKeepsLog(states, i - 1);
      RunKeepsInv(states, i - 1);
      NextKeepsLog(states[i - 1], states[i]);
    } else {
      InitialLog(states[0]);
    }
  }

  /** No lost update: after any run the stored record is what the committed calls give when run one
      after the other in lock order, each on what a read of the previous result shows. The calls of
      one process commit in the order they were made. */
  lemma NoLostUpdate(states: seq<State>, i: nat)
    requires Run(states) && i < |states|
    ensures states[i].stored == Serial(states[0].initial, states[i].log)
    ensures forall j, k :: 0 <= j < k < |states[i].log| && states[i].log[j].pid == states[i].log[k].pid ==>
              states[i].log[j].num < states[i].log[k].num
  {
    RunKeepsLog(states, i);
  }

  // ---------------------------------------------------------------- a rejected call

  /** Call number n of process p has run and committed nothing. */
  ghost predicate NotCommitted(s: State, p: ProcId, n: nat) {
    forall k :: 0 <= k < |s.log| && s.log[k].pid == p ==> s.log[k].num != n
  }

  ghost predicate RejectedInv(s: State, p: ProcId, n: nat) {
    && p in s.procs && n < s.procs[p].started && NotCommitted(s, p, n)
    && (s.procs[p].pc != Idle && s.procs[p].call.num == n ==> CallOver(s.procs[p].pc))
  }

  lemma EffectKeepsRejected(s: State, q: ProcId, s': State, p: ProcId, n: nat)
    requires q in s.procs && CallEffect(s, q, s') && RejectedInv(s, p, n)
    ensures RejectedInv(s', p, n)
  {
  }

  lemma OthersKeepRejected(s: State, q: ProcId, s': State, p: ProcId, n: nat)
    requires LogInv(s) && RejectedInv(s, p, n) && (Enqueue(s, q, s') || Start(s, q, s') || Crash(s, q, s'))
    ensures RejectedInv(s', p, n)
  {
    assert CallsInv(s, p);
  }

  lemma NextKeepsRejected(s: State, s': State, p: ProcId, n: nat)
    requires Inv(s) && LogInv(s) && Next(s, s') && RejectedInv(s, p, n)
    ensures RejectedInv(s', p, n)
  {
    hide Act, Inv, LogInv, RejectedInv, CallEffect, Enqueue, Start, Crash;
    var q :| NextBy(s, q, s');
    if Act(s, q, s') {
      ActEffect(s, q, s');
      EffectKeepsRejected(s, q, s', p, n);
    } else {
      OthersKeepRejected(s, q, s', p, n);
    }
  }

  lemma {:induction false} RejectedFrom(states: seq<State>, i: nat, j: nat, p: ProcId, n: nat)
    requires Run(states) && i <= j < |states| && RejectedInv(states[i], p, n)
    ensures RejectedInv(states[j], p, n)
    decreases j
  {
    hide Inv, LogInv, Next, RejectedInv, Init;
    if i < j {
      RejectedFrom(states, i, j - 1, p, n);
      RunKeepsInv(states, j - 1);
      RunKeepsLog(states, j - 1);
      NextKeepsRejected(states[j - 1], states[j], p, n);
    }
  }

  lemma RejectedStep(s: State, p: ProcId, s': State)
    requires LiveIn(s, p) && s.procs[p].pc.ReadMeta? && Act(s, p, s') && !Accepted(s.stored, s.procs[p].call.request)
    ensures s' == With(s, p, Releasing(Main, s.procs[p].pc.d, s.procs[p].pc.owner, RStat, EndCall))
  {
    var to :| Move(s, p, to) && s' == With(s, p, to);
  }

  /** A call whose validator throws, or whose patch function declines, or that finds no record when it reads,
      changes nothing: its step leaves record and directories alone, and neither before nor ever after does
      the call commit. */
  lemma RejectedCallChangesNothing(states: seq<State>, i: nat, p: ProcId)
    requires Run(states) && i + 1 < |states| && Act(states[i], p, states[i + 1])
    requires states[i].procs[p].pc.ReadMeta? && !Accepted(states[i].stored, states[i].procs[p].call.request)
    ensures states[i + 1].stored == states[i].stored && states[i + 1].fs == states[i].fs
    ensures forall j :: 0 <= j < |states| ==> NotCommitted(states[j], p, states[i].procs[p].call.num)
  {
    RejectedStep(states[i], p, states[i + 1]);
    RunKeepsLog(states, i);
    var n := states[i].procs[p].call.num;
    assert CallsInv(states[i], p);
    forall j | 0 <= j < |states| ensures NotCommitted(states[j], p, n) {
      if i < j { RejectedFrom(states, i + 1, j, p, n); } else { LogGrows(states, j, i); }
    }
  }

  /** The quarantine routine ends in an exception. */
  ghost predicate Throws(s: State, p: ProcId, s': State) {
    && p in s.procs && s.procs[p].pc.InQuarantine?
    && (var pc := s.procs[p].pc;
        || (GiveUp(s, pc.target, pc.q, true) && s' == With(s, p, Resume(pc.caller, false, true)))
        || (pc.q.QUnclaimRemove? && pc.q.throws && ReclaimStep(s, p, s')))
  }

  lemma ThrowEndsCall(s: State, p: ProcId, s': State)
    requires Throws(s, p, s')
    ensures p in s'.procs && CallOver(s'.procs[p].pc) && s'.log == s.log && s'.stored == s.stored
    ensures s'.procs[p] == s.procs[p].(pc := s'.procs[p].pc)
  {
  }

  /** An exception on the way to the lock ends the call: it never commits, before or after. */
  lemma FailedCallNeverCommits(states: seq<State>, i: nat, p: ProcId)
    requires Run(states) && i + 1 < |states| && Throws(states[i], p, states[i + 1])
    ensures states[i + 1].stored == states[i].stored
    ensures forall j :: 0 <= j < |states| ==> NotCommitted(states[j], p, states[i].procs[p].call.num)
  {
    RunKeepsLog(states, i);
    ThrowEndsCall(states[i], p, states[i + 1]);
    var n := states[i].procs[p].call.num;
    assert CallsInv(states[i], p);
    hide Throws;
    forall j | 0 <= j < |states| ensures NotCommitted(states[j], p, n) {
      if i < j { RejectedFrom(states, i + 1, j, p, n); } else { LogGrows(states, j, i); }
    }
  }

  /** A step adds at most one commit, of a call accepted on the present record; no other step changes the record. */
  ghost predicate LogStep(s: State, s': State) {
    || (s'.log == s.log && s'.stored == s.stored)
    || exists c ::
         && s'.log == s.log + [c] && Accepted(s.stored, c.request) && s'.stored == RunRequest(s.stored, c.request, c.now)
  }

  lemma NextExtendsLog(s: State, s': State)
    requires Inv(s) && Next(s, s')
    ensures LogStep(s, s')
  {
    hide Act, Inv;
    var q :| NextBy(s, q, s');
    if Act(s, q, s') {
      ActEffect(s, q, s');
      if s'.log != s.log { WritesAccepted(s, q); }
    }
  }

  lemma WritesAccepted(s: State, p: ProcId)
    requires Inv(s) && LiveIn(s, p) && s.procs[p].pc.WriteMeta?
    ensures Accepted(s.stored, s.procs[p].call.request)
  {
    assert ProcInv(s, p);
  }

  lemma {:induction false} LogGrows(states: seq<State>, i: nat, j: nat)
    requires Run(states) && i <= j < |states|
    ensures states[i].log <= states[j].log
    decreases j
  {
    hide Inv, Init, Next, Accepted;
    if i < j {
      LogGrows(states, i, j - 1);
      RunKeepsInv(states, j - 1);
      NextExtendsLog(states[j - 1], states[j]);
    }
  }

  /** Every call that committed was accepted on the record that the calls before it had left. */
  lemma {:induction false} CommitsWereAccepted(states: seq<State>, i: nat, k: nat)
    requires Run(states) && i < |states| && k < |states[i].log|
    ensures Accepted(Serial(states[0].initial, states[i].log[..k]), states[i].log[k].request)
    decreases i
  {
    hide Inv, Next, Accepted;
    if i > 0 {
      var s, s' := states[i - 1], states[i];
      RunKeepsInv(states, i - 1);
      RunKeepsLog(states, i - 1);
      NextExtendsLog(s, s');
      if k < |s.log| {
        CommitsWereAccepted(states, i - 1, k);
        assert s'.log[..k] == s.log[..k];
      } else {
        assert s'.log[..k] == s.log;
      }
    }
  }

  /** Consecutive states of p running alone. */
  ghost predicate RunsAlone(p: ProcId, path: seq<State>) {
    path != [] && forall i :: 0 <= i < |path| - 1 ==> Act(path[i], p, path[i + 1])
  }

  /** The process is giving back the main lock, or done, and the main lock path is as it was. */
  ghost predicate LeavesAlone(s: State, p: ProcId, fs: map<Path, Dir>, d: nat, o: Owner) {
    && p in s.procs && s.fs == fs
    && (s.procs[p].pc == Idle || s.procs[p].pc == Releasing(Main, d, o, RStat, EndCall)
        || (s.procs[p].pc == Releasing(Main, d, o, ROwner, EndCall) && OwnerAt(s, Main) != Some(o)))
  }

  lemma ForeignStep(s: State, p: ProcId, s': State, d: nat, o: Owner)
    requires LeavesAlone(s, p, s.fs, d, o) && Act(s, p, s')
    requires !(PresentAs(s, Main, d) && OwnerAt(s, Main) == Some(o))
    ensures LeavesAlone(s', p, s.fs, d, o)
  {
  }

  /** Whatever has happened to the lock, a release never touches a directory that is not its own: if the lock path
      holds another directory, or one with another owner, the releaser alone ends without changing a file. */
  lemma {:induction false} ForeignLockIsLeft(p: ProcId, path: seq<State>, d: nat, o: Owner, i: nat)
    requires RunsAlone(p, path) && i < |path| && p in path[0].procs
    requires path[0].procs[p].pc == Releasing(Main, d, o, RStat, EndCall)
    requires !(PresentAs(path[0], Main, d) && OwnerAt(path[0], Main) == Some(o))
    ensures path[i].fs == path[0].fs && LeavesAlone(path[i], p, path[0].fs, d, o)
    decreases i
  {
    hide Act, LeavesAlone;
    if i > 0 {
      ForeignLockIsLeft(p, path, d, o, i - 1);
      assert Act(path[i - 1], p, path[i - 1 + 1]);
      SameFs(path[i - 1], p, path[0].fs, d, o);
      ForeignStep(path[i - 1], p, path[i], d, o);
      SameFs(path[i], p, path[0].fs, d, o);
    } else {
      StartsAlone(path[0], p, d, o);
    }
  }

  lemma SameFs(s: State, p: ProcId, fs: map<Path, Dir>, d: nat, o: Owner)
    requires LeavesAlone(s, p, fs, d, o)
    ensures s.fs == fs
  {
  }

  lemma StartsAlone(s: State, p: ProcId, d: nat, o: Owner)
    requires p in s.procs && s.procs[p].pc == Releasing(Main, d, o, RStat, EndCall)
    ensures LeavesAlone(s, p, s.fs, d, o)
  {
  }

  /** The state after the release has found the directory its own and moved it to its unique name. */
  function AfterRename(s: State, p: ProcId): State
    requires p in s.procs && Main in s.fs && s.procs[p].pc.Releasing?
  {
    With(Moved(s, Main), p, s.procs[p].pc.(rel := RStatAside(s.nextAside)))
  }

  lemma ReleaseUpToRename(s: State, p: ProcId)
    requires LiveIn(s, p) && Main in s.fs
    requires s.procs[p].pc.Releasing? && s.procs[p].pc.target == Main && s.procs[p].pc.rel == RStat
    requires s.fs[Main].ino == s.procs[p].pc.d && s.fs[Main].owner == Some(s.procs[p].pc.owner)
    ensures
      var s1 := With(s, p, s.procs[p].pc.(rel := ROwner));
      var s2 := With(s, p, s.procs[p].pc.(rel := RRename));
      Act(s, p, s1) && Act(s1, p, s2) && Act(s2, p, AfterRename(s, p))
  {
    var pc := s.procs[p].pc;
    var s1 := With(s, p, pc.(rel := ROwner));
    var s2 := With(s, p, pc.(rel := RRename));
    assert Move(s, p, pc.(rel := ROwner));
    assert Move(s1, p, pc.(rel := RRename)) && s2 == With(s1, p, pc.(rel := RRename));
    assert ReleaseStep(s2, p, AfterRename(s, p)) by {
      assert With(Moved(s2, Main), p, pc.(rel := RStatAside(s.nextAside))) == AfterRename(s, p);
    }
  }

  lemma ReleaseFromAside(s: State, p: ProcId, n: nat)
    requires LiveIn(s, p) && Aside(n) in s.fs
    requires s.procs[p].pc.Releasing? && s.procs[p].pc.rel == RStatAside(n) && s.procs[p].pc.after == EndCall
    requires s.fs[Aside(n)].ino == s.procs[p].pc.d && s.fs[Aside(n)].owner == Some(s.procs[p].pc.owner)
    ensures
      var s1 := With(s, p, s.procs[p].pc.(rel := ROwnerAside(n)));
      Act(s, p, s1) && Act(s1, p, With(Removed(s, Aside(n)), p, Idle))
  {
    var pc := s.procs[p].pc;
    var s1 := With(s, p, pc.(rel := ROwnerAside(n)));
    assert Move(s, p, pc.(rel := ROwnerAside(n)));
    assert ReleaseStep(s1, p, With(Removed(s, Aside(n)), p, Idle)) by {
      assert With(Removed(s1, Aside(n)), p, Idle) == With(Removed(s, Aside(n)), p, Idle);
    }
  }

  lemma OwnAtRelease(s: State, p: ProcId)
    requires Inv(s) && LiveIn(s, p)
    requires s.procs[p].pc.Releasing? && s.procs[p].pc.target == Main && s.procs[p].pc.rel == RStat
    ensures Main in s.fs && s.fs[Main].ino == s.procs[p].pc.d && s.fs[Main].owner == Some(s.procs[p].pc.owner)
    ensures s.procs[p].pc.after == EndCall
  {
    assert ProcInv(s, p);
  }

  lemma FiveSteps(p: ProcId, a: State, b: State, c: State, d: State, e: State, f: State)
    requires Act(a, p, b) && Act(b, p, c) && Act(c, p, d) && Act(d, p, e) && Act(e, p, f)
    ensures RunsAlone(p, [a, b, c, d, e, f])
  {
    hide Act;
    var path := [a, b, c, d, e, f];
    forall i | 0 <= i < |path| - 1 ensures Act(path[i], p, path[i + 1]) {
      if i == 0 {} else if i == 1 {} else if i == 2 {} else if i == 3 {} else { assert i == 4; }
    }
  }

  /** The state in which the release has ended: the lock path is free, nothing else has changed. */
  function Released(s: State, p: ProcId): State
    requires p in s.procs && Main in s.fs && s.procs[p].pc.Releasing?
  {
    With(Removed(AfterRename(s, p), Aside(s.nextAside)), p, Idle)
  }

  lemma ReleasedFacts(s: State, p: ProcId)
    requires p in s.procs && Main in s.fs && s.procs[p].pc.Releasing?
    ensures
      var last := Released(s, p);
      && Main !in last.fs && last.stored == s.stored && last.log == s.log
      && last.procs == s.procs[p := s.procs[p].(pc := Idle)]
  {
  }

  /** The release of a live holder never takes its directory for another's: running alone it ends the
      call with the lock path free and the record untouched, so the next queued call can start. */
  lemma ReleaseCompletes(s: State, p: ProcId) returns (path: seq<State>)
    requires Inv(s) && LiveIn(s, p)
    requires s.procs[p].pc.Releasing? && s.procs[p].pc.target == Main && s.procs[p].pc.rel == RStat
    ensures RunsAlone(p, path) && path[0] == s
    ensures
      var last := path[|path| - 1];
      && Main !in last.fs && last.stored == s.stored && last.log == s.log
      && last.procs == s.procs[p := s.procs[p].(pc := Idle)]
  {
    OwnAtRelease(s, p);
    path := ReleasePath(s, p);
  }

  lemma ReleasePath(s: State, p: ProcId) returns (path: seq<State>)
    requires LiveIn(s, p) && Main in s.fs
    requires s.procs[p].pc.Releasing? && s.procs[p].pc.target == Main && s.procs[p].pc.rel == RStat
    requires s.fs[Main].ino == s.procs[p].pc.d && s.fs[Main].owner == Some(s.procs[p].pc.owner)
    requires s.procs[p].pc.after == EndCall
    ensures RunsAlone(p, path) && path[0] == s
    ensures
      var last := path[|path| - 1];
      && Main !in last.fs && last.stored == s.stored && last.log == s.log
      && last.procs == s.procs[p := s.procs[p].(pc := Idle)]
  {
    var pc := s.procs[p].pc;
    ReleaseUpToRename(s, p);
    var s3 := AfterRename(s, p);
    ReleaseFromAside(s3, p, s.nextAside);
    var s1, s2 := With(s, p, pc.(rel := ROwner)), With(s, p, pc.(rel := RRename));
    var s4 := With(s3, p, s3.procs[p].pc.(rel := ROwnerAside(s.nextAside)));
    FiveSteps(p, s, s1, s2, s3, s4, Released(s, p));
    ReleasedFacts(s, p);
    path := [s, s1, s2, s3, s4, Released(s, p)];
  }
}
