/** The patch lock does not block itself: a process that runs alone takes a free lock and commits, and it
    recovers a lock whose holder takes no further step. */
module PatchLockProgress {
  import opened Base
  import opened SessionMeta
  import opened PatchLock
  import opened PatchLockProofs
  import opened PatchLockRuns

  /** Running alone, p can go from s to t. */
  ghost predicate CanReach(p: ProcId, s: State, t: State) {
    exists path :: RunsAlone(p, path) && path[0] == s && path[|path| - 1] == t
  }

  lemma ReachSelf(p: ProcId, s: State)
    ensures CanReach(p, s, s)
  {
    assert RunsAlone(p, [s]);
  }

  lemma ReachStep(p: ProcId, s: State, t: State, u: State)
    requires CanReach(p, s, t) && Act(t, p, u)
    ensures CanReach(p, s, u)
  {
    var path :| RunsAlone(p, path) && path[0] == s && path[|path| - 1] == t;
    AppendStep(p, path, u);
  }

  lemma AppendStep(p: ProcId, path: seq<State>, u: State)
    requires RunsAlone(p, path) && Act(path[|path| - 1], p, u)
    ensures RunsAlone(p, path + [u]) && (path + [u])[0] == path[0] && (path + [u])[|path|] == u
  {
  }

  lemma {:induction false} ReachAlong(p: ProcId, s: State, path: seq<State>)
    requires path != [] && RunsAlone(p, path) && CanReach(p, s, path[0])
    ensures CanReach(p, s, path[|path| - 1])
    decreases |path|
  {
    if |path| > 1 {
      var more := path[1..];
      assert Act(path[0], p, path[1]);
      ReachStep(p, s, path[0], path[1]);
      forall i | 0 <= i < |more| - 1 ensures Act(more[i], p, more[i + 1]) {
        assert Act(path[i + 1], p, path[i + 2]);
      }
      ReachAlong(p, s, more);
    }
  }

  lemma WithTwice(s: State, p: ProcId, a: Pc, b: Pc)
    requires p in s.procs
    ensures With(With(s, p, a), p, b) == With(s, p, b)
  {
  }

  /** One more step that only moves p's program point over the shared state b. */
  lemma ReachMove(p: ProcId, s: State, b: State, from: Pc, to: Pc)
    requires LiveIn(b, p) && CanReach(p, s, With(b, p, from)) && Move(With(b, p, from), p, to)
    ensures CanReach(p, s, With(b, p, to))
  {
    WithTwice(b, p, from, to);
    ReachStep(p, s, With(b, p, from), With(b, p, to));
  }

  // ---------------------------------------------------------------- a free lock

  /** The shared state after p's mkdir and its owner file. */
  function Labelled(b: State, p: ProcId, path: Path): State {
    SetOwner(Made(b, p, path), path, Owner(p, b.nextToken))
  }

  lemma MakeAndLabelMain(p: ProcId, s: State, b: State)
    requires LiveIn(b, p) && CanReach(p, s, With(b, p, MakeMain)) && Main !in b.fs && Recovery !in b.fs
    ensures CanReach(p, s, With(Labelled(b, p, Main), p, StatOwn(b.nextIno, Owner(p, b.nextToken))))
  {
    var m := Made(b, p, Main);
    WithTwice(m, p, MakeMain, CheckRecovery(b.nextIno));
    assert AcquireStep(With(b, p, MakeMain), p, With(m, p, CheckRecovery(b.nextIno)));
    ReachStep(p, s, With(b, p, MakeMain), With(m, p, CheckRecovery(b.nextIno)));
    ReachMove(p, s, m, CheckRecovery(b.nextIno), WriteOwner(b.nextIno));
    var o := Owner(p, b.nextToken);
    WithTwice(Labelled(b, p, Main), p, WriteOwner(b.nextIno), StatOwn(b.nextIno, o));
    assert AcquireStep(With(m, p, WriteOwner(b.nextIno)), p, With(Labelled(b, p, Main), p, StatOwn(b.nextIno, o)));
    ReachStep(p, s, With(m, p, WriteOwner(b.nextIno)), With(Labelled(b, p, Main), p, StatOwn(b.nextIno, o)));
  }

  /** The shared state after the record was written. */
  function Committed(l: State, p: ProcId, call: Call, now: nat): State
    requires Accepted(l.stored, call.request)
  {
    var current := Overlay(l.stored.value);
    l.(stored := Some(Merge(current, call.request.patch(current).value, now)),
       log := l.log + [Commit(p, call.num, call.request, now)])
  }

  lemma ReadAndWrite(p: ProcId, s: State, l: State, d: nat, o: Owner, now: nat)
    requires LiveIn(l, p) && CanReach(p, s, With(l, p, StatOwn(d, o)))
    requires PresentAs(l, Main, d) && Accepted(l.stored, l.procs[p].call.request)
    ensures CanReach(p, s, With(Committed(l, p, l.procs[p].call, now), p, Releasing(Main, d, o, RStat, EndCall)))
  {
    var call := l.procs[p].call;
    var current := Overlay(l.stored.value);
    ReachMove(p, s, l, StatOwn(d, o), ReadMeta(d, o));
    ReachMove(p, s, l, ReadMeta(d, o), WriteMeta(d, o, current, now));
    var c := Committed(l, p, call, now);
    WithTwice(l, p, WriteMeta(d, o, current, now), Releasing(Main, d, o, RStat, EndCall));
    assert AcquireStep(With(l, p, WriteMeta(d, o, current, now)), p, With(c, p, Releasing(Main, d, o, RStat, EndCall)));
    ReachStep(p, s, With(l, p, WriteMeta(d, o, current, now)), With(c, p, Releasing(Main, d, o, RStat, EndCall)));
  }

  /** A call that is about to take a free lock can commit, whatever its request asks for: the lock ends up
      free, the record is the request run on the stored one, and the log has one more entry. */
  lemma FreeLockCommits(p: ProcId, s: State, b: State, now: nat) returns (t: State)
    requires LiveIn(b, p) && CanReach(p, s, With(b, p, MakeMain)) && Main !in b.fs && Recovery !in b.fs
    requires Accepted(b.stored, b.procs[p].call.request)
    ensures CanReach(p, s, t) && Main !in t.fs
    ensures p in t.procs && t.procs[p].pc == Idle
    ensures t.stored == RunRequest(b.stored, b.procs[p].call.request, now)
    ensures t.log == b.log + [Commit(p, b.procs[p].call.num, b.procs[p].call.request, now)]
  {
    var o, l := Owner(p, b.nextToken), Labelled(b, p, Main);
    MakeAndLabelMain(p, s, b);
    ReadAndWrite(p, s, l, b.nextIno, o, now);
    var c := With(Committed(l, p, l.procs[p].call, now), p, Releasing(Main, b.nextIno, o, RStat, EndCall));
    var path := ReleasePath(c, p);
    ReachAlong(p, s, path);
    t := path[|path| - 1];
  }

  // ---------------------------------------------------------------- a dead holder's lock

  /** The lock is there, its holder takes no further step, and nobody has claimed it. */
  ghost predicate Abandoned(b: State, snap: Snapshot) {
    PresentAs(b, Main, snap.ino) && b.fs[Main].owner == snap.owner && b.fs[Main].claim.None? && MayBeStale(b, snap)
  }

  lemma EnterRecovery(p: ProcId, s: State, b: State)
    requires LiveIn(b, p) && CanReach(p, s, With(b, p, MakeMain)) && Main in b.fs && Recovery !in b.fs
    ensures CanReach(p, s, With(Labelled(b, p, Recovery), p, StatRecovery(b.nextIno, Owner(p, b.nextToken))))
  {
    var r, o, m := b.nextIno, Owner(p, b.nextToken), Made(b, p, Recovery);
    ReachMove(p, s, b, MakeMain, MakeRecovery);
    WithTwice(m, p, MakeRecovery, WriteRecoveryOwner(r));
    assert AcquireStep(With(b, p, MakeRecovery), p, With(m, p, WriteRecoveryOwner(r)));
    ReachStep(p, s, With(b, p, MakeRecovery), With(m, p, WriteRecoveryOwner(r)));
    WithTwice(Labelled(b, p, Recovery), p, WriteRecoveryOwner(r), StatRecovery(r, o));
    assert AcquireStep(With(m, p, WriteRecoveryOwner(r)), p, With(Labelled(b, p, Recovery), p, StatRecovery(r, o)));
    ReachStep(p, s, With(m, p, WriteRecoveryOwner(r)), With(Labelled(b, p, Recovery), p, StatRecovery(r, o)));
  }

  /** One more move of the quarantine routine. */
  lemma ReachPhase(p: ProcId, s: State, b: State, c: Caller, from: Quarantine, to: Quarantine)
    requires LiveIn(b, p) && CanReach(p, s, With(b, p, InQuarantine(Main, c, from)))
    requires PhaseMove(With(b, p, InQuarantine(Main, c, from)), Main, from, to)
    ensures CanReach(p, s, With(b, p, InQuarantine(Main, c, to)))
  {
    ReachMove(p, s, b, InQuarantine(Main, c, from), InQuarantine(Main, c, to));
  }

  lemma JudgeStale(p: ProcId, s: State, b: State, c: Caller, snap: Snapshot)
    requires LiveIn(b, p) && CanReach(p, s, With(b, p, InQuarantine(Main, c, QStat1))) && Abandoned(b, snap)
    ensures CanReach(p, s, With(b, p, InQuarantine(Main, c, QClaim(snap))))
  {
    ReachPhase(p, s, b, c, QStat1, QOwner1(snap.ino));
    ReachPhase(p, s, b, c, QOwner1(snap.ino), QVerdict1(snap));
    ReachPhase(p, s, b, c, QVerdict1(snap), QStat2(snap));
    ReachPhase(p, s, b, c, QStat2(snap), QOwner2(snap, snap.ino));
    ReachPhase(p, s, b, c, QOwner2(snap, snap.ino), QVerdict2(snap, snap));
    ReachPhase(p, s, b, c, QVerdict2(snap, snap), QClaim(snap));
  }

  function Claimed(b: State, claim: Claim): State
    requires Main in b.fs
  {
    SetClaim(b, Main, Some(claim)).(nextFile := b.nextFile + 1, nextToken := b.nextToken + 1)
  }

  lemma ClaimAndCheck(p: ProcId, s: State, b: State, c: Caller, snap: Snapshot)
    requires LiveIn(b, p) && CanReach(p, s, With(b, p, InQuarantine(Main, c, QClaim(snap)))) && Abandoned(b, snap)
    ensures
      var claim := Claim(b.nextFile, Owner(p, b.nextToken));
      CanReach(p, s, With(Claimed(b, claim), p, InQuarantine(Main, c, QRename(snap, claim))))
  {
    var claim := Claim(b.nextFile, Owner(p, b.nextToken));
    var x := Claimed(b, claim);
    WithTwice(x, p, InQuarantine(Main, c, QClaim(snap)), InQuarantine(Main, c, QStat3(snap, claim)));
    assert ReclaimStep(With(b, p, InQuarantine(Main, c, QClaim(snap))), p, With(x, p, InQuarantine(Main, c, QStat3(snap, claim))));
    ReachStep(p, s, With(b, p, InQuarantine(Main, c, QClaim(snap))), With(x, p, InQuarantine(Main, c, QStat3(snap, claim))));
    ReachPhase(p, s, x, c, QStat3(snap, claim), QOwner3(snap, claim, snap.ino));
    ReachPhase(p, s, x, c, QOwner3(snap, claim, snap.ino), QVerdict3(snap, claim, snap));
    ReachPhase(p, s, x, c, QVerdict3(snap, claim, snap), QClaimCheck(snap, claim));
    ReachPhase(p, s, x, c, QClaimCheck(snap, claim), QRename(snap, claim));
  }

  lemma RenameAndDiscard(p: ProcId, s: State, x: State, c: Caller, snap: Snapshot, claim: Claim)
    requires LiveIn(x, p) && CanReach(p, s, With(x, p, InQuarantine(Main, c, QRename(snap, claim))))
    requires PresentAs(x, Main, snap.ino) && x.fs[Main].owner == snap.owner && MayBeStale(x, snap)
    ensures CanReach(p, s, With(Removed(Moved(x, Main), Aside(x.nextAside)), p, Resume(c, true, false)))
  {
    var n, y := x.nextAside, Moved(x, Main);
    WithTwice(y, p, InQuarantine(Main, c, QRename(snap, claim)), InQuarantine(Main, c, QStat4(snap, n)));
    assert ReclaimStep(With(x, p, InQuarantine(Main, c, QRename(snap, claim))), p, With(y, p, InQuarantine(Main, c, QStat4(snap, n))));
    ReachStep(p, s, With(x, p, InQuarantine(Main, c, QRename(snap, claim))), With(y, p, InQuarantine(Main, c, QStat4(snap, n))));
    ReachPhase(p, s, y, c, QStat4(snap, n), QOwner4(snap, n, snap.ino));
    ReachPhase(p, s, y, c, QOwner4(snap, n, snap.ino), QVerdict4(snap, n, snap));
    var z := Removed(y, Aside(n));
    WithTwice(z, p, InQuarantine(Main, c, QVerdict4(snap, n, snap)), Resume(c, true, false));
    assert ReclaimStep(With(y, p, InQuarantine(Main, c, QVerdict4(snap, n, snap))), p, With(z, p, Resume(c, true, false)));
    ReachStep(p, s, With(y, p, InQuarantine(Main, c, QVerdict4(snap, n, snap))), With(z, p, Resume(c, true, false)));
  }

  /** The release of the recovery lock, up to the retry. */
  lemma LeaveRecovery(p: ProcId, s: State, b: State, r: nat, o: Owner)
    requires LiveIn(b, p) && CanReach(p, s, With(b, p, Releasing(Recovery, r, o, RStat, Retry)))
    requires PresentAs(b, Recovery, r) && b.fs[Recovery].owner == Some(o)
    ensures CanReach(p, s, With(Removed(Moved(b, Recovery), Aside(b.nextAside)), p, MakeMain))
  {
    var n, y := b.nextAside, Moved(b, Recovery);
    ReachMove(p, s, b, Releasing(Recovery, r, o, RStat, Retry), Releasing(Recovery, r, o, ROwner, Retry));
    ReachMove(p, s, b, Releasing(Recovery, r, o, ROwner, Retry), Releasing(Recovery, r, o, RRename, Retry));
    WithTwice(y, p, Releasing(Recovery, r, o, RRename, Retry), Releasing(Recovery, r, o, RStatAside(n), Retry));
    assert ReleaseStep(With(b, p, Releasing(Recovery, r, o, RRename, Retry)), p, With(y, p, Releasing(Recovery, r, o, RStatAside(n), Retry)));
    ReachStep(p, s, With(b, p, Releasing(Recovery, r, o, RRename, Retry)), With(y, p, Releasing(Recovery, r, o, RStatAside(n), Retry)));
    DiscardRecovery(p, s, y, r, o, n);
  }

  lemma DiscardRecovery(p: ProcId, s: State, y: State, r: nat, o: Owner, n: nat)
    requires LiveIn(y, p) && CanReach(p, s, With(y, p, Releasing(Recovery, r, o, RStatAside(n), Retry)))
    requires PresentAs(y, Aside(n), r) && y.fs[Aside(n)].owner == Some(o)
    ensures CanReach(p, s, With(Removed(y, Aside(n)), p, MakeMain))
  {
    ReachMove(p, s, y, Releasing(Recovery, r, o, RStatAside(n), Retry), Releasing(Recovery, r, o, ROwnerAside(n), Retry));
    var z := Removed(y, Aside(n));
    WithTwice(z, p, Releasing(Recovery, r, o, ROwnerAside(n), Retry), Sleep);
    assert ReleaseStep(With(y, p, Releasing(Recovery, r, o, ROwnerAside(n), Retry)), p, With(z, p, Sleep));
    ReachStep(p, s, With(y, p, Releasing(Recovery, r, o, ROwnerAside(n), Retry)), With(z, p, Sleep));
    ReachMove(p, s, z, Sleep, MakeMain);
  }

  /** The shared state once the dead holder's directory and the recovery lock are gone. */
  lemma RecoverAbandoned(p: ProcId, s: State, b: State) returns (z: State)
    requires LiveIn(b, p) && CanReach(p, s, With(b, p, MakeMain)) && Main in b.fs && Recovery !in b.fs
    requires Abandoned(b, Snapshot(b.fs[Main].ino, b.fs[Main].owner)) && b.fs[Main].ino != b.nextIno
    ensures LiveIn(z, p) && CanReach(p, s, With(z, p, MakeMain))
    ensures Main !in z.fs && Recovery !in z.fs
    ensures z.stored == b.stored && z.log == b.log && z.procs == b.procs
  {
    var snap, r, o := Snapshot(b.fs[Main].ino, b.fs[Main].owner), b.nextIno, Owner(p, b.nextToken);
    var c, l := Reclaimer(r, o), Labelled(b, p, Recovery);
    EnterRecovery(p, s, b);
    ReachMove(p, s, l, StatRecovery(r, o), InQuarantine(Main, c, QStat1));
    StillAbandoned(b, p, snap);
    JudgeStale(p, s, l, c, snap);
    ClaimAndCheck(p, s, l, c, snap);
    var claim := Claim(l.nextFile, Owner(p, l.nextToken));
    var x := Claimed(l, claim);
    RenameAndDiscard(p, s, x, c, snap, claim);
    var y := Removed(Moved(x, Main), Aside(x.nextAside));
    LeaveRecovery(p, s, y, r, o);
    z := Removed(Moved(y, Recovery), Aside(y.nextAside));
  }

  lemma StillAbandoned(b: State, p: ProcId, snap: Snapshot)
    requires Abandoned(b, snap) && snap.ino != b.nextIno
    ensures Abandoned(Labelled(b, p, Recovery), snap)
  {
  }

  /** A claim only stands while its reclaimer is in the recovery section. */
  lemma NoClaimLeft(s: State)
    requires Inv(s) && Main in s.fs && Recovery !in s.fs
    ensures s.fs[Main].claim.None?
  {
    if s.fs[Main].claim.Some? {
      assert ProcInv(s, s.fs[Main].claim.value.owner.pid);
    }
  }

  /** A dead holder never blocks the lock for good: a process that finds its directory can, running alone,
      quarantine it under the recovery lock, take the lock and commit. */
  lemma AbandonedLockIsRecovered(p: ProcId, s: State, now: nat) returns (t: State)
    requires Inv(s) && LiveIn(s, p) && s.procs[p].pc == MakeMain
    requires Main in s.fs && Recovery !in s.fs
    requires MayBeStale(s, Snapshot(s.fs[Main].ino, s.fs[Main].owner))
    requires Accepted(s.stored, s.procs[p].call.request)
    ensures CanReach(p, s, t) && Main !in t.fs
    ensures p in t.procs && t.procs[p].pc == Idle
    ensures t.stored == RunRequest(s.stored, s.procs[p].call.request, now)
    ensures t.log == s.log + [Commit(p, s.procs[p].call.num, s.procs[p].call.request, now)]
  {
    ReachSelf(p, s);
    assert With(s, p, MakeMain) == s;
    NoClaimLeft(s);
    var z := RecoverAbandoned(p, s, s);
    t := FreeLockCommits(p, s, z, now);
  }

  /** And a free lock is taken, and the call commits. */
  lemma FreeLockIsTaken(p: ProcId, s: State, now: nat) returns (t: State)
    requires LiveIn(s, p) && s.procs[p].pc == MakeMain && Main !in s.fs && Recovery !in s.fs
    requires Accepted(s.stored, s.procs[p].call.request)
    ensures CanReach(p, s, t) && Main !in t.fs
    ensures p in t.procs && t.procs[p].pc == Idle
    ensures t.stored == RunRequest(s.stored, s.procs[p].call.request, now)
    ensures t.log == s.log + [Commit(p, s.procs[p].call.num, s.procs[p].call.request, now)]
  {
    ReachSelf(p, s);
    assert With(s, p, MakeMain) == s;
    t := FreeLockCommits(p, s, s, now);
  }

  lemma BackOffMoves(p: ProcId, s: State, d: nat)
    requires LiveIn(s, p) && s.procs[p].pc == CheckRecovery(d) && Recovery in s.fs
    ensures CanReach(p, s, With(s, p, Emptying(Main, d, Retry)))
  {
    var ino := s.fs[Recovery].ino;
    var caller, snap := Acquirer(d), Snapshot(ino, OwnerAt(s, Recovery));
    ReachSelf(p, s);
    assert With(s, p, CheckRecovery(d)) == s;
    ReachMove(p, s, s, CheckRecovery(d), InQuarantine(Recovery, caller, QStat1));
    ReachMove(p, s, s, InQuarantine(Recovery, caller, QStat1), InQuarantine(Recovery, caller, QOwner1(ino)));
    ReachMove(p, s, s, InQuarantine(Recovery, caller, QOwner1(ino)), InQuarantine(Recovery, caller, QVerdict1(snap)));
    assert GiveUp(With(s, p, InQuarantine(Recovery, caller, QVerdict1(snap))), Recovery, QVerdict1(snap), false);
    ReachMove(p, s, s, InQuarantine(Recovery, caller, QVerdict1(snap)), Emptying(Main, d, Retry));
  }

  /** A process that has made the lock directory while another one is recovering can back off, running alone: it
      removes its own directory, leaves the recovery directory and the record as they are, and tries again. */
  lemma BackOffFreesLock(p: ProcId, s: State, d: nat) returns (t: State)
    requires LiveIn(s, p) && s.procs[p].pc == CheckRecovery(d) && Main in s.fs && Recovery in s.fs
    ensures CanReach(p, s, t) && p in t.procs && t.procs[p].pc == Sleep
    ensures Main !in t.fs && Recovery in t.fs && t.fs[Recovery] == s.fs[Recovery]
    ensures t.stored == s.stored && t.log == s.log
  {
    BackOffMoves(p, s, d);
    var a := With(s, p, Emptying(Main, d, Retry));
    var emptied := s.(fs := s.fs[Main := s.fs[Main].(owner := None, claim := None)]);
    var b := With(emptied, p, Removing(Main, d, Retry));
    WithTwice(emptied, p, Emptying(Main, d, Retry), Removing(Main, d, Retry));
    assert ReleaseStep(a, p, b);
    ReachStep(p, s, a, b);
    t := With(Removed(emptied, Main), p, Sleep);
    assert t == With(Removed(b, Main), p, Sleep);
    assert ReleaseStep(b, p, t);
    ReachStep(p, s, b, t);
  }
}
