/** The cross-process lock around a session metadata file, as a step machine: any number
    of processes, each running its queued patch calls one at a time, over a filesystem of
    lock directories. One step is one filesystem call or one decision. */
module PatchLock {
  import opened Base
  import opened SessionMeta

  type ProcId = nat

  /** The lock path, its ".reclaim" path, and the unique names directories are moved to. */
  datatype Path = Main | Recovery | Aside(n: nat)

  /** owner.json: who wrote it, and the random token of that attempt. */
  datatype Owner = Owner(pid: ProcId, token: nat)

  /** .reclaiming.json: the file's identity and its content. */
  datatype Claim = Claim(file: nat, owner: Owner)

  datatype Dir = Dir(ino: nat, owner: Option<Owner>, claim: Option<Claim>)

  /** What a process saw: the directory's identity, then (one step later) its owner file. */
  datatype Snapshot = Snapshot(ino: nat, owner: Option<Owner>)

  datatype Call = Call(num: nat, request: Request)

  datatype Commit = Commit(pid: ProcId, num: nat, request: Request, now: nat)

  /** What follows a release or a removal: the call ends, or acquisition retries. */
  datatype After = EndCall | Retry

  /** Who called the quarantine routine. */
  datatype Caller =
    | Reclaimer(r: nat, rOwner: Owner)   // holding the recovery lock, reclaiming the main lock
    | Busy                               // found the recovery lock taken
    | Acquirer(d: nat)                   // made main directory d and found the recovery path present

  datatype Quarantine =
    | QStat1
    | QOwner1(ino: nat)
    | QVerdict1(snap: Snapshot)
    | QStat2(snap: Snapshot)
    | QOwner2(snap: Snapshot, ino: nat)
    | QVerdict2(snap: Snapshot, snap2: Snapshot)
    | QClaim(snap: Snapshot)
    | QClaimRead(snap: Snapshot)
    | QClaimVerdict(snap: Snapshot, found: Claim)
    | QClaimMove(snap: Snapshot, found: Claim)
    | QClaimRecheck(snap: Snapshot, found: Claim, moved: Claim)
    | QStat3(snap: Snapshot, claim: Claim)
    | QOwner3(snap: Snapshot, claim: Claim, ino: nat)
    | QVerdict3(snap: Snapshot, claim: Claim, snap3: Snapshot)
    | QClaimCheck(snap: Snapshot, claim: Claim)
    | QUnclaim(snap: Snapshot, claim: Claim, throws: bool)
    | QUnclaimRemove(snap: Snapshot, claim: Claim, throws: bool)
    | QRename(snap: Snapshot, claim: Claim)
    | QStat4(snap: Snapshot, n: nat)
    | QOwner4(snap: Snapshot, n: nat, ino: nat)
    | QVerdict4(snap: Snapshot, n: nat, snap4: Snapshot)

  datatype Release =
    | RStat
    | ROwner
    | RRename
    | RStatAside(n: nat)
    | ROwnerAside(n: nat)
    | RStatRetry
    | ROwnerRetry

  datatype Pc =
    | Idle
    | MakeMain
    | Sleep
    | CheckRecovery(d: nat)
    | WriteOwner(d: nat)
    | StatOwn(d: nat, owner: Owner)
    | ReadMeta(d: nat, owner: Owner)
    | WriteMeta(d: nat, owner: Owner, current: Meta, now: nat)
    | MakeRecovery
    | WriteRecoveryOwner(r: nat)
    | StatRecovery(r: nat, owner: Owner)
    | InQuarantine(target: Path, caller: Caller, q: Quarantine)
    | Releasing(target: Path, d: nat, owner: Owner, rel: Release, after: After)
    | Emptying(target: Path, d: nat, after: After)   // rm: about to unlink the files
    | Removing(target: Path, d: nat, after: After)   // rm: about to remove the directory

  /** `started` calls have left the queue; the last of them is `call` while the process is not idle. */
  datatype Proc = Proc(pc: Pc, call: Call, queue: seq<Call>, started: nat)

  datatype State = State(
    fs: map<Path, Dir>,
    procs: map<ProcId, Proc>,
    dead: set<ProcId>,
    maker: map<nat, ProcId>,     // which process's mkdir made each directory
    nextIno: nat,
    nextFile: nat,
    nextToken: nat,
    nextAside: nat,
    initial: Option<Meta>,
    stored: Option<Meta>,
    log: seq<Commit>)

  // ---------------------------------------------------------------- serial meaning

  /** The committed calls run one after the other, in lock order. */
  function Serial(initial: Option<Meta>, log: seq<Commit>): Option<Meta> {
    if log == [] then initial
    else
      var last := log[|log| - 1];
      RunRequest(Serial(initial, log[..|log| - 1]), last.request, last.now)
  }

  // ---------------------------------------------------------------- steps

  function With(s: State, p: ProcId, pc: Pc): State
    requires p in s.procs
  {
    s.(procs := s.procs[p := s.procs[p].(pc := pc)])
  }

  function AfterPc(after: After): Pc {
    if after == EndCall then Idle else Sleep
  }

  predicate PresentAs(s: State, path: Path, ino: nat) {
    path in s.fs && s.fs[path].ino == ino
  }

  /** A stale verdict is sound: it is given only when the owner named by the snapshot, or the
      maker of an ownerless directory, takes no further step. */
  predicate MayBeStale(s: State, snap: Snapshot) {
    match snap.owner
    case Some(o) => o.pid in s.dead
    case None => snap.ino in s.maker && s.maker[snap.ino] in s.dead
  }

  function FreshDir(s: State): Dir { Dir(s.nextIno, None, None) }

  /** `mkdir path` by p succeeding. */
  function Made(s: State, p: ProcId, path: Path): State {
    s.(fs := s.fs[path := FreshDir(s)], maker := s.maker[s.nextIno := p], nextIno := s.nextIno + 1)
  }

  function SetOwner(s: State, path: Path, o: Owner): State
    requires path in s.fs
  {
    s.(fs := s.fs[path := s.fs[path].(owner := Some(o))], nextToken := s.nextToken + 1)
  }

  function Moved(s: State, path: Path): State
    requires path in s.fs
  {
    s.(fs := (s.fs - {path})[Aside(s.nextAside) := s.fs[path]], nextAside := s.nextAside + 1)
  }

  function Removed(s: State, path: Path): State { s.(fs := s.fs - {path}) }

  function SetClaim(s: State, path: Path, c: Option<Claim>): State
    requires path in s.fs
  {
    s.(fs := s.fs[path := s.fs[path].(claim := c)])
  }

  function OwnerAt(s: State, path: Path): Option<Owner> {
    if path in s.fs then s.fs[path].owner else None
  }

  /** The claim file under path carries this claim's owner. */
  predicate ClaimedAs(s: State, path: Path, c: Claim) {
    path in s.fs && s.fs[path].claim.Some? && s.fs[path].claim.value.owner == c.owner
  }

  // Steps that leave the shared state alone: where process p may go from program point `from`.

  /** acquirePatchLock, acquirePatchLockRecoveryLock and the read of the critical section. */
  ghost predicate AcquireMove(s: State, call: Call, from: Pc, to: Pc) {
    match from
    case MakeMain => Main in s.fs && (to == MakeRecovery || to == Idle)   // taken; Idle: the deadline passed
    case Sleep => to == MakeMain || to == Idle
    case CheckRecovery(d) => to == if Recovery in s.fs then InQuarantine(Recovery, Acquirer(d), QStat1) else WriteOwner(d)
    case WriteOwner(d) => to == Emptying(Main, d, EndCall)                // the write failed
    case StatOwn(d, o) => to == if Main in s.fs then ReadMeta(s.fs[Main].ino, o) else Idle
    case ReadMeta(d, o) =>
      if Accepted(s.stored, call.request)
      then to.WriteMeta? && to.d == d && to.owner == o && to.current == Overlay(s.stored.value)
      else to == Releasing(Main, d, o, RStat, EndCall)
    case WriteMeta(d, o, current, now) => to == Releasing(Main, d, o, RStat, EndCall)   // the write failed
    case MakeRecovery => Recovery in s.fs && to == InQuarantine(Recovery, Busy, QStat1)
    case WriteRecoveryOwner(r) => to == Emptying(Recovery, r, EndCall)    // the write failed
    case StatRecovery(r, o) =>
      to == if Recovery in s.fs then InQuarantine(Main, Reclaimer(s.fs[Recovery].ino, o), QStat1) else Idle
    case _ => false
  }

  /** Where the quarantine routine's caller continues: b is its result, throws an exception instead. */
  function Resume(caller: Caller, b: bool, throws: bool): Pc {
    match caller
    case Reclaimer(r, o) => Releasing(Recovery, r, o, RStat, if throws then EndCall else Retry)
    case Busy => if throws then Idle else Sleep
    case Acquirer(d) => if throws then Idle else if b then WriteOwner(d) else Emptying(Main, d, Retry)
  }

  /** quarantineStalePatchLock and claimPatchLockForReclaim on the directory at t, moving on. */
  ghost predicate PhaseMove(s: State, t: Path, from: Quarantine, to: Quarantine) {
    match from
    case QStat1 => t in s.fs && to == QOwner1(s.fs[t].ino)
    case QOwner1(ino) => to == QVerdict1(Snapshot(ino, OwnerAt(s, t)))
    case QVerdict1(snap) => MayBeStale(s, snap) && to == QStat2(snap)
    case QStat2(snap) => t in s.fs && to == QOwner2(snap, s.fs[t].ino)
    case QOwner2(snap, ino) => to == QVerdict2(snap, Snapshot(ino, OwnerAt(s, t)))
    case QVerdict2(snap, snap2) => snap2 == snap && MayBeStale(s, snap2) && to == QClaim(snap)
    case QClaim(snap) => t in s.fs && s.fs[t].claim.Some? && to == QClaimRead(snap)
    case QClaimRead(snap) =>
      to == if t in s.fs && s.fs[t].claim.Some? then QClaimVerdict(snap, s.fs[t].claim.value) else QClaim(snap)
    case QClaimVerdict(snap, found) => found.owner.pid in s.dead && to == QClaimMove(snap, found)
    case QClaimMove(snap, found) => (t !in s.fs || s.fs[t].claim.None?) && to == QClaim(snap)
    case QClaimRecheck(snap, found, moved) => moved == found && found.owner.pid in s.dead && to == QClaim(snap)
    case QStat3(snap, claim) => to == if t in s.fs then QOwner3(snap, claim, s.fs[t].ino) else QUnclaim(snap, claim, false)
    case QOwner3(snap, claim, ino) => to == QVerdict3(snap, claim, Snapshot(ino, OwnerAt(s, t)))
    case QVerdict3(snap, claim, snap3) =>
      || to == QUnclaim(snap, claim, false)
      || (snap3 == snap && MayBeStale(s, snap) && to == QClaimCheck(snap, claim))
    case QClaimCheck(snap, claim) =>
      to == if ClaimedAs(s, t, claim) then QRename(snap, claim) else QUnclaim(snap, claim, false)
    case QUnclaim(snap, claim, throws) => ClaimedAs(s, t, claim) && to == QUnclaimRemove(snap, claim, throws)
    case QRename(snap, claim) => to == QUnclaim(snap, claim, t in s.fs)   // gone, or the rename failed
    case QStat4(snap, n) => Aside(n) in s.fs && to == QOwner4(snap, n, s.fs[Aside(n)].ino)
    case QOwner4(snap, n, ino) => to == QVerdict4(snap, n, Snapshot(ino, OwnerAt(s, Aside(n))))
    case _ => false
  }

  /** The routine giving up: result false, or an exception. */
  ghost predicate GiveUp(s: State, t: Path, q: Quarantine, throws: bool) {
    match q
    case QStat1 => t !in s.fs && !throws
    case QVerdict1(_) => !throws
    case QStat2(_) => t !in s.fs && !throws
    case QVerdict2(_, _) => !throws
    case QClaim(_) => throws || t !in s.fs
    case QClaimVerdict(_, _) => !throws
    case QClaimRecheck(_, _, _) => (t !in s.fs || s.fs[t].claim.Some?) && !throws
    case QUnclaim(_, claim, thrown) => !ClaimedAs(s, t, claim) && throws == thrown
    case QStat4(_, n) => Aside(n) !in s.fs && !throws
    case QVerdict4(_, _, _) => !throws
    case _ => false
  }

  /** releasePatchLock. */
  ghost predicate ReleaseMove(s: State, from: Pc, to: Pc) {
    match from
    case Releasing(t, d, o, rel, after) =>
      (match rel
       case RStat => to == if PresentAs(s, t, d) then from.(rel := ROwner) else AfterPc(after)
       case ROwner => to == if OwnerAt(s, t) == Some(o) then from.(rel := RRename) else AfterPc(after)
       case RRename => to == if t in s.fs then from.(rel := RStatRetry) else AfterPc(after)   // EACCES or EPERM; ENOENT
       case RStatAside(n) => to == if PresentAs(s, Aside(n), d) then from.(rel := ROwnerAside(n)) else AfterPc(after)
       case ROwnerAside(n) => OwnerAt(s, Aside(n)) != Some(o) && to == AfterPc(after)
       case RStatRetry => to == if PresentAs(s, t, d) then from.(rel := ROwnerRetry) else AfterPc(after)
       case ROwnerRetry => to == if OwnerAt(s, t) == Some(o) then Emptying(t, d, after) else AfterPc(after))
    case Emptying(t, d, after) => t !in s.fs && to == AfterPc(after)
    case _ => false
  }

  ghost predicate Move(s: State, p: ProcId, to: Pc)
    requires p in s.procs
  {
    var from := s.procs[p].pc;
    || AcquireMove(s, s.procs[p].call, from, to)
    || (from.InQuarantine? && to.InQuarantine? && to == from.(q := to.q) && PhaseMove(s, from.target, from.q, to.q))
    || (from.InQuarantine? && exists throws :: GiveUp(s, from.target, from.q, throws) && to == Resume(from.caller, false, throws))
    || ReleaseMove(s, from, to)
  }

  // Steps that change the shared state.

  /** mkdir, the owner file, and the write of the record. */
  ghost predicate AcquireStep(s: State, p: ProcId, s': State)
    requires p in s.procs
  {
    var call := s.procs[p].call;
    match s.procs[p].pc
    case MakeMain => Main !in s.fs && s' == With(Made(s, p, Main), p, CheckRecovery(s.nextIno))
    case WriteOwner(d) =>
      var o := Owner(p, s.nextToken);
      Main in s.fs && s' == With(SetOwner(s, Main, o), p, StatOwn(d, o))
    case WriteMeta(d, o, current, now) =>
      && call.request.patch(current).Some?
      && s' == With(s, p, Releasing(Main, d, o, RStat, EndCall)).(
                 stored := Some(Merge(current, call.request.patch(current).value, now)),
                 log := s.log + [Commit(p, call.num, call.request, now)])
    case MakeRecovery => Recovery !in s.fs && s' == With(Made(s, p, Recovery), p, WriteRecoveryOwner(s.nextIno))
    case WriteRecoveryOwner(r) =>
      var o := Owner(p, s.nextToken);
      Recovery in s.fs && s' == With(SetOwner(s, Recovery, o), p, StatRecovery(r, o))
    case _ => false
  }

  /** The claim file and the two renames of the quarantine routine. */
  ghost predicate ReclaimStep(s: State, p: ProcId, s': State)
    requires p in s.procs && s.procs[p].pc.InQuarantine?
  {
    var pc := s.procs[p].pc;
    var t := pc.target;
    match pc.q
    case QClaim(snap) =>
      var claim := Claim(s.nextFile, Owner(p, s.nextToken));
      && t in s.fs && s.fs[t].claim.None?
      && s' == With(SetClaim(s, t, Some(claim)), p, pc.(q := QStat3(snap, claim)))
               .(nextFile := s.nextFile + 1, nextToken := s.nextToken + 1)
    case QClaimMove(snap, found) =>
      && t in s.fs && s.fs[t].claim.Some?
      && s' == With(SetClaim(s, t, None), p, pc.(q := QClaimRecheck(snap, found, s.fs[t].claim.value)))
    case QClaimRecheck(snap, found, moved) =>
      && t in s.fs && s.fs[t].claim.None?
      && s' == With(SetClaim(s, t, Some(moved.(file := s.nextFile))), p, Resume(pc.caller, false, false))
               .(nextFile := s.nextFile + 1)
    case QUnclaimRemove(snap, claim, throws) =>
      s' == With(if t in s.fs then SetClaim(s, t, None) else s, p, Resume(pc.caller, false, throws))
    case QRename(snap, claim) =>
      t in s.fs && s' == With(Moved(s, t), p, pc.(q := QStat4(snap, s.nextAside)))
    case QVerdict4(snap, n, snap4) =>
      snap4 == snap && MayBeStale(s, snap) && s' == With(Removed(s, Aside(n)), p, Resume(pc.caller, true, false))
    case _ => false
  }

  /** The rename and the removals of a release, and the two steps of a recursive rm at a lock path. */
  ghost predicate ReleaseStep(s: State, p: ProcId, s': State)
    requires p in s.procs
  {
    match s.procs[p].pc
    case Releasing(t, d, o, RRename, after) =>
      t in s.fs && s' == With(Moved(s, t), p, s.procs[p].pc.(rel := RStatAside(s.nextAside)))
    case Releasing(t, d, o, ROwnerAside(n), after) =>
      OwnerAt(s, Aside(n)) == Some(o) && s' == With(Removed(s, Aside(n)), p, AfterPc(after))
    case Emptying(t, d, after) =>
      t in s.fs && s' == With(s.(fs := s.fs[t := s.fs[t].(owner := None, claim := None)]), p, Removing(t, d, after))
    case Removing(t, d, after) => s' == With(Removed(s, t), p, AfterPc(after))
    case _ => false
  }

  /** One step of process p's running call. */
  ghost predicate Act(s: State, p: ProcId, s': State) {
    && p in s.procs && p !in s.dead
    && (|| (exists to :: Move(s, p, to) && s' == With(s, p, to))
        || AcquireStep(s, p, s')
        || (s.procs[p].pc.InQuarantine? && ReclaimStep(s, p, s'))
        || ReleaseStep(s, p, s'))
  }

  function Queued(s: State, p: ProcId, request: Request): State
    requires p in s.procs
  {
    var proc := s.procs[p];
    s.(procs := s.procs[p := proc.(queue := proc.queue + [Call(proc.started + |proc.queue|, request)])])
  }

  /** A caller asks for one more patch. */
  ghost predicate Enqueue(s: State, p: ProcId, s': State) {
    && p in s.procs && p !in s.dead
    && exists request :: s' == Queued(s, p, request)
  }

  /** The head of the queue starts once the call before it has settled. */
  ghost predicate Start(s: State, p: ProcId, s': State) {
    && p in s.procs && p !in s.dead && s.procs[p].pc == Idle && s.procs[p].queue != []
    && s' == s.(procs := s.procs[p := Proc(MakeMain, s.procs[p].queue[0], s.procs[p].queue[1..], s.procs[p].started + 1)])
  }

  /** The recovery directory this program point holds. */
  function RecoveryHeld(pc: Pc): Option<nat> {
    match pc
    case WriteRecoveryOwner(r) => Some(r)
    case StatRecovery(r, _) => Some(r)
    case InQuarantine(_, Reclaimer(r, _), _) => Some(r)
    case Releasing(Recovery, r, _, rel, _) => if rel.RStatAside? || rel.ROwnerAside? then None else Some(r)
    case Emptying(Recovery, r, _) => Some(r)
    case Removing(Recovery, r, _) => Some(r)
    case _ => None
  }

  /** A process stops for ever, anywhere outside the recovery section. */
  ghost predicate Crash(s: State, p: ProcId, s': State) {
    && p in s.procs && p !in s.dead && RecoveryHeld(s.procs[p].pc).None?
    && s' == s.(dead := s.dead + {p})
  }

  ghost predicate NextBy(s: State, p: ProcId, s': State) {
    Act(s, p, s') || Enqueue(s, p, s') || Start(s, p, s') || Crash(s, p, s')
  }

  ghost predicate Next(s: State, s': State) {
    exists p :: NextBy(s, p, s')
  }

  ghost predicate Init(s: State) {
    && s.fs == map[] && s.dead == {} && s.maker == map[]
    && s.nextIno == 0 && s.nextFile == 0 && s.nextToken == 0 && s.nextAside == 0
    && s.stored == s.initial && s.log == []
    && forall p <- s.procs :: s.procs[p].pc == Idle && s.procs[p].queue == [] && s.procs[p].started == 0
  }

  /** A finite run: consecutive states are related by one step of some process. */
  ghost predicate Run(states: seq<State>) {
    && states != [] && Init(states[0])
    && forall i :: 0 <= i < |states| - 1 ==> Next(states[i], states[i + 1])
  }
}
