/** Mutual exclusion and lost-update freedom of the patch lock, for every interleaving of any
    number of processes, with crashes anywhere outside the recovery section. */
module PatchLockProofs {
  import opened Base
  import opened SessionMeta
  import opened PatchLock

  // ---------------------------------------------------------------- what a program point holds

  predicate BeforeMove(rel: Release) { !rel.RStatAside? && !rel.ROwnerAside? }

  /** The main lock directory a process counts as its own, from its mkdir to its removal. */
  function MainHeld(pc: Pc): Option<nat> {
    match pc
    case CheckRecovery(d) => Some(d)
    case WriteOwner(d) => Some(d)
    case StatOwn(d, _) => Some(d)
    case ReadMeta(d, _) => Some(d)
    case WriteMeta(d, _, _, _) => Some(d)
    case InQuarantine(_, Acquirer(d), _) => Some(d)
    case Releasing(Main, d, _, rel, _) => if BeforeMove(rel) then Some(d) else None
    case Emptying(Main, d, _) => Some(d)
    case Removing(Main, d, _) => Some(d)
    case _ => None
  }

  /** The owner record a process has written into the directory it holds at path. */
  function OwnerWritten(pc: Pc, path: Path): Option<Owner> {
    match pc
    case StatOwn(_, o) => if path == Main then Some(o) else None
    case ReadMeta(_, o) => if path == Main then Some(o) else None
    case WriteMeta(_, o, _, _) => if path == Main then Some(o) else None
    case StatRecovery(_, o) => if path == Recovery then Some(o) else None
    case InQuarantine(_, Reclaimer(_, o), _) => if path == Recovery then Some(o) else None
    case Releasing(t, _, o, rel, _) => if path == t && BeforeMove(rel) then Some(o) else None
    case _ => None
  }

  /** The claim a reclaimer has in place. */
  function ClaimHeld(pc: Pc): Option<Claim> {
    if !pc.InQuarantine? then None
    else
      match pc.q
      case QStat3(_, c) => Some(c)
      case QOwner3(_, c, _) => Some(c)
      case QVerdict3(_, c, _) => Some(c)
      case QClaimCheck(_, c) => Some(c)
      case QUnclaim(_, c, _) => Some(c)
      case QUnclaimRemove(_, c, _) => Some(c)
      case QRename(_, c) => Some(c)
      case _ => None
  }

  // ---------------------------------------------------------------- the invariant

  /** If the snapshot's directory is still in place, its maker takes no further step. */
  ghost predicate Doomed(s: State, path: Path, ino: nat) {
    ino < s.nextIno && (PresentAs(s, path, ino) ==> ino in s.maker && s.maker[ino] in s.dead)
  }

  ghost predicate InPlace(s: State, path: Path, ino: nat) {
    PresentAs(s, path, ino) && ino in s.maker && s.maker[ino] in s.dead
  }

  ghost predicate QuarantineInv(s: State, t: Path, q: Quarantine)
    requires forall i :: 0 <= i < s.nextIno ==> i in s.maker
  {
    match q
    case QStat1 => true
    case QOwner1(ino) => ino < s.nextIno
    case QVerdict1(snap) =>
      && snap.ino < s.nextIno
      && (PresentAs(s, t, snap.ino) && snap.owner.Some? ==> snap.owner.value.pid == s.maker[snap.ino])
    case QStat2(snap) => Doomed(s, t, snap.ino)
    case QOwner2(snap, ino) => Doomed(s, t, snap.ino) && (ino == snap.ino ==> InPlace(s, t, ino))
    case QVerdict2(snap, snap2) => Doomed(s, t, snap.ino) && (snap2.ino == snap.ino ==> InPlace(s, t, snap.ino))
    case QClaim(snap) => InPlace(s, t, snap.ino)
    case QStat3(snap, c) => InPlace(s, t, snap.ino) && s.fs[t].claim == Some(c)
    case QOwner3(snap, c, _) => InPlace(s, t, snap.ino) && s.fs[t].claim == Some(c)
    case QVerdict3(snap, c, _) => InPlace(s, t, snap.ino) && s.fs[t].claim == Some(c)
    case QClaimCheck(snap, c) => InPlace(s, t, snap.ino) && s.fs[t].claim == Some(c)
    case QUnclaim(snap, c, _) => InPlace(s, t, snap.ino) && s.fs[t].claim == Some(c)
    case QUnclaimRemove(snap, c, _) => InPlace(s, t, snap.ino) && s.fs[t].claim == Some(c)
    case QRename(snap, c) => InPlace(s, t, snap.ino) && s.fs[t].claim == Some(c)
    case QStat4(_, n) => t == Main
    case QOwner4(_, n, _) => t == Main
    case QVerdict4(_, n, _) => t == Main
    // another reclaimer's claim is never found
    case QClaimRead(_) => false
    case QClaimVerdict(_, _) => false
    case QClaimMove(_, _) => false
    case QClaimRecheck(_, _, _) => false
  }

  /** Program points only ever name the two lock paths, each routine with its own callers. */
  predicate WellFormed(pc: Pc) {
    match pc
    case InQuarantine(t, c, _) => if c.Reclaimer? then t == Main else t == Recovery
    case Releasing(t, _, _, _, after) => (t == Main && after == EndCall) || t == Recovery
    case Emptying(t, _, _) => t == Main || t == Recovery
    case Removing(t, _, _) => t == Main || t == Recovery
    case _ => true
  }

  /** The directory at path is the one p made, with the owner record p wrote. */
  ghost predicate Holds(s: State, p: ProcId, path: Path, d: nat, written: Option<Owner>) {
    && PresentAs(s, path, d) && d in s.maker && s.maker[d] == p
    && (written.Some? ==> s.fs[path].owner == written)
  }

  ghost predicate DirsInv(s: State) {
    && (forall i :: 0 <= i < s.nextIno <==> i in s.maker)
    && (forall i <- s.maker :: s.maker[i] in s.procs)
    && (forall x <- s.fs :: s.fs[x].ino < s.nextIno)
    && (forall x <- s.fs :: s.fs[x].owner.Some? ==> s.fs[x].owner.value.pid == s.maker[s.fs[x].ino])
  }

  /** A directory at the recovery path belongs to a process inside the recovery section. */
  ghost predicate RecoveryInv(s: State)
    requires DirsInv(s)
  {
    Recovery in s.fs ==>
      var r := s.fs[Recovery].ino;
      s.maker[r] !in s.dead && RecoveryHeld(s.procs[s.maker[r]].pc) == Some(r)
  }

  /** A claim in the main lock directory belongs to the reclaimer that is using it. */
  ghost predicate ClaimInv(s: State) {
    Main in s.fs && s.fs[Main].claim.Some? ==>
      var c := s.fs[Main].claim.value;
      c.owner.pid in s.procs && ClaimHeld(s.procs[c.owner.pid].pc) == Some(c)
  }

  /** What holds while process p stands at program point pc, running this request. */
  ghost predicate PcInv(s: State, p: ProcId, pc: Pc, request: Request)
    requires DirsInv(s)
  {
    && WellFormed(pc)
    && (ClaimHeld(pc).Some? ==> pc.caller.Reclaimer? && ClaimHeld(pc).value.owner.pid == p)
    && (RecoveryHeld(pc).Some? ==> p !in s.dead)
    && (p !in s.dead ==>
         && (MainHeld(pc).Some? ==> Holds(s, p, Main, MainHeld(pc).value, OwnerWritten(pc, Main)))
         && (RecoveryHeld(pc).Some? ==> Holds(s, p, Recovery, RecoveryHeld(pc).value, OwnerWritten(pc, Recovery)))
         && (pc.InQuarantine? ==> QuarantineInv(s, pc.target, pc.q))
         && (pc.WriteMeta? ==>
               && s.stored.Some? && pc.current == Overlay(s.stored.value)
               && request.validates(pc.current) && request.patch(pc.current).Some?))
  }

  ghost predicate ProcInv(s: State, p: ProcId)
    requires DirsInv(s) && p in s.procs
  {
    PcInv(s, p, s.procs[p].pc, s.procs[p].call.request)
  }

  ghost predicate Inv(s: State) {
    && DirsInv(s) && RecoveryInv(s) && ClaimInv(s)
    && forall p <- s.procs :: ProcInv(s, p)
  }

  // ---------------------------------------------------------------- one step, seen by the others

  predicate SameAt(s: State, s': State, path: Path) {
    (path in s.fs <==> path in s'.fs) && (path in s.fs ==> s.fs[path] == s'.fs[path])
  }

  /** A lock path only ever gets a directory that did not exist before. */
  predicate KeptOrNew(s: State, s': State, path: Path) {
    path in s'.fs ==> PresentAs(s, path, s'.fs[path].ino) || s.nextIno <= s'.fs[path].ino
  }

  /** What a step of p may do to the state it shares: the main directory changes only when there
      was none, when p holds it, or when p reclaims one whose maker takes no further step. */
  ghost predicate Effect(s: State, p: ProcId, s': State)
    requires DirsInv(s) && p in s.procs
  {
    && s.dead == s'.dead && s.procs.Keys == s'.procs.Keys && s.initial == s'.initial
    && (forall q <- s.procs :: q != p ==> s'.procs[q] == s.procs[q])
    && s.nextIno <= s'.nextIno
    && (forall i <- s.maker :: i in s'.maker && s'.maker[i] == s.maker[i])
    && KeptOrNew(s, s', Main) && KeptOrNew(s, s', Recovery)
    && (|| SameAt(s, s', Main) || Main !in s.fs || MainHeld(s.procs[p].pc).Some?
        || (RecoveryHeld(s.procs[p].pc).Some? && s.maker[s.fs[Main].ino] in s.dead))
    && (SameAt(s, s', Recovery) || Recovery !in s.fs || RecoveryHeld(s.procs[p].pc).Some?)
    && (s.stored == s'.stored || MainHeld(s.procs[p].pc).Some?)
  }

  lemma OthersKeep(s: State, p: ProcId, s': State, q: ProcId)
    requires DirsInv(s) && RecoveryInv(s) && DirsInv(s')
    requires p in s.procs && p !in s.dead && q in s.procs && q != p
    requires ProcInv(s, p) && ProcInv(s, q) && Effect(s, p, s')
    ensures ProcInv(s', q)
  {
    assert s'.procs[q] == s.procs[q];
  }

  /** The part of the invariant that a step of p works with. */
  ghost predicate Core(s: State, p: ProcId) {
    && p in s.procs && p !in s.dead
    && DirsInv(s) && RecoveryInv(s) && ClaimInv(s) && ProcInv(s, p)
  }

  /** A reclaimer that is about to claim finds no claim. */
  ghost predicate Unclaimed(s: State, p: ProcId)
    requires p in s.procs
  {
    var pc := s.procs[p].pc;
    pc.InQuarantine? && pc.target == Main && pc.q.QClaim? && Main in s.fs ==> s.fs[Main].claim.None?
  }

  lemma NoForeignClaim(s: State, p: ProcId)
    requires Inv(s) && p in s.procs && p !in s.dead
    ensures Unclaimed(s, p)
  {
    assert ProcInv(s, p);
    if Main in s.fs && s.fs[Main].claim.Some? {
      assert ProcInv(s, s.fs[Main].claim.value.owner.pid);
    }
  }

  lemma LocalDirs(s: State, p: ProcId, pc: Pc)
    requires p in s.procs && DirsInv(s)
    ensures DirsInv(With(s, p, pc)) && Effect(s, p, With(s, p, pc))
  {
  }

  lemma LocalRecovery(s: State, p: ProcId, pc: Pc)
    requires p in s.procs && DirsInv(s) && RecoveryInv(s) && RecoveryHeld(pc) == RecoveryHeld(s.procs[p].pc)
    ensures DirsInv(With(s, p, pc)) && RecoveryInv(With(s, p, pc))
  {
  }

  lemma LocalClaim(s: State, p: ProcId, pc: Pc)
    requires p in s.procs && ClaimInv(s) && ClaimHeld(pc) == ClaimHeld(s.procs[p].pc)
    ensures ClaimInv(With(s, p, pc))
  {
  }

  lemma LocalQuarantine(s: State, p: ProcId, pc: Pc, t: Path, q: Quarantine)
    requires p in s.procs && DirsInv(s) && DirsInv(With(s, p, pc)) && QuarantineInv(s, t, q)
    ensures QuarantineInv(With(s, p, pc), t, q)
  {
  }

  lemma LocalProc(s: State, p: ProcId, pc: Pc)
    requires p in s.procs && DirsInv(s) && PcInv(s, p, pc, s.procs[p].call.request)
    ensures DirsInv(With(s, p, pc)) && ProcInv(With(s, p, pc), p)
  {
    hide QuarantineInv;
    LocalDirs(s, p, pc);
    if pc.InQuarantine? && p !in s.dead { LocalQuarantine(s, p, pc, pc.target, pc.q); }
  }

  /** A step that only moves p's program point. */
  lemma LocalStep(s: State, p: ProcId, pc: Pc)
    requires Core(s, p) && PcInv(s, p, pc, s.procs[p].call.request)
    requires RecoveryHeld(pc) == RecoveryHeld(s.procs[p].pc) && ClaimHeld(pc) == ClaimHeld(s.procs[p].pc)
    ensures Core(With(s, p, pc), p) && Effect(s, p, With(s, p, pc))
  {
    hide DirsInv, RecoveryInv, ClaimInv, PcInv, ProcInv, Effect;
    LocalDirs(s, p, pc);
    LocalRecovery(s, p, pc);
    LocalClaim(s, p, pc);
    LocalProc(s, p, pc);
  }

  predicate OnRecoveryLock(pc: Pc) { pc.MakeRecovery? || pc.WriteRecoveryOwner? || pc.StatRecovery? }

  lemma RecoveryMoveKeeps(s: State, p: ProcId, call: Call, from: Pc, to: Pc)
    requires DirsInv(s) && p !in s.dead && PcInv(s, p, from, call.request) && AcquireMove(s, call, from, to)
    requires OnRecoveryLock(from)
    ensures PcInv(s, p, to, call.request) && RecoveryHeld(to) == RecoveryHeld(from) && ClaimHeld(to) == ClaimHeld(from)
  {
  }

  lemma MainMoveKeeps(s: State, p: ProcId, call: Call, from: Pc, to: Pc)
    requires DirsInv(s) && p !in s.dead && PcInv(s, p, from, call.request) && AcquireMove(s, call, from, to)
    requires !OnRecoveryLock(from)
    ensures PcInv(s, p, to, call.request) && RecoveryHeld(to) == RecoveryHeld(from) && ClaimHeld(to) == ClaimHeld(from)
  {
  }

  lemma AcquireMoveKeeps(s: State, p: ProcId, call: Call, from: Pc, to: Pc)
    requires DirsInv(s) && p !in s.dead && PcInv(s, p, from, call.request) && AcquireMove(s, call, from, to)
    ensures PcInv(s, p, to, call.request) && RecoveryHeld(to) == RecoveryHeld(from) && ClaimHeld(to) == ClaimHeld(from)
  {
    if OnRecoveryLock(from) { RecoveryMoveKeeps(s, p, call, from, to); } else { MainMoveKeeps(s, p, call, from, to); }
  }

  lemma ReleaseMoveKeeps(s: State, p: ProcId, request: Request, from: Pc, to: Pc)
    requires DirsInv(s) && p !in s.dead && PcInv(s, p, from, request) && ReleaseMove(s, from, to)
    ensures PcInv(s, p, to, request) && RecoveryHeld(to) == RecoveryHeld(from) && ClaimHeld(to) == ClaimHeld(from)
  {
  }

  lemma PhaseMoveKeeps(s: State, p: ProcId, t: Path, from: Quarantine, to: Quarantine)
    requires DirsInv(s) && QuarantineInv(s, t, from) && PhaseMove(s, t, from, to)
    requires t == Main && from.QClaim? ==> Main in s.fs && s.fs[Main].claim.None?
    requires t == Recovery ==> (t in s.fs ==> s.maker[s.fs[t].ino] !in s.dead)
    requires t == Main || t == Recovery
    ensures QuarantineInv(s, t, to)
  {
  }

  lemma ReclaimMoveKeeps(s: State, p: ProcId, from: Pc, to: Pc)
    requires Core(s, p) && Unclaimed(s, p) && from == s.procs[p].pc
    requires from.InQuarantine? && to.InQuarantine? && to == from.(q := to.q) && PhaseMove(s, from.target, from.q, to.q)
    ensures PcInv(s, p, to, s.procs[p].call.request) && RecoveryHeld(to) == RecoveryHeld(from) && ClaimHeld(to) == ClaimHeld(from)
  {
    PhaseMoveKeeps(s, p, from.target, from.q, to.q);
  }

  lemma GiveUpKeeps(s: State, p: ProcId, request: Request, from: Pc, throws: bool)
    requires DirsInv(s) && p !in s.dead && PcInv(s, p, from, request)
    requires from.InQuarantine? && GiveUp(s, from.target, from.q, throws)
    ensures
      var to := Resume(from.caller, false, throws);
      PcInv(s, p, to, request) && RecoveryHeld(to) == RecoveryHeld(from) && ClaimHeld(to) == ClaimHeld(from)
  {
  }

  lemma MoveCore(s: State, p: ProcId, to: Pc)
    requires Core(s, p) && Unclaimed(s, p) && Move(s, p, to)
    ensures Core(With(s, p, to), p) && Effect(s, p, With(s, p, to))
  {
    var from := s.procs[p].pc;
    var call := s.procs[p].call;
    if AcquireMove(s, call, from, to) {
      AcquireMoveKeeps(s, p, call, from, to);
    } else if ReleaseMove(s, from, to) {
      ReleaseMoveKeeps(s, p, call.request, from, to);
    } else if from.InQuarantine? && to.InQuarantine? && to == from.(q := to.q) && PhaseMove(s, from.target, from.q, to.q) {
      ReclaimMoveKeeps(s, p, from, to);
    } else {
      var throws :| GiveUp(s, from.target, from.q, throws) && to == Resume(from.caller, false, throws);
      GiveUpKeeps(s, p, call.request, from, throws);
    }
    LocalStep(s, p, to);
  }

  lemma MakeMainCore(s: State, p: ProcId, s': State)
    requires Core(s, p) && s.procs[p].pc.MakeMain? && AcquireStep(s, p, s')
    ensures Core(s', p) && Effect(s, p, s')
  {
  }

  lemma MakeRecoveryCore(s: State, p: ProcId, s': State)
    requires Core(s, p) && s.procs[p].pc.MakeRecovery? && AcquireStep(s, p, s')
    ensures Core(s', p) && Effect(s, p, s')
  {
  }

  lemma WriteOwnerCore(s: State, p: ProcId, s': State)
    requires Core(s, p) && s.procs[p].pc.WriteOwner? && AcquireStep(s, p, s')
    ensures Core(s', p) && Effect(s, p, s')
  {
  }

  lemma WriteRecoveryOwnerCore(s: State, p: ProcId, s': State)
    requires Core(s, p) && s.procs[p].pc.WriteRecoveryOwner? && AcquireStep(s, p, s')
    ensures Core(s', p) && Effect(s, p, s')
  {
  }

  lemma WriteMetaCore(s: State, p: ProcId, s': State)
    requires Core(s, p) && s.procs[p].pc.WriteMeta? && AcquireStep(s, p, s')
    ensures Core(s', p) && Effect(s, p, s')
  {
  }

  lemma ClaimCore(s: State, p: ProcId, s': State)
    requires Core(s, p) && s.procs[p].pc.InQuarantine? && s.procs[p].pc.q.QClaim? && ReclaimStep(s, p, s')
    ensures Core(s', p) && Effect(s, p, s')
  {
  }

  lemma UnclaimCore(s: State, p: ProcId, s': State)
    requires Core(s, p) && s.procs[p].pc.InQuarantine? && s.procs[p].pc.q.QUnclaimRemove? && ReclaimStep(s, p, s')
    ensures Core(s', p) && Effect(s, p, s')
  {
  }

  lemma RenameCore(s: State, p: ProcId, s': State)
    requires Core(s, p) && s.procs[p].pc.InQuarantine? && s.procs[p].pc.q.QRename? && ReclaimStep(s, p, s')
    ensures Core(s', p) && Effect(s, p, s')
  {
  }

  lemma DiscardCore(s: State, p: ProcId, s': State)
    requires Core(s, p) && s.procs[p].pc.InQuarantine? && s.procs[p].pc.q.QVerdict4? && ReclaimStep(s, p, s')
    ensures Core(s', p) && Effect(s, p, s')
  {
  }

  lemma ReleaseRenameCore(s: State, p: ProcId, s': State)
    requires Core(s, p) && s.procs[p].pc.Releasing? && s.procs[p].pc.rel.RRename? && ReleaseStep(s, p, s')
    ensures Core(s', p) && Effect(s, p, s')
  {
  }

  lemma ReleaseDiscardCore(s: State, p: ProcId, s': State)
    requires Core(s, p) && s.procs[p].pc.Releasing? && s.procs[p].pc.rel.ROwnerAside? && ReleaseStep(s, p, s')
    ensures Core(s', p) && Effect(s, p, s')
  {
  }

  lemma EmptyCore(s: State, p: ProcId, s': State)
    requires Core(s, p) && s.procs[p].pc.Emptying? && ReleaseStep(s, p, s')
    ensures Core(s', p) && Effect(s, p, s')
  {
  }

  lemma RemoveCore(s: State, p: ProcId, s': State)
    requires Core(s, p) && s.procs[p].pc.Removing? && ReleaseStep(s, p, s')
    ensures Core(s', p) && Effect(s, p, s')
  {
  }

  lemma AcquireCore(s: State, p: ProcId, s': State)
    requires Core(s, p) && AcquireStep(s, p, s')
    ensures Core(s', p) && Effect(s, p, s')
  {
    match s.procs[p].pc
    case MakeMain => MakeMainCore(s, p, s');
    case MakeRecovery => MakeRecoveryCore(s, p, s');
    case WriteOwner(_) => WriteOwnerCore(s, p, s');
    case WriteRecoveryOwner(_) => WriteRecoveryOwnerCore(s, p, s');
    case WriteMeta(_, _, _, _) => WriteMetaCore(s, p, s');
  }

  lemma ReclaimCore(s: State, p: ProcId, s': State)
    requires Core(s, p) && s.procs[p].pc.InQuarantine? && ReclaimStep(s, p, s')
    ensures Core(s', p) && Effect(s, p, s')
  {
    var q := s.procs[p].pc.q;
    if q.QClaim? { ClaimCore(s, p, s'); }
    else if q.QUnclaimRemove? { UnclaimCore(s, p, s'); }
    else if q.QRename? { RenameCore(s, p, s'); }
    else if q.QVerdict4? { DiscardCore(s, p, s'); }
  }

  lemma ReleaseCore(s: State, p: ProcId, s': State)
    requires Core(s, p) && ReleaseStep(s, p, s')
    ensures Core(s', p) && Effect(s, p, s')
  {
    match s.procs[p].pc
    case Releasing(_, _, _, rel, _) =>
      if rel.RRename? { ReleaseRenameCore(s, p, s'); } else { ReleaseDiscardCore(s, p, s'); }
    case Emptying(_, _, _) => EmptyCore(s, p, s');
    case Removing(_, _, _) => RemoveCore(s, p, s');
  }

  lemma ActCore(s: State, p: ProcId, s': State)
    requires Core(s, p) && Unclaimed(s, p) && Act(s, p, s')
    ensures Core(s', p) && Effect(s, p, s')
  {
    if to :| Move(s, p, to) && s' == With(s, p, to) {
      MoveCore(s, p, to);
    } else if AcquireStep(s, p, s') {
      AcquireCore(s, p, s');
    } else if s.procs[p].pc.InQuarantine? && ReclaimStep(s, p, s') {
      ReclaimCore(s, p, s');
    } else {
      ReleaseCore(s, p, s');
    }
  }

  /** One filesystem step of a live process keeps the invariant, and shows the others only Effect. */
  lemma ActKeepsInv(s: State, p: ProcId, s': State)
    requires Inv(s) && Act(s, p, s')
    ensures Inv(s') && Effect(s, p, s')
  {
    NoForeignClaim(s, p);
    ActCore(s, p, s');
    forall q <- s'.procs ensures ProcInv(s', q) {
      if q != p { OthersKeep(s, p, s', q); }
    }
  }

  lemma CrashKeepsInv(s: State, p: ProcId, s': State)
    requires Inv(s) && Crash(s, p, s')
    ensures Inv(s')
  {
    forall q <- s'.procs ensures ProcInv(s', q) {
      assert ProcInv(s, q);
    }
  }

  /** A step that leaves the directories, the record and a program point alone keeps what holds there. */
  lemma SameWorldKeeps(s: State, s': State, q: ProcId)
    requires DirsInv(s) && DirsInv(s') && q in s.procs && q in s'.procs && ProcInv(s, q)
    requires s'.fs == s.fs && s'.maker == s.maker && s'.dead == s.dead && s'.nextIno == s.nextIno && s'.stored == s.stored
    requires s'.procs[q].pc == s.procs[q].pc && s'.procs[q].call == s.procs[q].call
    ensures ProcInv(s', q)
  {
  }

  lemma EnqueueKeepsInv(s: State, p: ProcId, s': State)
    requires Inv(s) && Enqueue(s, p, s')
    ensures Inv(s')
  {
    assert DirsInv(s');
    forall q <- s'.procs ensures ProcInv(s', q) { SameWorldKeeps(s, s', q); }
  }

  lemma StartKeepsInv(s: State, p: ProcId, s': State)
    requires Inv(s) && Start(s, p, s')
    ensures Inv(s')
  {
    assert ProcInv(s, p) && DirsInv(s');
    forall q <- s'.procs ensures ProcInv(s', q) {
      if q != p { SameWorldKeeps(s, s', q); }
    }
  }

  lemma NextKeepsInv(s: State, s': State)
    requires Inv(s) && Next(s, s')
    ensures Inv(s')
  {
    var p :| NextBy(s, p, s');
    if Act(s, p, s') { ActKeepsInv(s, p, s'); }
    else if Crash(s, p, s') { CrashKeepsInv(s, p, s'); }
    else if Enqueue(s, p, s') { EnqueueKeepsInv(s, p, s'); }
    else { StartKeepsInv(s, p, s'); }
  }

  /** Every state of every run satisfies the invariant. */
  lemma {:induction false} RunKeepsInv(states: seq<State>, i: nat)
    requires Run(states) && i < |states|
    ensures Inv(states[i])
  {
    if i > 0 {
      RunKeepsInv(states, i - 1);
      NextKeepsInv(states[i - 1], states[i]);
    }
  }
}
