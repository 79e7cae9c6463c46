/** The queues of the lock's step machines, one machine for each session, are what the one map of promise chains
    gives each session of a process. */
module PatchQueueRuns {
  import opened Base
  import opened PatchLock
  import PatchLockProofs
  import LockRuns = PatchLockRuns
  import Q = PatchQueue

  /** One process's promise chains. */
  datatype Chain = Chain(tails: map<string, nat>, calls: seq<Q.Queued>, settled: set<nat>)

  ghost predicate Chained(c: Chain) { Q.Chained(c.tails, c.calls, c.settled) }

  function Enqueued(c: Chain, id: string): Chain {
    Chain(c.tails[id := |c.calls|], c.calls + [Q.Queued(id, if id in c.tails then Some(c.tails[id]) else None)], c.settled)
  }

  predicate CanRun(c: Chain, k: nat) { k < |c.calls| && Q.CanRun(c.calls, c.settled, k) }

  function Settled(c: Chain, k: nat): Chain
    requires k < |c.calls|
  {
    Chain(Q.Pruned(c.tails, c.calls, k), c.calls, c.settled + {k})
  }

  /** Where the calls of a session stand among all calls of the process. */
  function Positions(c: Chain, id: string): seq<nat> { Q.Waiting(c.calls, {}, id) }

  /** How many of its calls the process has finished. */
  function Finished(proc: Proc): int { if proc.pc == Idle then proc.started else proc.started - 1 }

  /** The process has made as many calls as the chain of this session holds, and the unfinished ones are those
      still waiting in it: the running call first, then its queue. */
  ghost predicate Mirrors(proc: Proc, c: Chain, id: string) {
    var at := Positions(c, id);
    && |at| == proc.started + |proc.queue| && 0 <= Finished(proc)
    && Q.Waiting(c.calls, c.settled, id) == at[Finished(proc)..]
  }

  lemma EnqueueMirrors(s: State, p: ProcId, s': State, c: Chain, id: string)
    requires Enqueue(s, p, s') && Chained(c) && Mirrors(s.procs[p], c, id)
    ensures Chained(Enqueued(c, id)) && Mirrors(s'.procs[p], Enqueued(c, id), id)
  {
    var call := Q.Queued(id, if id in c.tails then Some(c.tails[id]) else None);
    Q.EnqueueKeepsChain(c.tails, c.calls, c.settled, id);
    Q.EnqueueAppends(c.calls, {}, call, id);
    Q.EnqueueAppends(c.calls, c.settled, call, id);
  }

  /** The chain stands still, takes one more call of the session, or settles a call of the session that can run. */
  ghost predicate SessionNext(c: Chain, c': Chain, id: string) {
    || c' == c
    || c' == Enqueued(c, id)
    || exists k: nat :: CanRun(c, k) && c.calls[k].id == id && c' == Settled(c, k)
  }

  /** What happens to the calls of one session does not show in another. */
  lemma OtherSessionKeeps(proc: Proc, c: Chain, c': Chain, id: string, other: string)
    requires Chained(c) && Mirrors(proc, c, id) && other != id && SessionNext(c, c', other)
    ensures Mirrors(proc, c', id)
  {
    hide Q.Waiting, Q.CanRun, Q.Chained;
    ChainKeeps(c);
    if k: nat :| CanRun(c, k) && c.calls[k].id == other && c' == Settled(c, k) {
      Q.SettlePops(c.tails, c.calls, c.settled, k, id);
    } else if c' == Enqueued(c, other) {
      var call := Q.Queued(other, if other in c.tails then Some(c.tails[other]) else None);
      Q.EnqueueAppends(c.calls, {}, call, id);
      Q.EnqueueAppends(c.calls, c.settled, call, id);
    }
  }

  lemma ChainKeeps(c: Chain)
    requires Chained(c)
    ensures forall k <- c.settled :: k < |c.calls|
  {
  }

  /** The call at the head of the process's queue is the one the chain lets run, and an idle process whose queue
      is empty has none that can run. */
  lemma StartMirrors(s: State, p: ProcId, c: Chain, id: string)
    requires LockRuns.LiveIn(s, p) && s.procs[p].pc == Idle && Chained(c) && Mirrors(s.procs[p], c, id)
    ensures s.procs[p].queue != [] <==> exists k: nat :: CanRun(c, k) && c.calls[k].id == id
    ensures forall s': State :: Start(s, p, s') ==>
      && Mirrors(s'.procs[p], c, id)
      && CanRun(c, Positions(c, id)[s.procs[p].started]) && c.calls[Positions(c, id)[s.procs[p].started]].id == id
  {
    var w := Q.Waiting(c.calls, c.settled, id);
    if s.procs[p].queue != [] {
      Q.RunsFirstWaiting(c.tails, c.calls, c.settled, id, w[0]);
    }
    forall k: nat | CanRun(c, k) && c.calls[k].id == id ensures s.procs[p].queue != [] {
      Q.RunsFirstWaiting(c.tails, c.calls, c.settled, id, k);
    }
  }

  /** A step of the running call that does not end it leaves the chain; one that ends it settles the call that
      the chain was running. */
  lemma ActMirrors(s: State, p: ProcId, s': State, c: Chain, id: string)
    requires PatchLockProofs.Inv(s) && Act(s, p, s') && Chained(c) && Mirrors(s.procs[p], c, id)
    requires s.procs[p].started > 0
    ensures p in s'.procs
    ensures s'.procs[p].pc != Idle ==> Mirrors(s'.procs[p], c, id)
    ensures s'.procs[p].pc == Idle ==>
      var k := Positions(c, id)[s.procs[p].started - 1];
      && CanRun(c, k) && c.calls[k].id == id
      && Chained(Settled(c, k)) && Mirrors(s'.procs[p], Settled(c, k), id)
  {
    LockRuns.ActEffect(s, p, s');
    EndMirrors(s.procs[p], s'.procs[p], c, id);
  }

  lemma EndMirrors(proc: Proc, proc': Proc, c: Chain, id: string)
    requires Chained(c) && Mirrors(proc, c, id) && proc.pc != Idle && proc' == proc.(pc := proc'.pc)
    ensures proc'.pc != Idle ==> Mirrors(proc', c, id)
    ensures proc'.pc == Idle ==>
      var k := Positions(c, id)[proc.started - 1];
      && CanRun(c, k) && c.calls[k].id == id
      && Chained(Settled(c, k)) && Mirrors(proc', Settled(c, k), id)
  {
    hide Q.Waiting, Q.CanRun, Q.Chained, Q.Pruned;
    var at := Positions(c, id);
    var k := at[proc.started - 1];
    assert at[proc.started - 1..] == [k] + at[proc.started..];
    Q.RunsFirstWaiting(c.tails, c.calls, c.settled, id, k);
    Q.SettleKeepsChain(c.tails, c.calls, c.settled, k);
    Q.SettlePops(c.tails, c.calls, c.settled, k, id);
  }

  lemma NextMirrors(s: State, s': State, p: ProcId, c: Chain, id: string) returns (c': Chain)
    requires PatchLockProofs.Inv(s) && LockRuns.LogInv(s) && Next(s, s')
    requires p in s.procs && Chained(c) && Mirrors(s.procs[p], c, id)
    ensures p in s'.procs && Chained(c') && Mirrors(s'.procs[p], c', id) && SessionNext(c, c', id)
  {
    hide Act, PatchLockProofs.Inv, Q.Waiting, Q.CanRun, Q.Chained, Q.Pruned, LockRuns.CallsInv;
    c' := c;
    var q :| NextBy(s, q, s');
    if Act(s, q, s') {
      LockRuns.ActEffect(s, q, s');
      if q == p {
        RunningHasStarted(s, p);
        ActMirrors(s, p, s', c, id);
        if s'.procs[p].pc == Idle { c' := Settled(c, Positions(c, id)[s.procs[p].started - 1]); }
      }
    } else if Enqueue(s, q, s') {
      if q == p {
        EnqueueMirrors(s, p, s', c, id);
        c' := Enqueued(c, id);
      }
    } else if Start(s, q, s') {
      if q == p { StartMirrors(s, p, c, id); }
    }
  }

  lemma RunningHasStarted(s: State, p: ProcId)
    requires LockRuns.LogInv(s) && p in s.procs && s.procs[p].pc != Idle
    ensures s.procs[p].started > 0
  {
    assert LockRuns.CallsInv(s, p);
  }

  // ---------------------------------------------------------------- whole runs over many sessions

  /** The step machine of each session: its lock directories, its record, and the calls of every process for it. */
  type Sessions = map<string, State>

  ghost predicate SessionsNext(w: Sessions, w': Sessions) {
    exists id: string :: id in w && id in w' && w' == w[id := w'[id]] && Next(w[id], w'[id])
  }

  /** The machines start together and step in any interleaving. */
  ghost predicate SessionsRun(worlds: seq<Sessions>) {
    && worlds != [] && (forall id <- worlds[0] :: Init(worlds[0][id]))
    && forall i :: 0 <= i < |worlds| - 1 ==> SessionsNext(worlds[i], worlds[i + 1])
  }

  ghost predicate Sound(w: Sessions) {
    forall id <- w :: PatchLockProofs.Inv(w[id]) && LockRuns.LogInv(w[id])
  }

  /** The process's calls for every session are those that its one map of chains holds for it. */
  ghost predicate MirrorsAll(w: Sessions, p: ProcId, c: Chain) {
    Chained(c) && forall id <- w :: p in w[id].procs && Mirrors(w[id].procs[p], c, id)
  }

  /** The chain stands still, takes one more call of some session, or settles a call that can run. */
  ghost predicate ChainNext(c: Chain, c': Chain) { exists id: string :: SessionNext(c, c', id) }

  lemma InitIsSound(s: State)
    requires Init(s)
    ensures PatchLockProofs.Inv(s) && LockRuns.LogInv(s)
  {
    PatchLockProofs.RunKeepsInv([s], 0);
    LockRuns.InitialLog(s);
  }

  lemma SessionsNextMirrors(w: Sessions, w': Sessions, p: ProcId, c: Chain) returns (c': Chain)
    requires Sound(w) && SessionsNext(w, w') && MirrorsAll(w, p, c)
    ensures w'.Keys == w.Keys && Sound(w') && MirrorsAll(w', p, c') && ChainNext(c, c')
  {
    hide PatchLockProofs.Inv, LockRuns.LogInv, Next, Mirrors, Chained, SessionNext;
    var id: string :| id in w && id in w' && w' == w[id := w'[id]] && Next(w[id], w'[id]);
    PatchLockProofs.NextKeepsInv(w[id], w'[id]);
    LockRuns.NextKeepsLog(w[id], w'[id]);
    c' := NextMirrors(w[id], w'[id], p, c, id);
    forall other <- w' ensures p in w'[other].procs && Mirrors(w'[other].procs[p], c', other) {
      if other != id { OtherSessionKeeps(w[other].procs[p], c, c', other, id); }
    }
  }

  lemma EmptyMirrors(proc: Proc, id: string)
    requires proc.pc == Idle && proc.queue == [] && proc.started == 0
    ensures Chained(Chain(map[], [], {})) && Mirrors(proc, Chain(map[], [], {}), id)
  {
  }

  /** In every run of any number of sessions, each process's calls for all of them are those of one map of chains
      that only takes calls and settles calls it lets run. So the queue of each machine is no assumption of its
      own, whatever the process does for other sessions in between. */
  lemma {:induction false} RunMirrorsChain(worlds: seq<Sessions>, i: nat, p: ProcId) returns (chains: seq<Chain>)
    requires SessionsRun(worlds) && i < |worlds| && forall id <- worlds[0] :: p in worlds[0][id].procs
    ensures |chains| == i + 1 && chains[0] == Chain(map[], [], {})
    ensures forall j :: 0 <= j < i ==> ChainNext(chains[j], chains[j + 1])
    ensures forall j :: 0 <= j <= i ==> worlds[j].Keys == worlds[0].Keys && MirrorsAll(worlds[j], p, chains[j])
    ensures Sound(worlds[i])
  {
    hide PatchLockProofs.Inv, LockRuns.LogInv, ChainNext, SessionsNext, Mirrors, Chained;
    if i == 0 {
      chains := [Chain(map[], [], {})];
      StartMirrorsAll(worlds[0], p);
    } else {
      chains := RunMirrorsChain(worlds, i - 1, p);
      var c := SessionsNextMirrors(worlds[i - 1], worlds[i], p, chains[i - 1]);
      chains := chains + [c];
    }
  }

  lemma StartMirrorsAll(w: Sessions, p: ProcId)
    requires forall id <- w :: Init(w[id]) && p in w[id].procs
    ensures Sound(w) && MirrorsAll(w, p, Chain(map[], [], {}))
  {
    hide PatchLockProofs.Inv, LockRuns.LogInv, Mirrors;
    forall id <- w ensures PatchLockProofs.Inv(w[id]) && LockRuns.LogInv(w[id]) { InitIsSound(w[id]); }
    forall id <- w ensures Mirrors(w[id].procs[p], Chain(map[], [], {}), id) { EmptyMirrors(w[id].procs[p], id); }
  }
}
