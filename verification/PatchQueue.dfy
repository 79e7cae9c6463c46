/** The per-process queue of patch calls: a map from session id to the tail promise of its chain,
    pruned when a tail settles with nothing behind it. */
module PatchQueue {
  import opened Base

  /** Call number k awaits `prior` (nothing when no chain existed) and is itself promise k. */
  datatype Queued = Queued(id: string, prior: Option<nat>)

  /** Every call of this session before call k has settled. */
  ghost predicate SettledBefore(calls: seq<Queued>, settled: set<nat>, id: string, k: nat) {
    forall j :: 0 <= j < k && j < |calls| && calls[j].id == id ==> j in settled
  }

  /** Call j is the last call of its session among the first k. */
  ghost predicate LastBefore(calls: seq<Queued>, id: string, j: nat, k: nat) {
    && j < k <= |calls| && calls[j].id == id
    && forall i :: j < i < k ==> calls[i].id != id
  }

  ghost predicate Chained(tails: map<string, nat>, calls: seq<Queued>, settled: set<nat>) {
    && (forall id <- tails :: LastBefore(calls, id, tails[id], |calls|))
    && (forall id :: id !in tails ==> SettledBefore(calls, settled, id, |calls|))
    && (forall k <- settled :: k < |calls| && SettledBefore(calls, settled, calls[k].id, k))
    && (forall k :: 0 <= k < |calls| ==>
          if calls[k].prior.None? then SettledBefore(calls, settled, calls[k].id, k)
          else LastBefore(calls, calls[k].id, calls[k].prior.value, k))
  }

  /** The promise call k awaits has resolved. */
  predicate CanRun(calls: seq<Queued>, settled: set<nat>, k: nat)
    requires k < |calls|
  {
    k !in settled && (calls[k].prior.None? || calls[k].prior.value in settled)
  }

  /** Patches of one session run in call order and one at a time: when a call can run, every earlier
      call of its session has settled and no other can run. */
  lemma StartsInOrder(tails: map<string, nat>, calls: seq<Queued>, settled: set<nat>, k: nat)
    requires Chained(tails, calls, settled) && k < |calls| && CanRun(calls, settled, k)
    ensures SettledBefore(calls, settled, calls[k].id, k)
    ensures forall j :: 0 <= j < |calls| && j != k && calls[j].id == calls[k].id ==> !CanRun(calls, settled, j)
  {
    EarlierSettled(tails, calls, settled, k);
    forall j | k < j < |calls| && calls[j].id == calls[k].id ensures !CanRun(calls, settled, j) {
      if CanRun(calls, settled, j) {
        EarlierSettled(tails, calls, settled, j);
        assert false;
      }
    }
  }

  lemma EarlierSettled(tails: map<string, nat>, calls: seq<Queued>, settled: set<nat>, k: nat)
    requires Chained(tails, calls, settled) && k < |calls| && CanRun(calls, settled, k)
    ensures SettledBefore(calls, settled, calls[k].id, k)
  {
    if calls[k].prior.Some? {
      var i := calls[k].prior.value;
      assert LastBefore(calls, calls[k].id, i, k);
      assert SettledBefore(calls, settled, calls[i].id, i);
    }
  }

  /** The chain never stalls: while a call of a session is unsettled, that call or an earlier one can run. */
  lemma SomeCallCanRun(tails: map<string, nat>, calls: seq<Queued>, settled: set<nat>, k: nat) returns (next: nat)
    requires Chained(tails, calls, settled) && k < |calls| && k !in settled
    ensures next <= k && calls[next].id == calls[k].id && CanRun(calls, settled, next)
    decreases k
  {
    next := k;
    if calls[k].prior.Some? {
      var j := calls[k].prior.value;
      assert LastBefore(calls, calls[k].id, j, k);
      if j !in settled { next := SomeCallCanRun(tails, calls, settled, j); }
    }
  }

  lemma EnqueueKeepsChain(tails: map<string, nat>, calls: seq<Queued>, settled: set<nat>, id: string)
    requires Chained(tails, calls, settled)
    ensures Chained(tails[id := |calls|],
                    calls + [Queued(id, if id in tails then Some(tails[id]) else None)], settled)
  {
    var tails' := tails[id := |calls|];
    var calls' := calls + [Queued(id, if id in tails then Some(tails[id]) else None)];
    forall i <- tails' ensures LastBefore(calls', i, tails'[i], |calls'|) {
      assert i != id ==> LastBefore(calls, i, tails[i], |calls|);
    }
    forall i | i !in tails' ensures SettledBefore(calls', settled, i, |calls'|) {
      assert SettledBefore(calls, settled, i, |calls|);
    }
    forall k <- settled ensures k < |calls'| && SettledBefore(calls', settled, calls'[k].id, k) {
      assert SettledBefore(calls, settled, calls[k].id, k);
    }
    forall k | 0 <= k < |calls'|
      ensures if calls'[k].prior.None? then SettledBefore(calls', settled, calls'[k].id, k)
              else LastBefore(calls', calls'[k].id, calls'[k].prior.value, k)
    {
      if k < |calls| {
        assert if calls[k].prior.None? then SettledBefore(calls, settled, calls[k].id, k)
               else LastBefore(calls, calls[k].id, calls[k].prior.value, k);
      } else if id in tails {
        assert LastBefore(calls, id, tails[id], |calls|);
      } else {
        assert SettledBefore(calls, settled, id, |calls|);
      }
    }
  }

  lemma SettleKeepsChain(tails: map<string, nat>, calls: seq<Queued>, settled: set<nat>, k: nat)
    requires Chained(tails, calls, settled) && k < |calls| && CanRun(calls, settled, k)
    ensures Chained(Pruned(tails, calls, k), calls, settled + {k})
  {
    EarlierSettled(tails, calls, settled, k);
    var tails', settled' := Pruned(tails, calls, k), settled + {k};
    forall i <- tails' ensures LastBefore(calls, i, tails'[i], |calls|) {
      assert i in tails;
    }
    forall i | i !in tails' ensures SettledBefore(calls, settled', i, |calls|) {
      if i in tails {
        assert LastBefore(calls, i, tails[i], |calls|);
      } else {
        assert SettledBefore(calls, settled, i, |calls|);
      }
    }
    forall j <- settled' ensures j < |calls| && SettledBefore(calls, settled', calls[j].id, j) {
      assert SettledBefore(calls, settled, calls[j].id, j);
    }
    forall j | 0 <= j < |calls|
      ensures if calls[j].prior.None? then SettledBefore(calls, settled', calls[j].id, j)
              else LastBefore(calls, calls[j].id, calls[j].prior.value, j)
    {
      assert if calls[j].prior.None? then SettledBefore(calls, settled, calls[j].id, j)
             else LastBefore(calls, calls[j].id, calls[j].prior.value, j);
    }
  }

  /** Once promise k has settled, its session is forgotten if k is still its tail. */
  function Pruned(tails: map<string, nat>, calls: seq<Queued>, k: nat): map<string, nat>
    requires k < |calls|
  {
    if calls[k].id in tails && tails[calls[k].id] == k then tails - {calls[k].id} else tails
  }

  // ---------------------------------------------------------------- the queue that the chain is

  /** The unsettled calls of a session among the first n, in call order. */
  function WaitingAmong(calls: seq<Queued>, settled: set<nat>, id: string, n: nat): seq<nat>
    requires n <= |calls|
  {
    if n == 0 then []
    else
      WaitingAmong(calls, settled, id, n - 1) + if calls[n - 1].id == id && n - 1 !in settled then [n - 1] else []
  }

  function Waiting(calls: seq<Queued>, settled: set<nat>, id: string): seq<nat> {
    WaitingAmong(calls, settled, id, |calls|)
  }

  lemma {:induction false} WaitingMeans(calls: seq<Queued>, settled: set<nat>, id: string, n: nat)
    requires n <= |calls|
    ensures
      var w := WaitingAmong(calls, settled, id, n);
      && (forall k :: k in w <==> 0 <= k < n && calls[k].id == id && k !in settled)
      && (forall i, j :: 0 <= i < j < |w| ==> w[i] < w[j])
  {
    if n > 0 {
      WaitingMeans(calls, settled, id, n - 1);
      var shorter := WaitingAmong(calls, settled, id, n - 1);
      forall i | 0 <= i < |shorter| ensures shorter[i] < n - 1 { assert shorter[i] in shorter; }
    }
  }

  lemma {:induction false} WaitingGrows(calls: seq<Queued>, settled: set<nat>, more: seq<Queued>, id: string, n: nat)
    requires n <= |calls|
    ensures WaitingAmong(calls + more, settled, id, n) == WaitingAmong(calls, settled, id, n)
  {
    if n > 0 { WaitingGrows(calls, settled, more, id, n - 1); }
  }

  lemma SmallestIsFirst(w: seq<nat>, k: nat)
    requires k in w && (forall j <- w :: k <= j) && forall i, j :: 0 <= i < j < |w| ==> w[i] < w[j]
    ensures w[0] == k
  {
    var i :| 0 <= i < |w| && w[i] == k;
    assert w[0] in w;
  }

  /** The call that can run is the first waiting call of its session; while any waits, the first can run. */
  lemma RunsFirstWaiting(tails: map<string, nat>, calls: seq<Queued>, settled: set<nat>, id: string, k: nat)
    requires Chained(tails, calls, settled)
    ensures k < |calls| && calls[k].id == id && CanRun(calls, settled, k) <==>
            Waiting(calls, settled, id) != [] && Waiting(calls, settled, id)[0] == k
  {
    var w := Waiting(calls, settled, id);
    WaitingMeans(calls, settled, id, |calls|);
    if k < |calls| && calls[k].id == id && CanRun(calls, settled, k) {
      FirstWaiting(tails, calls, settled, id, k);
    }
    if w != [] && w[0] == k {
      assert w[0] in w;
      var next := SomeCallCanRun(tails, calls, settled, k);
      FirstWaiting(tails, calls, settled, id, next);
    }
  }

  lemma FirstWaiting(tails: map<string, nat>, calls: seq<Queued>, settled: set<nat>, id: string, k: nat)
    requires Chained(tails, calls, settled) && k < |calls| && calls[k].id == id && CanRun(calls, settled, k)
    ensures Waiting(calls, settled, id) != [] && Waiting(calls, settled, id)[0] == k
  {
    WaitingMeans(calls, settled, id, |calls|);
    StartsInOrder(tails, calls, settled, k);
    SmallestIsFirst(Waiting(calls, settled, id), k);
  }

  lemma EnqueueAppends(calls: seq<Queued>, settled: set<nat>, call: Queued, id: string)
    requires forall k <- settled :: k < |calls|
    ensures Waiting(calls + [call], settled, id) == Waiting(calls, settled, id) + if call.id == id then [|calls|] else []
  {
    WaitingGrows(calls, settled, [call], id, |calls|);
  }

  lemma {:induction false} NoneWaiting(calls: seq<Queued>, settled: set<nat>, id: string, n: nat)
    requires n <= |calls| && SettledBefore(calls, settled, id, n)
    ensures WaitingAmong(calls, settled, id, n) == []
  {
    if n > 0 { NoneWaiting(calls, settled, id, n - 1); }
  }

  lemma {:induction false} WaitingLess(calls: seq<Queued>, settled: set<nat>, k: nat, id: string, n: nat)
    requires n <= |calls| && k < |calls| && k !in settled && SettledBefore(calls, settled, calls[k].id, k)
    ensures WaitingAmong(calls, settled, id, n) ==
              (if calls[k].id == id && k < n then [k] else []) + WaitingAmong(calls, settled + {k}, id, n)
  {
    if n > 0 {
      WaitingLess(calls, settled, k, id, n - 1);
      if n - 1 == k && calls[k].id == id {
        NoneWaiting(calls, settled, id, k);
        NoneWaiting(calls, settled + {k}, id, k);
      } else {
        Assoc(if calls[k].id == id && k < n - 1 then [k] else [], WaitingAmong(calls, settled + {k}, id, n - 1),
              if calls[n - 1].id == id && n - 1 !in settled then [n - 1] else []);
      }
    }
  }

  /** Settling the call that runs takes it off the front of its session's queue and leaves the others alone. */
  lemma SettlePops(tails: map<string, nat>, calls: seq<Queued>, settled: set<nat>, k: nat, id: string)
    requires Chained(tails, calls, settled) && k < |calls| && CanRun(calls, settled, k)
    ensures Waiting(calls, settled, id) == (if calls[k].id == id then [k] else []) + Waiting(calls, settled + {k}, id)
  {
    StartsInOrder(tails, calls, settled, k);
    WaitingLess(calls, settled, k, id, |calls|);
  }

  class Queues {
    var tails: map<string, nat>
    var calls: seq<Queued>
    var settled: set<nat>

    ghost predicate Valid()
      reads this
    {
      Chained(tails, calls, settled)
    }

    constructor ()
      ensures Valid() && tails == map[] && calls == [] && settled == {}
    {
      tails, calls, settled := map[], [], {};
    }

    /** A patch call joins the chain of its session. */
    method Enqueue(id: string) returns (k: nat)
      requires Valid()
      modifies this
      ensures Valid()
      ensures k == |old(calls)| && calls == old(calls) + [Queued(id, if id in old(tails) then Some(old(tails)[id]) else None)]
      ensures tails == old(tails)[id := k] && settled == old(settled)
      ensures forall s: string :: Waiting(calls, settled, s) == old(Waiting(calls, settled, s)) + if s == id then [k] else []
    {
      EnqueueKeepsChain(tails, calls, settled, id);
      forall s: string ensures var call := Queued(id, if id in tails then Some(tails[id]) else None);
        Waiting(calls + [call], settled, s) == Waiting(calls, settled, s) + if s == id then [|calls|] else []
      {
        EnqueueAppends(calls, settled, Queued(id, if id in tails then Some(tails[id]) else None), s);
      }
      var prior := if id in tails then Some(tails[id]) else None;
      k := |calls|;
      calls := calls + [Queued(id, prior)];
      tails := tails[id := k];
    }

    /** Call k finishes, with a value or an error: its tail settles either way, and is pruned if it is last. */
    method Settle(k: nat)
      requires Valid() && k < |calls| && CanRun(calls, settled, k)
      modifies this
      ensures Valid()
      ensures settled == old(settled) + {k} && calls == old(calls) && tails == Pruned(old(tails), calls, k)
      ensures forall s: string :: old(Waiting(calls, settled, s)) ==
                                  (if s == calls[k].id then [k] else []) + Waiting(calls, settled, s)
    {
      SettleKeepsChain(tails, calls, settled, k);
      forall s: string ensures Waiting(calls, settled, s) ==
                               (if s == calls[k].id then [k] else []) + Waiting(calls, settled + {k}, s)
      {
        SettlePops(tails, calls, settled, k, s);
      }
      settled := settled + {k};
      var id := calls[k].id;
      if id in tails && tails[id] == k {
        tails := tails - {id};
      }
    }
  }
}
