/** Signed control messages and the guard against replaying them. Times are milliseconds. */
module SpawnAuth {
  import opened Base
  import opened Text

  datatype Verdict = Accepted | Stale | Replay

  type Seen = map<Text, int>

  function Abs(x: int): int { if x < 0 then -x else x }

  // ---------------------------------------------------------------- one check

  /** The entries that are not older than the window. */
  function Pruned(seen: Seen, window: int, now: int): Seen {
    map n | n in seen && now - seen[n] <= window :: seen[n]
  }

  function Checked(seen: Seen, window: int, nonce: Text, ts: int, now: int): (Verdict, Seen) {
    if Abs(now - ts) > window then (Stale, seen)
    else
      var pruned := Pruned(seen, window, now);
      if nonce in pruned then (Replay, pruned) else (Accepted, pruned[nonce := ts])
  }

  /** The same guard without pruning: it never forgets. */
  function CheckedForever(accepted: Seen, window: int, nonce: Text, ts: int, now: int): (Verdict, Seen) {
    if Abs(now - ts) > window then (Stale, accepted)
    else if nonce in accepted then (Replay, accepted)
    else (Accepted, accepted[nonce := ts])
  }

  class ReplayGuard {
    const windowMs: int
    var seen: Seen

    constructor (windowMs: int)
      ensures this.windowMs == windowMs && seen == map[]
    {
      this.windowMs, seen := windowMs, map[];
    }

    method Check(nonce: Text, ts: int, now: int) returns (verdict: Verdict)
      modifies this`seen
      ensures (verdict, seen) == Checked(old(seen), windowMs, nonce, ts, now)
    {
      if Abs(now - ts) > windowMs { return Stale; }
      Prune(now);
      if nonce in seen { return Replay; }
      seen := seen[nonce := ts];
      verdict := Accepted;
    }

    method Prune(now: int)
      modifies this`seen
      ensures seen == Pruned(old(seen), windowMs, now)
    {
      var rest := seen.Keys;
      while rest != {}
        invariant rest <= old(seen).Keys
        invariant forall n :: n in seen <==> n in old(seen) && (n in rest || now - old(seen)[n] <= windowMs)
        invariant forall n <- seen :: seen[n] == old(seen)[n]
        decreases rest
      {
        var n :| n in rest;
        rest := rest - {n};
        if now - seen[n] > windowMs { seen := seen - {n}; }
      }
    }
  }

  // ---------------------------------------------------------------- runs

  datatype Call = Call(nonce: Text, ts: int, now: int)

  function Run(seen: Seen, window: int, calls: seq<Call>): (r: (seq<Verdict>, Seen))
    ensures |r.0| == |calls|
    decreases |calls|
  {
    if calls == [] then ([], seen)
    else
      var (v, next) := Checked(seen, window, calls[0].nonce, calls[0].ts, calls[0].now);
      var (more, last) := Run(next, window, calls[1..]);
      ([v] + more, last)
  }

  function RunForever(accepted: Seen, window: int, calls: seq<Call>): (r: (seq<Verdict>, Seen))
    ensures |r.0| == |calls|
    decreases |calls|
  {
    if calls == [] then ([], accepted)
    else
      var (v, next) := CheckedForever(accepted, window, calls[0].nonce, calls[0].ts, calls[0].now);
      var (more, last) := RunForever(next, window, calls[1..]);
      ([v] + more, last)
  }

  predicate ClockNeverGoesBack(calls: seq<Call>) {
    forall i, j :: 0 <= i < j < |calls| ==> calls[i].now <= calls[j].now
  }

  predicate NonceHasOneTime(calls: seq<Call>) {
    forall i, j :: 0 <= i < j < |calls| ==> calls[i].nonce == calls[j].nonce ==> calls[i].ts == calls[j].ts
  }

  /** What was accepted and is forgotten is too old to pass the first test from now on. */
  ghost predicate Forgets(seen: Seen, accepted: Seen, window: int, calls: seq<Call>) {
    && (forall n <- seen :: n in accepted && seen[n] == accepted[n])
    && (forall n <- accepted :: n !in seen ==> forall c <- calls :: c.now - accepted[n] > window)
    && (forall n <- accepted :: forall c <- calls :: c.nonce == n ==> c.ts == accepted[n])
  }

  lemma StepForgets(seen: Seen, accepted: Seen, window: int, calls: seq<Call>)
    requires calls != [] && ClockNeverGoesBack(calls) && NonceHasOneTime(calls) && Forgets(seen, accepted, window, calls)
    ensures
      var c := calls[0];
      var (v, next) := Checked(seen, window, c.nonce, c.ts, c.now);
      var (v', next') := CheckedForever(accepted, window, c.nonce, c.ts, c.now);
      v == v' && Forgets(next, next', window, calls[1..])
  {
    var c := calls[0];
    assert c in calls;
    forall d <- calls[1..] ensures d in calls && c.now <= d.now && (d.nonce == c.nonce ==> d.ts == c.ts) {
      var i :| 0 <= i < |calls| - 1 && calls[1..][i] == d;
      assert calls[i + 1] == d;
    }
  }

  lemma {:induction false} RunsAgree(seen: Seen, accepted: Seen, window: int, calls: seq<Call>)
    requires ClockNeverGoesBack(calls) && NonceHasOneTime(calls) && Forgets(seen, accepted, window, calls)
    ensures Run(seen, window, calls).0 == RunForever(accepted, window, calls).0
    decreases |calls|
  {
    if calls != [] {
      var c := calls[0];
      StepForgets(seen, accepted, window, calls);
      RunsAgree(Checked(seen, window, c.nonce, c.ts, c.now).1, CheckedForever(accepted, window, c.nonce, c.ts, c.now).1,
                window, calls[1..]);
    }
  }

  /** The pruning guard answers every call as one that never forgets. */
  lemma PruningIsInvisible(window: int, calls: seq<Call>)
    requires ClockNeverGoesBack(calls) && NonceHasOneTime(calls)
    ensures Run(map[], window, calls).0 == RunForever(map[], window, calls).0
  {
    RunsAgree(map[], map[], window, calls);
  }

  lemma {:induction false} ForeverRejects(accepted: Seen, window: int, calls: seq<Call>, j: nat)
    requires j < |calls| && calls[j].nonce in accepted
    ensures RunForever(accepted, window, calls).0[j] != Accepted
    decreases |calls|
  {
    if j > 0 {
      ForeverRejects(CheckedForever(accepted, window, calls[0].nonce, calls[0].ts, calls[0].now).1, window, calls[1..], j - 1);
    }
  }

  lemma {:induction false} ForeverAcceptsOnce(accepted: Seen, window: int, calls: seq<Call>, i: nat, j: nat)
    requires i < j < |calls| && calls[i].nonce == calls[j].nonce
    ensures RunForever(accepted, window, calls).0[i] == Accepted ==> RunForever(accepted, window, calls).0[j] != Accepted
    decreases |calls|
  {
    var next := CheckedForever(accepted, window, calls[0].nonce, calls[0].ts, calls[0].now).1;
    if i > 0 {
      ForeverAcceptsOnce(next, window, calls[1..], i - 1, j - 1);
    } else if calls[0].nonce in next {
      ForeverRejects(next, window, calls[1..], j - 1);
    }
  }

  /** No nonce is accepted twice. */
  lemma AcceptedAtMostOnce(window: int, calls: seq<Call>, i: nat, j: nat)
    requires ClockNeverGoesBack(calls) && NonceHasOneTime(calls)
    requires i < j < |calls| && calls[i].nonce == calls[j].nonce
    ensures Run(map[], window, calls).0[i] == Accepted ==> Run(map[], window, calls).0[j] != Accepted
  {
    PruningIsInvisible(window, calls);
    ForeverAcceptsOnce(map[], window, calls, i, j);
  }

  /** The time of the message is further from the clock than the window, on either side. */
  predicate OutOfTime(c: Call, window: int) { c.now - c.ts > window || c.ts - c.now > window }

  /** An earlier call in time had the same nonce. */
  predicate CameBefore(calls: seq<Call>, window: int, i: nat)
    requires i < |calls|
  {
    exists j :: 0 <= j < i && calls[j].nonce == calls[i].nonce && !OutOfTime(calls[j], window)
  }

  lemma {:induction false} ForeverVerdicts(accepted: Seen, window: int, calls: seq<Call>, i: nat)
    requires i < |calls|
    ensures RunForever(accepted, window, calls).0[i] ==
              if OutOfTime(calls[i], window) then Stale
              else if calls[i].nonce in accepted || CameBefore(calls, window, i) then Replay
              else Accepted
    decreases |calls|
  {
    if i > 0 {
      var c, more := calls[0], calls[1..];
      var next := CheckedForever(accepted, window, c.nonce, c.ts, c.now).1;
      ForeverVerdicts(next, window, more, i - 1);
      if CameBefore(more, window, i - 1) {
        var j :| 0 <= j < i - 1 && more[j].nonce == more[i - 1].nonce && !OutOfTime(more[j], window);
        assert calls[j + 1] == more[j];
      }
      if CameBefore(calls, window, i) {
        var j :| 0 <= j < i && calls[j].nonce == calls[i].nonce && !OutOfTime(calls[j], window);
        if j > 0 { assert more[j - 1] == calls[j]; }
      }
    }
  }

  /** In such runs every call is answered like this: stale if it is out of time on either side, a replay if an
      earlier call in time had its nonce, and accepted otherwise. */
  lemma VerdictsAre(window: int, calls: seq<Call>, i: nat)
    requires ClockNeverGoesBack(calls) && NonceHasOneTime(calls) && i < |calls|
    ensures Run(map[], window, calls).0[i] ==
              if OutOfTime(calls[i], window) then Stale else if CameBefore(calls, window, i) then Replay else Accepted
  {
    PruningIsInvisible(window, calls);
    ForeverVerdicts(map[], window, calls, i);
  }

  predicate Within(seen: Seen, window: int, now: int) {
    forall n <- seen :: Abs(now - seen[n]) <= window
  }

  predicate AllStale(verdicts: seq<Verdict>) {
    forall i :: 0 <= i < |verdicts| ==> verdicts[i] == Stale
  }

  lemma {:induction false} StaleCallsKeep(seen: Seen, window: int, calls: seq<Call>)
    requires AllStale(Run(seen, window, calls).0)
    ensures Run(seen, window, calls).1 == seen
    decreases |calls|
  {
    if calls != [] {
      var verdicts := Run(seen, window, calls).0;
      assert verdicts[0] == Stale;
      assert verdicts[1..] == Run(seen, window, calls[1..]).0;
      StaleCallsKeep(seen, window, calls[1..]);
    }
  }

  lemma {:induction false} RetainedFrom(seen: Seen, window: int, calls: seq<Call>, last: int, i: nat)
    requires ClockNeverGoesBack(calls) && Within(seen, window, last) && i < |calls| && last <= calls[0].now
    requires Run(seen, window, calls).0[i] != Stale && AllStale(Run(seen, window, calls).0[i + 1..])
    ensures Within(Run(seen, window, calls).1, window, calls[i].now)
    decreases |calls|
  {
    var c := calls[0];
    var (v, next) := Checked(seen, window, c.nonce, c.ts, c.now);
    var verdicts := Run(seen, window, calls).0;
    assert verdicts[1..] == Run(next, window, calls[1..]).0;
    if i == 0 {
      StaleCallsKeep(next, window, calls[1..]);
    } else {
      assert verdicts[i + 1..] == verdicts[1..][i..];
      RetainedFrom(next, window, calls[1..], if v == Stale then last else c.now, i - 1);
    }
  }

  /** Everything the guard retains is within the window of the last check that was not stale. */
  lemma RetainedIsRecent(window: int, calls: seq<Call>, i: nat)
    requires ClockNeverGoesBack(calls) && i < |calls|
    requires Run(map[], window, calls).0[i] != Stale && AllStale(Run(map[], window, calls).0[i + 1..])
    ensures Within(Run(map[], window, calls).1, window, calls[i].now)
  {
    RetainedFrom(map[], window, calls, calls[0].now, i);
  }

  /** Both assumptions are needed. A nonce that comes back with a later time is accepted again once the guard
      has forgotten the first one, and so is a forgotten message after the clock was set back. */
  lemma AssumptionsAreNeeded(window: int, nonce: Text, other: Text)
    requires window >= 0 && nonce != other
    ensures
      var calls := [Call(nonce, 0, 0), Call(nonce, window + 1, window + 1)];
      ClockNeverGoesBack(calls) && Run(map[], window, calls).0 == [Accepted, Accepted]
    ensures
      var calls := [Call(nonce, 0, 0), Call(other, window + 1, window + 1), Call(nonce, 0, 0)];
      NonceHasOneTime(calls) && Run(map[], window, calls).0 == [Accepted, Accepted, Accepted]
  {
    var a, b := Call(nonce, 0, 0), Call(nonce, window + 1, window + 1);
    var c := Call(other, window + 1, window + 1);
    var s1 := Checked(map[], window, nonce, 0, 0).1;
    assert s1 == map[nonce := 0];
    assert [a, b][1..] == [b] && [b][1..] == [];
    assert Pruned(s1, window, window + 1) == map[];
    assert Run(map[], window, [b][1..]).0 == [];
    assert Run(s1, window, [b]).0 == [Accepted];
    assert [a, c, a][1..] == [c, a] && [c, a][1..] == [a] && [a][1..] == [];
    var s2 := Checked(s1, window, other, window + 1, window + 1).1;
    assert s2 == map[other := window + 1];
    assert nonce !in Pruned(s2, window, 0);
    assert Run(s2, window, [a]).0 == [Accepted];
    assert Run(s1, window, [c, a]).0 == [Accepted, Accepted];
  }

  // ---------------------------------------------------------------- signed messages

  /** A control message: a signed envelope, or any other kind. */
  datatype Control = Signed(payload: Text, nonce: Text, ts: int, sig: Text) | Other

  datatype Verified<+M> = Message(message: M) | Rejected(reason: Reason)
  datatype Reason = BadSignature | StaleTime | Replayed | BadPayload | NotSigned

  /** HMAC of a secret and a text; how a time prints; JSON printing and parsing (none where parsing throws). */
  datatype Crypto<!M> = Crypto(hmac: (Text, Text) -> Text, time: int -> Text, write: M -> Text, read: Text -> Option<M>)

  /** The text that is signed: payload, nonce and time on lines of their own. */
  function SigningInput<M>(k: Crypto<M>, payload: Text, nonce: Text, ts: int): Text {
    payload + [LF] + nonce + [LF] + k.time(ts)
  }

  function Mac<M>(k: Crypto<M>, secret: Text, payload: Text, nonce: Text, ts: int): Text {
    k.hmac(secret, SigningInput(k, payload, nonce, ts))
  }

  lemma NoLaterLf(a: Text, x: Text)
    requires 0x0A !in x
    ensures var s := a + [0x0A] + x; s[|a|] == 0x0A && forall i :: |a| < i < |s| ==> s[i] != 0x0A
  {
    var s := a + [0x0A] + x;
    forall i | |a| < i < |s| ensures s[i] != 0x0A { assert s[i] == x[i - |a| - 1] && s[i] in x; }
  }

  lemma LastLine(a: Text, x: Text, b: Text, y: Text)
    requires a + [0x0A] + x == b + [0x0A] + y && 0x0A !in x && 0x0A !in y
    ensures a == b && x == y
  {
    NoLaterLf(a, x);
    NoLaterLf(b, y);
    var s, t := a + [0x0A] + x, b + [0x0A] + y;
    assert |a| == |b|;
    assert s[..|a|] == a && t[..|b|] == b && s[|a| + 1..] == x && t[|b| + 1..] == y;
  }

  /** What is signed determines payload, nonce and time, as long as nonces and printed times have no line feed (a
      nonce is hexadecimal) and times print differently: a signature covers all three. */
  lemma SigningInputDetermines<M>(k: Crypto<M>, p: Text, n: Text, t: int, q: Text, m: Text, u: int)
    requires 0x0A !in n && 0x0A !in m && 0x0A !in k.time(t) && 0x0A !in k.time(u) && (k.time(t) == k.time(u) ==> t == u)
    ensures SigningInput(k, p, n, t) == SigningInput(k, q, m, u) <==> p == q && n == m && t == u
  {
    if SigningInput(k, p, n, t) == SigningInput(k, q, m, u) {
      LastLine(p + [0x0A] + n, k.time(t), q + [0x0A] + m, k.time(u));
      LastLine(p, n, q, m);
    }
  }

  function VerifiedBy<M>(k: Crypto<M>, secret: Text, envelope: Control, seen: Seen, window: int, now: int): (Verified<M>, Seen) {
    if envelope.Other? then (Rejected(NotSigned), seen)
    else if Mac(k, secret, envelope.payload, envelope.nonce, envelope.ts) != envelope.sig then (Rejected(BadSignature), seen)
    else
      var (verdict, next) := Checked(seen, window, envelope.nonce, envelope.ts, now);
      match verdict
      case Stale => (Rejected(StaleTime), next)
      case Replay => (Rejected(Replayed), next)
      case Accepted =>
        match k.read(envelope.payload)
        case None => (Rejected(BadPayload), next)
        case Some(m) => (Message(m), next)
  }

  method VerifySignedControl<M>(k: Crypto<M>, secret: Text, envelope: Control, guard: ReplayGuard, now: int)
      returns (r: Verified<M>)
    modifies guard`seen
    ensures (r, guard.seen) == VerifiedBy(k, secret, envelope, old(guard.seen), guard.windowMs, now)
  {
    if envelope.Other? { return Rejected(NotSigned); }
    var expected := Mac(k, secret, envelope.payload, envelope.nonce, envelope.ts);
    if expected != envelope.sig { return Rejected(BadSignature); }
    var replay := guard.Check(envelope.nonce, envelope.ts, now);
    if replay == Stale { return Rejected(StaleTime); }
    if replay == Replay { return Rejected(Replayed); }
    var message := k.read(envelope.payload);
    r := if message.None? then Rejected(BadPayload) else Message(message.value);
  }

  function SignControl<M>(k: Crypto<M>, secret: Text, message: M, nonce: Text, ts: int): Control {
    var payload := k.write(message);
    Signed(payload, nonce, ts, Mac(k, secret, payload, nonce, ts))
  }

  /** What was signed verifies to the same message, in time and for the first time; a second delivery is
      rejected, and what does not carry the right signature never touches the guard. */
  lemma SignThenVerify<M>(k: Crypto<M>, secret: Text, m: M, nonce: Text, ts: int, seen: Seen, window: int, now: int, later: int)
    requires k.read(k.write(m)) == Some(m)
    requires Abs(now - ts) <= window && (nonce in seen ==> now - seen[nonce] > window) && now <= later
    ensures
      var (first, next) := VerifiedBy(k, secret, SignControl(k, secret, m, nonce, ts), seen, window, now);
      first == Message(m) && VerifiedBy(k, secret, SignControl(k, secret, m, nonce, ts), next, window, later).0 ==
                               Rejected(if Abs(later - ts) > window then StaleTime else Replayed)
  {
    var next := Checked(seen, window, nonce, ts, now).1;
    assert nonce in next && next[nonce] == ts;
  }

  /** A message is verified exactly if it is signed, its signature is that of the secret over its payload, nonce and
      time, its time is within the window on either side, the guard holds no entry for its nonce that is not older
      than the window, and its payload reads as the message. */
  lemma VerifiedExactlyIf<M>(k: Crypto<M>, secret: Text, envelope: Control, seen: Seen, window: int, now: int, m: M)
    ensures VerifiedBy(k, secret, envelope, seen, window, now).0 == Message(m) <==>
              && envelope.Signed?
              && envelope.sig == k.hmac(secret, SigningInput(k, envelope.payload, envelope.nonce, envelope.ts))
              && now - envelope.ts <= window && envelope.ts - now <= window
              && (envelope.nonce in seen ==> now - seen[envelope.nonce] > window)
              && k.read(envelope.payload) == Some(m)
  {
  }

  lemma ForgeryLeavesGuard<M>(k: Crypto<M>, secret: Text, envelope: Control, seen: Seen, window: int, now: int)
    requires envelope.Signed? ==> Mac(k, secret, envelope.payload, envelope.nonce, envelope.ts) != envelope.sig
    ensures
      var (r, next) := VerifiedBy(k, secret, envelope, seen, window, now);
      r.Rejected? && next == seen
  {
  }
}
