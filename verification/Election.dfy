/** The dual-promote election: two servers that publish a state file each, then read the other's. */
module Election {
  import opened Base

  datatype Host = Wsl | Windows

  function Peer(h: Host): Host { if h == Wsl then Windows else Wsl }

  /** server.json; a server of an older version writes no start time. */
  datatype ServerState = ServerState(startedAt: Option<int>)

  datatype Decision = Win | Lose

  // ---------------------------------------------------------------- the decision

  datatype Outcome = StayHost | DemoteSelf

  function TieBreakOutcome(localIsWsl: bool, peerServerPresent: bool): Outcome {
    if !peerServerPresent || localIsWsl then StayHost else DemoteSelf
  }

  function SettleDecision(localIsWsl: bool, localStartedAt: int, peerStartedAt: Option<int>): Decision {
    if peerStartedAt.Some? && peerStartedAt.value != localStartedAt then
      if localStartedAt > peerStartedAt.value then Win else Lose
    else if TieBreakOutcome(localIsWsl, true) == StayHost then Win else Lose
  }

  /** Who should stay: the server that started last; WSL if they started together or one of the times is
      unknown. */
  function Winner(startedAt: Host -> Option<int>): Host {
    var w, x := startedAt(Wsl), startedAt(Windows);
    if w.Some? && x.Some? && w.value < x.value then Windows else Wsl
  }

  lemma DecisionNamesWinner(startedAt: Host -> Option<int>, h: Host)
    requires startedAt(h).Some?
    ensures SettleDecision(h == Wsl, startedAt(h).value, startedAt(Peer(h))) == Win <==> h == Winner(startedAt)
  {
  }

  // ---------------------------------------------------------------- one host's settle phase

  datatype Request = NoRequest | ToPeerHome | ToOwnHome

  /** settleDualPromote: reads of the peer's home until one finds a state file or the time is up; the result is
      the home that a shutdown request is written to. */
  method SettleDualPromote(localIsWsl: bool, localStartedAt: int, polls: seq<Option<ServerState>>) returns (request: Request)
    ensures request.NoRequest? <==> forall r <- polls :: r.None?
    ensures forall i | 0 <= i < |polls| && polls[i].Some? && (forall j :: 0 <= j < i ==> polls[j].None?) ::
      var other := polls[i].value.startedAt;
      request ==
        if other.Some? && other.value < localStartedAt then ToPeerHome
        else if other.Some? && other.value > localStartedAt then ToOwnHome
        else if localIsWsl then ToPeerHome else ToOwnHome
  {
    var peerState: Option<ServerState> := None;
    var i := 0;
    while i < |polls|
      invariant i <= |polls| && peerState.None?
      invariant forall j :: 0 <= j < i ==> polls[j].None?
    {
      peerState := polls[i];
      if peerState.Some? { break; }
      i := i + 1;
    }
    if peerState.None? { return NoRequest; }
    assert polls[i] in polls;
    request := if SettleDecision(localIsWsl, localStartedAt, peerState.value.startedAt) == Win then ToPeerHome else ToOwnHome;
  }

  // ---------------------------------------------------------------- the two hosts together

  /** Where a host stands. A decision is acted on by writing a shutdown request; a host that consumes one
      removes its state file and stops. */
  datatype Pc = Starting | Polling | Deciding(decision: Decision) | Requested(decision: Decision) | Unopposed

  datatype HostState = HostState(
    pc: Pc,
    file: Option<ServerState>,    // server.json in its home
    request: bool,                // a shutdown request in its home
    stopped: bool)

  datatype State = State(wsl: HostState, windows: HostState) {
    function Of(h: Host): HostState { if h == Wsl then wsl else windows }
    function With(h: Host, s: HostState): State { if h == Wsl then this.(wsl := s) else this.(windows := s) }
  }

  datatype Step =
    | Publish       // write server.json
    | Read          // one read of the peer's home that finds nothing, with time left, or finds a state file
    | LastRead      // the read before the time is up
    | Ask           // write the shutdown request
    | Consume       // act on a shutdown request in the own home

  ghost predicate Next(startedAt: Host -> Option<int>, h: Host, step: Step, s: State, s': State) {
    var me, peer := s.Of(h), s.Of(Peer(h));
    !me.stopped &&
    match step
    case Publish =>
      me.pc.Starting? && s' == s.With(h, me.(pc := Polling, file := Some(ServerState(startedAt(h)))))
    case Read =>
      && me.pc.Polling? && startedAt(h).Some?
      && s' == s.With(h, me.(pc := AfterRead(h, startedAt(h).value, peer.file, Polling)))
    case LastRead =>
      && me.pc.Polling? && startedAt(h).Some?
      && s' == s.With(h, me.(pc := AfterRead(h, startedAt(h).value, peer.file, Unopposed)))
    case Ask =>
      && me.pc.Deciding?
      && var asked := if me.pc.decision == Win then Peer(h) else h;
         var t := s.With(h, me.(pc := Requested(me.pc.decision)));
         s' == t.With(asked, t.Of(asked).(request := true))
    case Consume =>
      !me.pc.Starting? && me.request && s' == s.With(h, me.(file := None, request := false, stopped := true))
  }

  function AfterRead(h: Host, localStartedAt: int, peer: Option<ServerState>, otherwise: Pc): Pc {
    if peer.Some? then Deciding(SettleDecision(h == Wsl, localStartedAt, peer.value.startedAt)) else otherwise
  }

  const FRESH := HostState(Starting, None, false, false)

  datatype Move = Move(host: Host, step: Step)

  ghost predicate IsRunFrom(startedAt: Host -> Option<int>, first: State, moves: seq<Move>, states: seq<State>) {
    && |states| == |moves| + 1 && states[0] == first
    && forall i :: 0 <= i < |moves| ==> Next(startedAt, moves[i].host, moves[i].step, states[i], states[i + 1])
  }

  /** Both servers are about to start; an earlier server may have left a state file in either home. */
  function Homes(leftover: Host -> Option<ServerState>): State {
    State(FRESH.(file := leftover(Wsl)), FRESH.(file := leftover(Windows)))
  }

  /** A left-over file at h's peer makes h decide as the real peer would. */
  predicate HarmlessTo(startedAt: Host -> Option<int>, leftover: Host -> Option<ServerState>, h: Host) {
    leftover(Peer(h)).Some? && startedAt(h).Some? ==>
      (SettleDecision(h == Wsl, startedAt(h).value, leftover(Peer(h)).value.startedAt) == Win <==> h == Winner(startedAt))
  }

  predicate Harmless(startedAt: Host -> Option<int>, leftover: Host -> Option<ServerState>) {
    HarmlessTo(startedAt, leftover, Wsl) && HarmlessTo(startedAt, leftover, Windows)
  }

  /** A run from such homes. */
  ghost predicate IsRun(startedAt: Host -> Option<int>, leftover: Host -> Option<ServerState>, moves: seq<Move>, states: seq<State>) {
    IsRunFrom(startedAt, Homes(leftover), moves, states)
  }

  predicate Decided(pc: Pc) { pc.Deciding? || pc.Requested? }

  /** Only the loser is ever asked to stop, and whoever decides decides for the same winner. */
  ghost predicate HostInv(startedAt: Host -> Option<int>, leftover: Host -> Option<ServerState>, s: State, h: Host) {
    var me, peer := s.Of(h), s.Of(Peer(h));
    && (me.pc.Starting? ==> me.file == leftover(h))
    && (!me.pc.Starting? && me.file.Some? ==> me.file.value.startedAt == startedAt(h))
    && (!me.pc.Starting? && !me.stopped ==> me.file.Some?)
    && (Decided(me.pc) ==> (me.pc.decision == Win <==> h == Winner(startedAt)))
    && (me.request || me.stopped ==> h != Winner(startedAt) && (me.pc.Requested? || peer.pc.Requested?))
    && (me.pc.Unopposed? ==> !peer.pc.Unopposed?)
    && (me.pc.Requested? ==> s.Of(Peer(Winner(startedAt))).request || s.Of(Peer(Winner(startedAt))).stopped)
  }

  lemma StepKeepsInv(startedAt: Host -> Option<int>, leftover: Host -> Option<ServerState>, h: Host, step: Step, s: State, s': State)
    requires Harmless(startedAt, leftover) && Next(startedAt, h, step, s, s')
    requires HostInv(startedAt, leftover, s, Wsl) && HostInv(startedAt, leftover, s, Windows)
    ensures HostInv(startedAt, leftover, s', Wsl) && HostInv(startedAt, leftover, s', Windows)
  {
    if startedAt(h).Some? {
      DecisionNamesWinner(startedAt, h);
    }
  }

  lemma {:induction false} RunKeepsInv(
      startedAt: Host -> Option<int>, leftover: Host -> Option<ServerState>, moves: seq<Move>, states: seq<State>, i: nat)
    requires Harmless(startedAt, leftover) && IsRun(startedAt, leftover, moves, states) && i < |states|
    ensures HostInv(startedAt, leftover, states[i], Wsl) && HostInv(startedAt, leftover, states[i], Windows)
    decreases i
  {
    if i > 0 {
      RunKeepsInv(startedAt, leftover, moves, states, i - 1);
      StepKeepsInv(startedAt, leftover, moves[i - 1].host, moves[i - 1].step, states[i - 1], states[i]);
    }
  }

  /** In every interleaving, from homes that are empty or hold harmless files: the two never both find no peer;
      all that decide agree; shutdown requests land in one home only, that of the earlier starter, or of Windows
      on a tie or an unknown time; the winner never stops; and a decision that was acted on has asked the loser
      to stop. */
  lemma OneHostStays(
      startedAt: Host -> Option<int>, leftover: Host -> Option<ServerState>, moves: seq<Move>, states: seq<State>, i: nat)
    requires Harmless(startedAt, leftover) && IsRun(startedAt, leftover, moves, states) && i < |states|
    ensures
      var s, winner := states[i], Winner(startedAt);
      && !(s.wsl.pc.Unopposed? && s.windows.pc.Unopposed?)
      && (Decided(s.wsl.pc) && Decided(s.windows.pc) ==> s.wsl.pc.decision != s.windows.pc.decision)
      && !s.Of(winner).request && !s.Of(winner).stopped
      && (s.wsl.pc.Requested? || s.windows.pc.Requested? ==> s.Of(Peer(winner)).request || s.Of(Peer(winner)).stopped)
  {
    RunKeepsInv(startedAt, leftover, moves, states, i);
  }

  /** When both have finished their settle phase, the loser has been asked to stop. */
  lemma SettledMeansAsked(
      startedAt: Host -> Option<int>, leftover: Host -> Option<ServerState>, moves: seq<Move>, states: seq<State>, i: nat)
    requires Harmless(startedAt, leftover) && IsRun(startedAt, leftover, moves, states) && i < |states|
    requires forall h: Host :: states[i].Of(h).pc.Requested? || states[i].Of(h).pc.Unopposed?
    ensures var loser := states[i].Of(Peer(Winner(startedAt))); loser.request || loser.stopped
  {
    RunKeepsInv(startedAt, leftover, moves, states, i);
    assert states[i].Of(Wsl).pc.Requested? || states[i].Of(Wsl).pc.Unopposed?;
    assert states[i].Of(Windows).pc.Requested? || states[i].Of(Windows).pc.Unopposed?;
  }

  // ---------------------------------------------------------------- left-over state files

  /** Some run puts a shutdown request into the winner's home. */
  ghost predicate CanAskWinner(startedAt: Host -> Option<int>, leftover: Host -> Option<ServerState>) {
    exists moves: seq<Move>, states: seq<State>, i: nat ::
      IsRun(startedAt, leftover, moves, states) && i < |states| && states[i].Of(Winner(startedAt)).request
  }

  /** A host that reads a harmful file at once acts on it against the winner. */
  lemma HarmfulFileAsksWinner(startedAt: Host -> Option<int>, leftover: Host -> Option<ServerState>, h: Host)
      returns (moves: seq<Move>, states: seq<State>)
    requires !HarmlessTo(startedAt, leftover, h)
    ensures IsRun(startedAt, leftover, moves, states) && |states| == 4 && states[3].Of(Winner(startedAt)).request
  {
    var t := startedAt(h).value;
    var d := SettleDecision(h == Wsl, t, leftover(Peer(h)).value.startedAt);
    var s0 := Homes(leftover);
    var s1 := s0.With(h, s0.Of(h).(pc := Polling, file := Some(ServerState(startedAt(h)))));
    var s2 := s1.With(h, s1.Of(h).(pc := Deciding(d)));
    var asked := if d == Win then Peer(h) else h;
    var s := s2.With(h, s2.Of(h).(pc := Requested(d)));
    var s3 := s.With(asked, s.Of(asked).(request := true));
    assert Next(startedAt, h, Publish, s0, s1) && Next(startedAt, h, Read, s1, s2) && Next(startedAt, h, Ask, s2, s3);
    moves, states := [Move(h, Publish), Move(h, Read), Move(h, Ask)], [s0, s1, s2, s3];
  }

  /** A request can land in the winner's home exactly if some left-over file would make its reader decide
      otherwise than the real peer's file does. */
  lemma WinnerIsSafeExactlyWithHarmlessFiles(startedAt: Host -> Option<int>, leftover: Host -> Option<ServerState>)
    ensures !CanAskWinner(startedAt, leftover) <==> Harmless(startedAt, leftover)
  {
    if Harmless(startedAt, leftover) {
      forall moves: seq<Move>, states: seq<State>, i: nat | IsRun(startedAt, leftover, moves, states) && i < |states|
        ensures !states[i].Of(Winner(startedAt)).request
      {
        RunKeepsInv(startedAt, leftover, moves, states, i);
      }
    } else {
      var h := if HarmlessTo(startedAt, leftover, Wsl) then Windows else Wsl;
      var moves, states := HarmfulFileAsksWinner(startedAt, leftover, h);
      assert states[3].Of(Winner(startedAt)).request;
    }
  }

  /** Which files are harmful: with both start times known, one that the winner would lose to, or one that the
      loser would win against. An old file is harmful to the loser, in particular. */
  lemma HarmfulFiles(startedAt: Host -> Option<int>, leftover: Host -> Option<ServerState>, h: Host)
    requires startedAt(h).Some? && startedAt(Peer(h)).Some? && startedAt(h) != startedAt(Peer(h))
    requires leftover(Peer(h)).Some?
    ensures
      var file, own, peer := leftover(Peer(h)).value.startedAt, startedAt(h).value, startedAt(Peer(h)).value;
      HarmlessTo(startedAt, leftover, h) <==>
        if own > peer then (if file.Some? && file.value != own then file.value < own else h == Wsl)
        else (if file.Some? && file.value != own then file.value > own else h == Windows)
  {
  }

  /** The file that a Windows server of an earlier day left behind stops both: the WSL server, started first,
      wins against it and asks Windows to stop, and Windows, started last, wins against WSL. */
  lemma OldFileStopsBoth(startedAt: Host -> Option<int>, leftover: Host -> Option<ServerState>, before: int, w: int, x: int)
      returns (moves: seq<Move>, states: seq<State>)
    requires startedAt(Wsl) == Some(w) && startedAt(Windows) == Some(x) && before < w < x
    requires leftover(Wsl) == None && leftover(Windows) == Some(ServerState(Some(before)))
    ensures IsRun(startedAt, leftover, moves, states)
    ensures states[|states| - 1].wsl.request && states[|states| - 1].windows.request
  {
    var s0 := Homes(leftover);
    var s1 := s0.(wsl := s0.wsl.(pc := Polling, file := Some(ServerState(Some(w)))));
    assert Next(startedAt, Wsl, Publish, s0, s1);
    var s2 := s1.(wsl := s1.wsl.(pc := Deciding(Win)));
    assert Next(startedAt, Wsl, Read, s1, s2);
    var s3 := s2.(wsl := s2.wsl.(pc := Requested(Win)), windows := s2.windows.(request := true));
    assert Next(startedAt, Wsl, Ask, s2, s3);
    var s4 := s3.(windows := s3.windows.(pc := Polling, file := Some(ServerState(Some(x)))));
    assert Next(startedAt, Windows, Publish, s3, s4);
    var s5 := s4.(windows := s4.windows.(pc := Deciding(Win)));
    assert Next(startedAt, Windows, Read, s4, s5);
    var s6 := s5.(windows := s5.windows.(pc := Requested(Win)), wsl := s5.wsl.(request := true));
    assert Next(startedAt, Windows, Ask, s5, s6);
    moves := [Move(Wsl, Publish), Move(Wsl, Read), Move(Wsl, Ask), Move(Windows, Publish), Move(Windows, Read), Move(Windows, Ask)];
    states := [s0, s1, s2, s3, s4, s5, s6];
  }
}
