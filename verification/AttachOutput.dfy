/** The attach client's screen: a gate that holds back PTY output while another surface controls the session. */
module AttachOutput {
  import opened Base
  import opened Frames

  type Id = string

  /** What a frame from the daemon means here. A payload that does not parse is none. */
  datatype Event =
    | Output(bytes: Bytes)
    | Replay(bytes: Bytes)
    | Exit(code: Option<int>)
    | Control(controller: Option<Id>)
    | Ignored

  /** Pieces written to the terminal. */
  datatype Piece = Pty(bytes: Bytes) | Notice | Clear

  datatype Gate = Gate(me: Id, displaced: bool, justRestored: bool)

  datatype Screen = Screen(gate: Gate, out: seq<Piece>, exitCode: int)

  /** consume_frame: the new state, and whether a fresh replay is to be requested. */
  function Consumed(s: Screen, e: Event): (Screen, bool) {
    match e
    case Output(bytes) => (if s.gate.displaced then s else s.(out := s.out + [Pty(bytes)]), false)
    case Replay(bytes) => (if s.gate.displaced then s else s.(out := s.out + [Pty(bytes)]), false)
    case Exit(code) => (if code.Some? then s.(exitCode := code.value) else s, false)
    case Ignored => (s, false)
    case Control(controller) =>
      if controller.None? then (s, false)
      else if controller.value != s.gate.me then (s.(gate := s.gate.(displaced := true), out := s.out + [Notice]), false)
      else if s.gate.displaced || s.gate.justRestored then
        (s.(gate := s.gate.(displaced := false, justRestored := false), out := s.out + [Clear]), true)
      else (s, false)
  }

  class LocalTerminalOutputGate {
    const myViewerId: Id
    var displaced: bool
    var justRestored: bool

    ghost function State(): Gate
      reads this
    {
      Gate(myViewerId, displaced, justRestored)
    }

    constructor (myViewerId: Id)
      ensures State() == Gate(myViewerId, false, false)
    {
      this.myViewerId, displaced, justRestored := myViewerId, false, false;
    }

    method SetDisplaced(d: bool)
      modifies this
      ensures State() == Gate(myViewerId, d, old(justRestored) || (old(displaced) && !d))
    {
      if displaced && !d { justRestored := true; }
      displaced := d;
    }

    method ApplyControl(controllerId: Id)
      modifies this
      ensures State() == Gate(myViewerId, controllerId != myViewerId,
                              old(justRestored) || (old(displaced) && controllerId == myViewerId))
    {
      SetDisplaced(controllerId != myViewerId);
    }

    method TakeJustRestored() returns (edge: bool)
      modifies this
      ensures edge == old(justRestored) && State() == old(State()).(justRestored := false)
    {
      edge, justRestored := justRestored, false;
    }

    method WritePtyOutput(payload: Bytes) returns (bytes: Option<Bytes>)
      ensures bytes == if displaced then None else Some(payload)
    {
      bytes := if displaced then None else Some(payload);
    }
  }

  class Terminal {
    const gate: LocalTerminalOutputGate
    var out: seq<Piece>
    var exitCode: int

    ghost function State(): Screen
      reads this, gate
    {
      Screen(gate.State(), out, exitCode)
    }

    constructor (myViewerId: Id)
      ensures State() == Screen(Gate(myViewerId, false, false), [], 0) && fresh(gate)
    {
      gate := new LocalTerminalOutputGate(myViewerId);
      out, exitCode := [], 0;
    }

    method ConsumeFrame(e: Event) returns (requestReplay: bool)
      modifies this, gate
      ensures (State(), requestReplay) == Consumed(old(State()), e)
    {
      requestReplay := false;
      match e {
        case Output(payload) =>
          var bytes := gate.WritePtyOutput(payload);
          if bytes.Some? { out := out + [Pty(bytes.value)]; }
        case Replay(payload) =>
          var bytes := gate.WritePtyOutput(payload);
          if bytes.Some? { out := out + [Pty(bytes.value)]; }
        case Exit(code) =>
          if code.Some? { exitCode := code.value; }
        case Control(controller) =>
          if controller.Some? {
            gate.ApplyControl(controller.value);
            if gate.displaced {
              out := out + [Notice];
            } else {
              var restored := gate.TakeJustRestored();
              if restored {
                out := out + [Clear];
                return true;
              }
            }
          }
        case Ignored =>
      }
    }
  }

  // ---------------------------------------------------------------- whole runs

  function Run(s: Screen, events: seq<Event>): Screen
    decreases |events|
  {
    if events == [] then s else Run(Consumed(s, events[0]).0, events[1..])
  }

  /** The controller that the daemon named last, as far as this client could read it. */
  function LastController(me: Id, events: seq<Event>): Id {
    if events == [] then me
    else
      var e := events[|events| - 1];
      if e.Control? && e.controller.Some? then e.controller.value else LastController(me, events[..|events| - 1])
  }

  /** The PTY bytes of the events that arrive while this client controls. */
  function Shown(me: Id, events: seq<Event>): Bytes {
    if events == [] then []
    else
      var before, e := events[..|events| - 1], events[|events| - 1];
      Shown(me, before) + if (e.Output? || e.Replay?) && LastController(me, before) == me then e.bytes else []
  }

  function PtyBytes(out: seq<Piece>): Bytes {
    if out == [] then []
    else PtyBytes(out[..|out| - 1]) + if out[|out| - 1].Pty? then out[|out| - 1].bytes else []
  }

  /** Everything written to the terminal: PTY bytes while this client controls, a notice for each frame that names
      another controller, and a clearing when control comes back. */
  function Written(me: Id, events: seq<Event>): seq<Piece> {
    if events == [] then []
    else
      var before, e := events[..|events| - 1], events[|events| - 1];
      Written(me, before) +
      if (e.Output? || e.Replay?) && LastController(me, before) == me then [Pty(e.bytes)]
      else if e.Control? && e.controller.Some? && e.controller.value != me then [Notice]
      else if e == Control(Some(me)) && LastController(me, before) != me then [Clear]
      else []
  }

  /** The code of the last exit frame that could be read; 0 without one. */
  function LastExit(events: seq<Event>): int {
    if events == [] then 0
    else
      var e := events[|events| - 1];
      if e.Exit? && e.code.Some? then e.code.value else LastExit(events[..|events| - 1])
  }

  lemma {:induction false} RunSnoc(s: Screen, events: seq<Event>)
    requires events != []
    ensures Run(s, events) == Consumed(Run(s, events[..|events| - 1]), events[|events| - 1]).0
    decreases |events|
  {
    if |events| > 1 {
      assert events[..|events| - 1][1..] == events[1..][..|events| - 2];
      RunSnoc(Consumed(s, events[0]).0, events[1..]);
    }
  }

  /** What one event does to the gate, while no edge is left over. */
  lemma ConsumedGate(s: Screen, e: Event)
    requires !s.gate.justRestored
    ensures
      var (t, replay) := Consumed(s, e);
      && t.gate == s.gate.(displaced := if e.Control? && e.controller.Some? then e.controller.value != s.gate.me else s.gate.displaced)
      && (replay <==> e == Control(Some(s.gate.me)) && s.gate.displaced)
  {
  }

  /** From a fresh start: the client is displaced exactly when the last controller named is another one; the
      PTY bytes on the terminal are those that arrived while it controlled; everything else written is the notices
      and clearings; the exit code is that of the last readable exit frame; and a fresh replay is requested exactly
      when a control frame gives control back. */
  lemma {:induction false} ShowsOnlyWhileControlling(me: Id, events: seq<Event>)
    ensures
      var s := Run(Screen(Gate(me, false, false), [], 0), events);
      && s.gate == Gate(me, LastController(me, events) != me, false)
      && PtyBytes(s.out) == Shown(me, events) && s.out == Written(me, events) && s.exitCode == LastExit(events)
      && forall e: Event :: Consumed(s, e).1 <==> e == Control(Some(me)) && LastController(me, events) != me
    decreases |events|
  {
    var start := Screen(Gate(me, false, false), [], 0);
    if events != [] {
      var before, e := events[..|events| - 1], events[|events| - 1];
      ShowsOnlyWhileControlling(me, before);
      RunSnoc(start, events);
      ConsumedGate(Run(start, before), e);
      ConsumedOut(Run(start, before), e);
      ConsumedPieces(Run(start, before), e);
    }
    var s := Run(start, events);
    forall e: Event ensures Consumed(s, e).1 <==> e == Control(Some(me)) && LastController(me, events) != me {
      ConsumedGate(s, e);
    }
  }

  /** What one event writes, and what it does to the exit code. */
  lemma ConsumedPieces(s: Screen, e: Event)
    requires !s.gate.justRestored
    ensures
      var t := Consumed(s, e).0;
      && t.out == s.out + (if (e.Output? || e.Replay?) && !s.gate.displaced then [Pty(e.bytes)]
                           else if e.Control? && e.controller.Some? && e.controller.value != s.gate.me then [Notice]
                           else if e == Control(Some(s.gate.me)) && s.gate.displaced then [Clear]
                           else [])
      && t.exitCode == if e.Exit? && e.code.Some? then e.code.value else s.exitCode
  {
    assert s.out + [] == s.out;
  }

  /** What one event adds to the PTY bytes on the terminal. */
  lemma ConsumedOut(s: Screen, e: Event)
    ensures PtyBytes(Consumed(s, e).0.out) ==
              PtyBytes(s.out) + if (e.Output? || e.Replay?) && !s.gate.displaced then e.bytes else []
  {
    var t := Consumed(s, e).0;
    assert t.out == s.out || t.out[..|t.out| - 1] == s.out;
    assert PtyBytes(s.out) + [] == PtyBytes(s.out);
  }
}
