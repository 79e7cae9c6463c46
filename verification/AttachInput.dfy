/** The attach client's keyboard: a two-byte detach chord inside a forwarded byte stream. */
module AttachInput {
  import opened Base

  const DETACH_KEY: Byte := 0x64
  const TAKE_CONTROL_KEY: Byte := 0x20

  datatype Action = NoAction | Detach | TakeControl

  /** A byte with whether the terminal was displaced when it was read. */
  datatype Key = Key(byte: Byte, displaced: bool)

  /** What is forwarded, the action if any, whether a prefix is pending, and the keys after the action. */
  datatype Outcome = Outcome(forward: Bytes, action: Action, armed: bool, dropped: seq<Key>)

  function Ahead(forward: Bytes, o: Outcome): Outcome { o.(forward := forward + o.forward) }

  /** The keys of one stream. */
  function Process(prefix: Byte, armed: bool, input: seq<Key>): Outcome
    decreases |input|
  {
    if input == [] then Outcome([], NoAction, armed, [])
    else
      var Key(byte, displaced) := input[0];
      var rest := input[1..];
      if armed then
        if byte == DETACH_KEY then Outcome([], Detach, false, rest)
        else Ahead(if displaced then [] else [prefix, byte], Process(prefix, false, rest))
      else if byte == prefix then Process(prefix, true, rest)
      else if displaced then
        if byte == TAKE_CONTROL_KEY then Outcome([], TakeControl, false, rest) else Process(prefix, false, rest)
      else Ahead([byte], Process(prefix, false, rest))
  }

  lemma AheadTwice(a: Bytes, b: Bytes, o: Outcome)
    ensures Ahead(a, Ahead(b, o)) == Ahead(a + b, o)
  {
    Assoc(a, b, o.forward);
  }

  lemma AheadNothing(o: Outcome)
    ensures Ahead([], o) == o
  {
    assert [] + o.forward == o.forward;
  }

  /** What one read returned, with the gate's answer at that moment. */
  datatype Chunk = Chunk(bytes: Bytes, displaced: bool)

  function Keys(c: Chunk): seq<Key> {
    seq(|c.bytes|, i requires 0 <= i < |c.bytes| => Key(c.bytes[i], c.displaced))
  }

  function AllKeys(chunks: seq<Chunk>): seq<Key> {
    if chunks == [] then [] else Keys(chunks[0]) + AllKeys(chunks[1..])
  }

  class InputProcessor {
    const prefix: Byte
    var armed: bool

    constructor (prefix: Byte)
      ensures this.prefix == prefix && !armed
    {
      this.prefix, armed := prefix, false;
    }

    method ProcessChunk(chunk: Bytes, displaced: bool) returns (forward: Bytes, action: Action)
      modifies this`armed
      ensures var o := Process(prefix, old(armed), Keys(Chunk(chunk, displaced)));
              forward == o.forward && action == o.action && armed == o.armed
    {
      ghost var keys := Keys(Chunk(chunk, displaced));
      forward := [];
      assert keys[0..] == keys;
      AheadNothing(Process(prefix, armed, keys));
      for i := 0 to |chunk|
        invariant Process(prefix, old(armed), keys) == Ahead(forward, Process(prefix, armed, keys[i..]))
      {
        var byte := chunk[i];
        ghost var o := Process(prefix, false, keys[i + 1..]);
        assert keys[i..][0] == Key(byte, displaced) && keys[i..][1..] == keys[i + 1..];
        AheadNothing(o);
        AheadTwice(forward, if displaced then [] else [prefix, byte], o);
        AheadTwice(forward, [byte], o);
        assert forward + [] == forward;
        if armed {
          armed := false;
          if byte == DETACH_KEY { return forward, Detach; }
          if !displaced {
            forward := forward + [prefix, byte];
          }
        } else if byte == prefix {
          armed := true;
        } else if displaced {
          if byte == TAKE_CONTROL_KEY { return forward, TakeControl; }
        } else {
          forward := forward + [byte];
        }
      }
      action := NoAction;
      assert forward + [] == forward;
    }
  }

  // ---------------------------------------------------------------- the reads of one attached session

  /** All that the session forwards, how often it asks for control, and whether it ended by detaching. */
  datatype Session = Session(forward: Bytes, requests: nat, detached: bool)

  function Then(forward: Bytes, requests: nat, later: Session): Session {
    Session(forward + later.forward, requests + later.requests, later.detached)
  }

  /** After a request for control the client goes on with the next read; after a detach it stops. */
  function Attached(prefix: Byte, armed: bool, chunks: seq<Chunk>): Session
    decreases |chunks|
  {
    if chunks == [] then Session([], 0, false)
    else
      var o := Process(prefix, armed, Keys(chunks[0]));
      if o.action == Detach then Session(o.forward, 0, true)
      else Then(o.forward, if o.action == TakeControl then 1 else 0, Attached(prefix, o.armed, chunks[1..]))
  }

  /** The client's input loop over the reads that the terminal gives it. */
  method Attach(prefix: Byte, chunks: seq<Chunk>) returns (s: Session)
    ensures s == Attached(prefix, false, chunks)
  {
    var input := new InputProcessor(prefix);
    s := Session([], 0, false);
    assert chunks[0..] == chunks;
    for i := 0 to |chunks|
      invariant input.prefix == prefix && !s.detached
      invariant Attached(prefix, false, chunks) == Then(s.forward, s.requests, Attached(prefix, input.armed, chunks[i..]))
    {
      ghost var was := input.armed;
      var forward, action := input.ProcessChunk(chunks[i].bytes, chunks[i].displaced);
      assert chunks[i..][0] == chunks[i] == Chunk(chunks[i].bytes, chunks[i].displaced) && chunks[i..][1..] == chunks[i + 1..];
      Assoc(s.forward, forward, Attached(prefix, input.armed, chunks[i + 1..]).forward);
      match action {
        case TakeControl => s := Session(s.forward + forward, s.requests + 1, false);
        case Detach => return Session(s.forward + forward, s.requests, true);
        case NoAction => s := s.(forward := s.forward + forward);
      }
    }
    assert s.forward + [] == s.forward;
  }

  lemma {:induction false} ProcessAppend(prefix: Byte, armed: bool, a: seq<Key>, b: seq<Key>)
    ensures
      var o := Process(prefix, armed, a);
      Process(prefix, armed, a + b) ==
        if o.action != NoAction then o.(dropped := o.dropped + b) else Ahead(o.forward, Process(prefix, o.armed, b))
    decreases |a|
  {
    if a == [] {
      assert a + b == b;
      AheadNothing(Process(prefix, armed, b));
    } else {
      assert (a + b)[1..] == a[1..] + b;
      ProcessAppend(prefix, false, a[1..], b);
      ProcessAppend(prefix, true, a[1..], b);
      var o := Process(prefix, false, a[1..]);
      AheadTwice(if a[0].displaced then [] else [prefix, a[0].byte], o.forward, Process(prefix, o.armed, b));
      AheadTwice([a[0].byte], o.forward, Process(prefix, o.armed, b));
    }
  }

  /** As long as no control is asked for, the session does what the whole stream says, wherever it was cut and
      whenever control came and went. */
  lemma {:induction false} ChunksDoNotMatter(prefix: Byte, armed: bool, chunks: seq<Chunk>)
    ensures
      var o := Process(prefix, armed, AllKeys(chunks));
      o.action != TakeControl ==> Attached(prefix, armed, chunks) == Session(o.forward, 0, o.action == Detach)
    decreases |chunks|
  {
    if chunks != [] {
      var o := Process(prefix, armed, Keys(chunks[0]));
      ProcessAppend(prefix, armed, Keys(chunks[0]), AllKeys(chunks[1..]));
      ChunksDoNotMatter(prefix, o.armed, chunks[1..]);
    }
  }

  /** A request for control drops the rest of its read, so there the cut matters: a chord read together with
      the request is lost, and one read after it detaches. */
  lemma RequestDropsItsRead(prefix: Byte)
    requires prefix != TAKE_CONTROL_KEY
    ensures
      var chord := [prefix, DETACH_KEY];
      && Attached(prefix, false, [Chunk([TAKE_CONTROL_KEY] + chord, true)]) == Session([], 1, false)
      && Attached(prefix, false, [Chunk([TAKE_CONTROL_KEY], true), Chunk(chord, true)]) == Session([], 1, true)
  {
    var one := Chunk([TAKE_CONTROL_KEY] + [prefix, DETACH_KEY], true);
    var two := [Chunk([TAKE_CONTROL_KEY], true), Chunk([prefix, DETACH_KEY], true)];
    assert Process(prefix, false, Keys(one)).action == TakeControl;
    assert Attached(prefix, false, [one]) == Then([], 1, Attached(prefix, false, []));
    assert Keys(two[1]) == [Key(prefix, true), Key(DETACH_KEY, true)];
    assert Keys(two[1])[1..] == [Key(DETACH_KEY, true)];
    assert Process(prefix, true, [Key(DETACH_KEY, true)]).action == Detach;
    assert two[1..] == [two[1]];
    assert Attached(prefix, false, two[1..]) == Session([], 0, true);
  }

  // ---------------------------------------------------------------- the exact meaning of a stream

  /** Position i holds a prefix that starts a pair: the prefixes pair up greedily, each with the key after it. */
  predicate Opens(prefix: Byte, input: seq<Key>, i: nat)
    requires i < |input|
    decreases i, 1
  {
    input[i].byte == prefix && !Closes(prefix, input, i)
  }

  /** Position i is the second of a pair. */
  predicate Closes(prefix: Byte, input: seq<Key>, i: nat)
    requires i <= |input|
    decreases i, 0
  {
    i > 0 && Opens(prefix, input, i - 1)
  }

  /** Position i ends the stream: the `d` of a chord, or a Space outside a pair while displaced. */
  predicate Stops(prefix: Byte, input: seq<Key>, i: nat)
    requires i < |input|
  {
    if Closes(prefix, input, i) then input[i].byte == 0x64
    else input[i].byte != prefix && input[i].displaced && input[i].byte == 0x20
  }

  /** Position i is forwarded. A prefix that starts a pair shares the fate of the key after it, whatever the
      state was when the prefix itself was typed. */
  predicate Forwarded(prefix: Byte, input: seq<Key>, i: nat)
    requires i < |input|
  {
    if Opens(prefix, input, i) then i + 1 < |input| && input[i + 1].byte != 0x64 && !input[i + 1].displaced
    else !input[i].displaced
  }

  /** The forwarded bytes among the positions from i up to n. */
  function ForwardedFrom(prefix: Byte, input: seq<Key>, i: nat, n: nat): Bytes
    requires i <= n <= |input|
    decreases n - i
  {
    if i == n then []
    else (if Forwarded(prefix, input, i) then [input[i].byte] else []) + ForwardedFrom(prefix, input, i + 1, n)
  }

  predicate Quiet(prefix: Byte, input: seq<Key>, n: nat)
    requires n <= |input|
  {
    forall i :: 0 <= i < n ==> !Stops(prefix, input, i)
  }

  predicate FirstStop(prefix: Byte, input: seq<Key>, n: nat) {
    n < |input| && Stops(prefix, input, n) && Quiet(prefix, input, n)
  }

  lemma {:induction false} FindStop(prefix: Byte, input: seq<Key>, n: nat) returns (k: nat)
    requires n <= |input| && !Quiet(prefix, input, n)
    ensures FirstStop(prefix, input, k)
  {
    k := n - 1;
    if !Quiet(prefix, input, k) { k := FindStop(prefix, input, k); }
  }

  /** What the stream does when its first stop is at n, or when n is its length and it has none. */
  function Meaning(prefix: Byte, input: seq<Key>, i: nat, n: nat): Outcome
    requires i <= n <= |input|
  {
    var forward := ForwardedFrom(prefix, input, i, n);
    if n == |input| then Outcome(forward, NoAction, Closes(prefix, input, n), [])
    else Outcome(forward, if Closes(prefix, input, n) then Detach else TakeControl, false, input[n + 1..])
  }

  /** The stream is read up to n: its first stop, or its end. */
  predicate ReadsUpTo(prefix: Byte, input: seq<Key>, n: nat) {
    n <= |input| && Quiet(prefix, input, n) && (n < |input| ==> Stops(prefix, input, n))
  }

  /** Position i, the last before n, is the prefix still pending there or the one of the chord. */
  predicate HeldBack(prefix: Byte, input: seq<Key>, i: nat, n: nat)
    requires i < n <= |input|
  {
    i == n - 1 && Opens(prefix, input, i)
  }

  lemma PairIsRead(prefix: Byte, input: seq<Key>, i: nat, n: nat)
    requires ReadsUpTo(prefix, input, n) && i < n && Opens(prefix, input, i)
    ensures Forwarded(prefix, input, i) <==> !HeldBack(prefix, input, i, n) && !input[i + 1].displaced
  {
    if i + 1 < n {
      assert !Stops(prefix, input, i + 1) && Closes(prefix, input, i + 1);
    } else if n < |input| {
      assert Stops(prefix, input, n) && Closes(prefix, input, n);
    }
  }

  lemma PairMeans(prefix: Byte, input: seq<Key>, i: nat, n: nat)
    requires i < n && ReadsUpTo(prefix, input, n) && Opens(prefix, input, i)
    requires i + 2 <= n ==> Process(prefix, false, input[i + 2..]) == Meaning(prefix, input, i + 2, n)
    ensures Process(prefix, false, input[i..]) == Meaning(prefix, input, i, n)
  {
    assert input[i..][0] == input[i] && input[i..][1..] == input[i + 1..];
    PairIsRead(prefix, input, i, n);
    if i + 1 < |input| {
      assert input[i + 1..][0] == input[i + 1] && input[i + 1..][1..] == input[i + 2..];
      assert Closes(prefix, input, i + 1) && !Opens(prefix, input, i + 1);
    }
    if i + 2 <= n {
      var later := ForwardedFrom(prefix, input, i + 2, n);
      assert [] + ([] + later) == later && [prefix] + ([input[i + 1].byte] + later) == [prefix, input[i + 1].byte] + later;
      assert !Stops(prefix, input, i + 1);
      AheadNothing(Process(prefix, false, input[i + 2..]));
    } else {
      assert ForwardedFrom(prefix, input, i + 1, n) == [];
      assert ForwardedFrom(prefix, input, i, n) == [];
    }
  }

  lemma {:induction false} MeansFrom(prefix: Byte, input: seq<Key>, i: nat, n: nat)
    requires i <= n && ReadsUpTo(prefix, input, n) && !Closes(prefix, input, i)
    ensures Process(prefix, false, input[i..]) == Meaning(prefix, input, i, n)
    decreases n - i
  {
    if i < |input| { assert input[i..][0] == input[i] && input[i..][1..] == input[i + 1..]; }
    if i < n {
      if Opens(prefix, input, i) {
        if i + 2 <= n {
          assert Closes(prefix, input, i + 1) && !Opens(prefix, input, i + 1);
          MeansFrom(prefix, input, i + 2, n);
        }
        PairMeans(prefix, input, i, n);
      } else {
        assert !Stops(prefix, input, i);
        var later := ForwardedFrom(prefix, input, i + 1, n);
        assert [] + later == later;
        MeansFrom(prefix, input, i + 1, n);
      }
    }
  }

  /** A pending prefix counts as the first key of what follows, whenever it was typed. */
  lemma ArmedIsPrefixSeen(prefix: Byte, input: seq<Key>, displaced: bool)
    ensures Process(prefix, true, input) == Process(prefix, false, [Key(prefix, displaced)] + input)
  {
    assert ([Key(prefix, displaced)] + input)[1..] == input;
  }

  /** A pending prefix stands in front of the stream. */
  function Seen(prefix: Byte, armed: bool, input: seq<Key>): seq<Key> {
    if armed then [Key(prefix, false)] + input else input
  }

  /** A stream does exactly what its first stop says: the forwarded positions before it are sent in order, the
      chord detaches and the Space asks for control, and what comes after is not looked at. Without a stop every
      forwarded position is sent, and a prefix without a partner stays pending. */
  lemma ProcessMeans(prefix: Byte, armed: bool, input: seq<Key>)
    ensures
      var seen, o := Seen(prefix, armed, input), Process(prefix, armed, input);
      && (Quiet(prefix, seen, |seen|) || exists n :: FirstStop(prefix, seen, n))
      && (Quiet(prefix, seen, |seen|) ==> o == Meaning(prefix, seen, 0, |seen|))
      && forall n :: FirstStop(prefix, seen, n) ==> o == Meaning(prefix, seen, 0, n)
  {
    var seen, o := Seen(prefix, armed, input), Process(prefix, armed, input);
    ArmedIsPrefixSeen(prefix, input, false);
    assert o == Process(prefix, false, seen) && seen[0..] == seen;
    if Quiet(prefix, seen, |seen|) {
      MeansFrom(prefix, seen, 0, |seen|);
    } else {
      var k := FindStop(prefix, seen, |seen|);
    }
    forall n | FirstStop(prefix, seen, n) ensures o == Meaning(prefix, seen, 0, n) {
      MeansFrom(prefix, seen, 0, n);
    }
  }

  // ---------------------------------------------------------------- what is typed while displaced

  /** A key typed while displaced is forwarded exactly if it is a prefix that starts a pair, and the next key
      is read with control and does not make the chord. A key typed with control is lost exactly if it starts
      a pair whose second key is read while displaced. So what is sent is what was typed with control exactly
      if no pair is read across a change of control. */
  lemma ControlDecidesExactlyIf(prefix: Byte, input: seq<Key>, n: nat)
    requires ReadsUpTo(prefix, input, n)
    ensures forall i | 0 <= i < n && !HeldBack(prefix, input, i, n) ::
      (Forwarded(prefix, input, i) != !input[i].displaced <==>
       Opens(prefix, input, i) && i + 1 < n && input[i].displaced != input[i + 1].displaced)
    ensures forall i | 0 <= i < n && HeldBack(prefix, input, i, n) :: !Forwarded(prefix, input, i)
  {
    forall i | 0 <= i < n && Opens(prefix, input, i)
      ensures Forwarded(prefix, input, i) <==> !HeldBack(prefix, input, i, n) && !input[i + 1].displaced
    {
      PairIsRead(prefix, input, i, n);
    }
  }

  /** A prefix typed while displaced reaches the PTY when the next key is typed with control; one typed with
      control does not when the next key is typed while displaced. */
  lemma PairAcrossChangeOfControl(prefix: Byte, x: Byte)
    requires x != DETACH_KEY
    ensures Attached(prefix, false, [Chunk([prefix], true), Chunk([x], false)]) == Session([prefix, x], 0, false)
    ensures Attached(prefix, false, [Chunk([prefix], false), Chunk([x], true)]) == Session([], 0, false)
  {
    PairOf(prefix, x, true);
    PairOf(prefix, x, false);
  }

  lemma PairOf(prefix: Byte, x: Byte, displaced: bool)
    requires x != DETACH_KEY
    ensures Attached(prefix, false, [Chunk([prefix], displaced), Chunk([x], !displaced)]) ==
              Session(if displaced then [prefix, x] else [], 0, false)
  {
    var chunks := [Chunk([prefix], displaced), Chunk([x], !displaced)];
    var input := [Key(prefix, displaced), Key(x, !displaced)];
    assert Keys(chunks[0]) == [input[0]] && Keys(chunks[1]) == [input[1]] && chunks[1..] == [chunks[1]];
    assert AllKeys([chunks[1]]) == [input[1]] + AllKeys([]);
    assert AllKeys(chunks) == input;
    assert input[1..] == [input[1]] && [input[1]][1..] == [];
    assert Process(prefix, false, []) == Outcome([], NoAction, false, []);
    assert Process(prefix, true, [input[1]]) == Outcome(if displaced then [prefix, x] else [], NoAction, false, []);
    assert Process(prefix, false, input).forward == if displaced then [prefix, x] else [];
    ChunksDoNotMatter(prefix, false, chunks);
  }

  /** While displaced nothing is forwarded, even when a prefix was pending before. */
  lemma {:induction false} DisplacedForwardsNothing(prefix: Byte, armed: bool, input: seq<Key>)
    requires forall k <- input :: k.displaced
    ensures Process(prefix, armed, input).forward == []
    decreases |input|
  {
    if input != [] {
      DisplacedForwardsNothing(prefix, false, input[1..]);
      DisplacedForwardsNothing(prefix, true, input[1..]);
    }
  }

  // ---------------------------------------------------------------- conservation

  function Raw(input: seq<Key>): Bytes {
    seq(|input|, i requires 0 <= i < |input| => input[i].byte)
  }

  /** The bytes of the chord or of the pending prefix, and those that were not looked at. */
  function Withheld(prefix: Byte, o: Outcome): Bytes {
    (if o.action == Detach then [prefix, DETACH_KEY] else if o.armed then [prefix] else []) + Raw(o.dropped)
  }

  lemma RawCons(input: seq<Key>, i: nat, n: nat)
    requires i <= n <= |input|
    ensures Raw(input[i..n]) == if i == n then [] else [input[i].byte] + Raw(input[i + 1..n])
  {
  }

  lemma {:induction false} ForwardedIsAll(prefix: Byte, input: seq<Key>, i: nat, n: nat)
    requires i <= n <= |input|
    ensures |ForwardedFrom(prefix, input, i, n)| <= n - i
    ensures |ForwardedFrom(prefix, input, i, n)| == n - i <==> forall k :: i <= k < n ==> Forwarded(prefix, input, k)
    ensures |ForwardedFrom(prefix, input, i, n)| == n - i ==> ForwardedFrom(prefix, input, i, n) == Raw(input[i..n])
    decreases n - i
  {
    hide Forwarded, Raw;
    RawCons(input, i, n);
    if i < n {
      ForwardedIsAll(prefix, input, i + 1, n);
      var later := ForwardedFrom(prefix, input, i + 1, n);
      assert ForwardedFrom(prefix, input, i, n) == (if Forwarded(prefix, input, i) then [input[i].byte] else []) + later;
    }
  }

  lemma {:induction false} ForwardedSkipsLast(prefix: Byte, input: seq<Key>, i: nat, n: nat)
    requires i < n <= |input| && !Forwarded(prefix, input, n - 1)
    ensures ForwardedFrom(prefix, input, i, n) == ForwardedFrom(prefix, input, i, n - 1)
    decreases n - i
  {
    hide Forwarded;
    if i < n - 1 { ForwardedSkipsLast(prefix, input, i + 1, n); }
  }

  /** What is forwarded and what is withheld are the input, in order, exactly if the stream does not ask for
      control and no key but a prefix that starts a pair was read while displaced. So while the terminal
      controls nothing is lost, added or reordered. */
  lemma ConservedExactlyIf(prefix: Byte, input: seq<Key>, n: nat)
    requires ReadsUpTo(prefix, input, n)
    ensures
      var o := Process(prefix, false, input);
      o.forward + Withheld(prefix, o) == Raw(input) <==>
        o.action != TakeControl && forall i :: 0 <= i < n && input[i].displaced ==> Opens(prefix, input, i)
  {
    hide Process, ForwardedFrom, Forwarded, Withheld, Raw, Opens, Quiet, Stops;
    var o := Process(prefix, false, input);
    assert input[0..] == input;
    MeansFrom(prefix, input, 0, n);
    var m := if Closes(prefix, input, n) then n - 1 else n;
    ForwardedUpToHeld(prefix, input, m, n);
    ForwardedIsAll(prefix, input, 0, m);
    assert input[0..m] == input[..m];
    AllForwarded(prefix, input, m, n);
    RawSplits(input, m);
    if o.action != TakeControl { WithheldIsRest(prefix, input, m, n); } else { WithheldIsShorter(prefix, input, n); }
  }

  lemma ForwardedUpToHeld(prefix: Byte, input: seq<Key>, m: nat, n: nat)
    requires ReadsUpTo(prefix, input, n) && m == if Closes(prefix, input, n) then n - 1 else n
    ensures ForwardedFrom(prefix, input, 0, n) == ForwardedFrom(prefix, input, 0, m)
  {
    hide ForwardedFrom;
    if m < n {
      PairIsRead(prefix, input, m, n);
      ForwardedSkipsLast(prefix, input, 0, n);
    }
  }

  lemma RawSplits(input: seq<Key>, m: nat)
    requires m <= |input|
    ensures Raw(input) == Raw(input[..m]) + Raw(input[m..]) && |Raw(input)| == |input| && |Raw(input[..m])| == m
  {
  }

  lemma WithheldIsRest(prefix: Byte, input: seq<Key>, m: nat, n: nat)
    requires ReadsUpTo(prefix, input, n) && m == if Closes(prefix, input, n) then n - 1 else n
    requires Meaning(prefix, input, 0, n).action != TakeControl
    ensures Withheld(prefix, Meaning(prefix, input, 0, n)) == Raw(input[m..])
  {
    hide Forwarded, ForwardedFrom, Quiet;
    if n < |input| {
      assert Stops(prefix, input, n) && Closes(prefix, input, n);
      assert input[m..] == [input[m], input[n]] + input[n + 1..];
      assert Raw(input[m..]) == [prefix, DETACH_KEY] + Raw(input[n + 1..]);
    } else if m < n {
      assert input[m..] == [input[m]];
      assert Raw(input[m..]) == [prefix] + Raw([]);
    } else {
      assert input[m..] == [];
    }
  }

  /** The Space that asks for control is neither forwarded nor withheld. */
  lemma WithheldIsShorter(prefix: Byte, input: seq<Key>, n: nat)
    requires n < |input|
    requires Meaning(prefix, input, 0, n).action == TakeControl
    ensures |Withheld(prefix, Meaning(prefix, input, 0, n))| == |input| - n - 1
  {
  }

  lemma AllForwarded(prefix: Byte, input: seq<Key>, m: nat, n: nat)
    requires ReadsUpTo(prefix, input, n) && m == if Closes(prefix, input, n) then n - 1 else n
    ensures (forall i :: 0 <= i < m ==> Forwarded(prefix, input, i)) <==>
            forall i :: 0 <= i < n && input[i].displaced ==> Opens(prefix, input, i)
  {
    forall i | 0 <= i < m && Opens(prefix, input, i)
      ensures i + 1 < m && Closes(prefix, input, i + 1) && (Forwarded(prefix, input, i) <==> !input[i + 1].displaced)
    {
      PairIsRead(prefix, input, i, n);
      assert Closes(prefix, input, i + 1) && (i + 1 < n ==> !Opens(prefix, input, i + 1));
    }
    if forall i :: 0 <= i < m ==> Forwarded(prefix, input, i) {
      forall i | 0 <= i < n && input[i].displaced ensures Opens(prefix, input, i) {
        if i < m { assert Forwarded(prefix, input, i); }
      }
    }
    if forall i :: 0 <= i < n && input[i].displaced ==> Opens(prefix, input, i) {
      forall i | 0 <= i < m ensures Forwarded(prefix, input, i) {
        if Opens(prefix, input, i) { assert !Opens(prefix, input, i + 1); }
      }
    }
  }

  // ---------------------------------------------------------------- across requests for control

  /** The session that one key after the other gives: after a request the next key is looked at. */
  function Streamed(prefix: Byte, armed: bool, input: seq<Key>): Session
    decreases |input|
  {
    var o := Process(prefix, armed, input);
    if o.action == TakeControl then
      DropsSome(prefix, armed, input);
      Then(o.forward, 1, Streamed(prefix, false, o.dropped))
    else Session(o.forward, 0, o.action == Detach)
  }

  lemma {:induction false} DropsSome(prefix: Byte, armed: bool, input: seq<Key>)
    ensures
      var o := Process(prefix, armed, input);
      |o.dropped| <= |input| && o.dropped == input[|input| - |o.dropped|..]
      && (o.action != NoAction ==> |o.dropped| < |input| && !o.armed)
    decreases |input|
  {
    if input != [] {
      DropsSome(prefix, false, input[1..]);
      DropsSome(prefix, true, input[1..]);
    }
  }

  /** The read without what comes after its request for control. */
  function Trimmed(prefix: Byte, armed: bool, c: Chunk): Chunk {
    var o := Process(prefix, armed, Keys(c));
    DropsSome(prefix, armed, Keys(c));
    if o.action == TakeControl then c.(bytes := c.bytes[..|c.bytes| - |o.dropped|]) else c
  }

  function TrimmedAll(prefix: Byte, armed: bool, chunks: seq<Chunk>): seq<Chunk>
    decreases |chunks|
  {
    if chunks == [] then []
    else
      [Trimmed(prefix, armed, chunks[0])]
      + TrimmedAll(prefix, Process(prefix, armed, Keys(chunks[0])).armed, chunks[1..])
  }

  /** Without what comes after its stop, a stream does the same and drops nothing. */
  lemma TrimmedDoesSame(prefix: Byte, armed: bool, c: Chunk)
    ensures
      var o := Process(prefix, armed, Keys(c));
      Process(prefix, armed, Keys(Trimmed(prefix, armed, c))) == if o.action == TakeControl then o.(dropped := []) else o
  {
    var input, o := Keys(c), Process(prefix, armed, Keys(c));
    DropsSome(prefix, armed, input);
    if o.action == TakeControl {
      StopsSame(prefix, armed, input, |input| - |o.dropped|);
      assert Keys(Trimmed(prefix, armed, c)) == input[..|input| - |o.dropped|];
    }
  }

  lemma {:induction false} StopsSame(prefix: Byte, armed: bool, input: seq<Key>, n: nat)
    requires var o := Process(prefix, armed, input); o.action != NoAction && n + |o.dropped| == |input|
    ensures Process(prefix, armed, input[..n]) == Process(prefix, armed, input).(dropped := [])
    decreases |input|
  {
    DropsSome(prefix, armed, input);
    assert input[..n][1..] == input[1..][..n - 1];
    var byte, displaced := input[0].byte, input[0].displaced;
    if armed {
      if byte != DETACH_KEY {
        DropsSome(prefix, false, input[1..]);
        StopsSame(prefix, false, input[1..], n - 1);
      }
    } else if byte == prefix {
      DropsSome(prefix, true, input[1..]);
      StopsSame(prefix, true, input[1..], n - 1);
    } else if !(displaced && byte == TAKE_CONTROL_KEY) {
      DropsSome(prefix, false, input[1..]);
      StopsSame(prefix, false, input[1..], n - 1);
    }
  }

  /** A key stream in front of another, across requests for control. */
  lemma {:induction false} StreamedAppend(prefix: Byte, armed: bool, a: seq<Key>, b: seq<Key>)
    ensures
      var o := Process(prefix, armed, a);
      && (o.action == NoAction ==> Streamed(prefix, armed, a + b) == Then(o.forward, 0, Streamed(prefix, o.armed, b)))
      && (o.action == Detach ==> Streamed(prefix, armed, a + b) == Session(o.forward, 0, true))
      && (o.action == TakeControl ==>
            Streamed(prefix, armed, a + b) == Then(o.forward, 1, Streamed(prefix, false, o.dropped + b)))
  {
    ProcessAppend(prefix, armed, a, b);
    var o := Process(prefix, armed, a);
    DropsSome(prefix, armed, a);
    if o.action == NoAction {
      var p := Process(prefix, o.armed, b);
      Assoc(o.forward, p.forward, Streamed(prefix, false, p.dropped).forward);
    }
  }

  /** Over any reads, with any number of requests, the session is that of the keys one after the other, without
      those that came after a request in the same read. */
  lemma {:induction false} SessionIsTrimmedStream(prefix: Byte, armed: bool, chunks: seq<Chunk>)
    ensures Attached(prefix, armed, chunks) == Streamed(prefix, armed, AllKeys(TrimmedAll(prefix, armed, chunks)))
    decreases |chunks|
  {
    if chunks != [] {
      var o := Process(prefix, armed, Keys(chunks[0]));
      var first, more := Trimmed(prefix, armed, chunks[0]), TrimmedAll(prefix, o.armed, chunks[1..]);
      assert ([first] + more)[1..] == more;
      TrimmedDoesSame(prefix, armed, chunks[0]);
      DropsSome(prefix, armed, Keys(chunks[0]));
      StreamedAppend(prefix, armed, Keys(first), AllKeys(more));
      SessionIsTrimmedStream(prefix, o.armed, chunks[1..]);
      assert [] + AllKeys(more) == AllKeys(more);
    }
  }

  /** Dropping these keys changes nothing, whatever is read later. */
  ghost predicate MayBeDropped(prefix: Byte, rest: seq<Key>) {
    forall later: seq<Key> :: Streamed(prefix, false, rest + later) == Streamed(prefix, false, later)
  }

  /** The keys after a request, all read while displaced, are missed exactly if they hold a chord, another
      request, or a prefix at their end that is left pending. */
  lemma MayBeDroppedExactlyIf(prefix: Byte, rest: seq<Key>)
    requires forall k <- rest :: k.displaced
    ensures MayBeDropped(prefix, rest) <==> Quiet(prefix, rest, |rest|) && !Closes(prefix, rest, |rest|)
  {
    var o := Process(prefix, false, rest);
    ProcessMeans(prefix, false, rest);
    DisplacedForwardsNothing(prefix, false, rest);
    if o.action == NoAction {
      if o.armed {
        PendingShows(prefix, rest);
      } else {
        forall later: seq<Key> ensures Streamed(prefix, false, rest + later) == Streamed(prefix, false, later) {
          StreamedAppend(prefix, false, rest, later);
          AppendNothing(Streamed(prefix, false, later).forward);
        }
      }
    } else {
      StreamedAppend(prefix, false, rest, []);
      assert Streamed(prefix, false, []) == Session([], 0, false);
      assert Streamed(prefix, false, rest + []) != Streamed(prefix, false, []);
    }
  }

  /** A pending prefix shows in the next key, if it is typed with control. */
  lemma PendingShows(prefix: Byte, rest: seq<Key>)
    requires Process(prefix, false, rest).action == NoAction && Process(prefix, false, rest).armed
    ensures !MayBeDropped(prefix, rest)
  {
    var later := [Key(DETACH_KEY, false)];
    StreamedAppend(prefix, false, rest, later);
    assert later[1..] == [];
    assert Process(prefix, false, []) == Outcome([], NoAction, false, []) && Process(prefix, true, []) == Outcome([], NoAction, true, []);
    assert Process(prefix, true, later).action == Detach;
    assert Process(prefix, false, later).action == NoAction;
    assert Streamed(prefix, false, rest + later).detached && !Streamed(prefix, false, later).detached;
  }

  /** Every request stands where the keys after it in its read may be dropped. */
  ghost predicate RequestsDropNothing(prefix: Byte, armed: bool, chunks: seq<Chunk>)
    decreases |chunks|
  {
    chunks == [] ||
    (var o := Process(prefix, armed, Keys(chunks[0]));
     (o.action == TakeControl ==> MayBeDropped(prefix, o.dropped))
     && (o.action == Detach || RequestsDropNothing(prefix, o.armed, chunks[1..])))
  }

  /** If so, the way the reads cut the keys changes nothing in the whole session. */
  lemma {:induction false} CutDoesNotMatter(prefix: Byte, armed: bool, chunks: seq<Chunk>)
    requires RequestsDropNothing(prefix, armed, chunks)
    ensures Attached(prefix, armed, chunks) == Streamed(prefix, armed, AllKeys(chunks))
    decreases |chunks|
  {
    if chunks != [] {
      var o := Process(prefix, armed, Keys(chunks[0]));
      DropsSome(prefix, armed, Keys(chunks[0]));
      StreamedAppend(prefix, armed, Keys(chunks[0]), AllKeys(chunks[1..]));
      if o.action != Detach { CutDoesNotMatter(prefix, o.armed, chunks[1..]); }
    }
  }

  // ---------------------------------------------------------------- when it acts

  /** The stream detaches exactly if its first stop is the `d` of a chord, and asks for control exactly if it
      is a Space. */
  lemma ActsExactlyAtFirstStop(prefix: Byte, input: seq<Key>)
    ensures
      var action := Process(prefix, false, input).action;
      && (action == Detach <==> exists n :: FirstStop(prefix, input, n) && Closes(prefix, input, n))
      && (action == TakeControl <==> exists n :: FirstStop(prefix, input, n) && !Closes(prefix, input, n))
      && (action == NoAction <==> Quiet(prefix, input, |input|))
  {
    ProcessMeans(prefix, false, input);
  }
}
