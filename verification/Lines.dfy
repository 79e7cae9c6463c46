/** A text cut into lines while it arrives in chunks. */
module Lines {
  import opened Base
  import opened Text

  function IndexOfLf(s: Text): (i: nat)
    ensures i <= |s|
  {
    if s == [] || s[0] == LF then 0 else 1 + IndexOfLf(s[1..])
  }

  predicate NoLf(s: Text) { IndexOfLf(s) == |s| }

  /** The first newline, if there is one. */
  lemma {:induction false} IndexOfLfIsFirst(s: Text, j: nat)
    requires j < |s|
    ensures j < IndexOfLf(s) ==> s[j] != LF
    ensures j == IndexOfLf(s) ==> s[j] == LF
  {
    if s[0] != LF && j > 0 { IndexOfLfIsFirst(s[1..], j - 1); }
  }

  lemma {:induction false} IndexOfLfAppend(s: Text, more: Text)
    ensures IndexOfLf(s + more) == if NoLf(s) then |s| + IndexOfLf(more) else IndexOfLf(s)
  {
    if s == [] {
      assert s + more == more;
    } else {
      assert (s + more)[1..] == s[1..] + more;
      IndexOfLfAppend(s[1..], more);
    }
  }

  function SendFirst<T>(line: seq<T>, later: (seq<T>, Text)): (o: (seq<T>, Text))
    ensures o.1 == later.1
  {
    (line + later.0, later.1)
  }

  /** What the complete lines of a text send, and the unfinished line at its end. */
  function Feed<T>(send: Text -> seq<T>, s: Text): (o: (seq<T>, Text))
    ensures NoLf(o.1)
    decreases |s|
  {
    var i := IndexOfLf(s);
    if i == |s| then ([], s)
    else
      SendFirst(send(s[..i]), Feed(send, s[i + 1..]))
  }

  /** What a whole text sends, its last line included. */
  function Stream<T>(send: Text -> seq<T>, s: Text): seq<T> {
    Feed(send, s).0 + send(Feed(send, s).1)
  }

  // ---------------------------------------------------------------- chunks

  /** All that is sent for the chunks one after another and the final flush. */
  function SendAll<T>(send: Text -> seq<T>, buffer: Text, chunks: seq<Text>): seq<T>
    decreases |chunks|
  {
    if chunks == [] then send(buffer)
    else
      var (sent, rest) := Feed(send, buffer + chunks[0]);
      sent + SendAll(send, rest, chunks[1..])
  }

  lemma FeedLine<T>(send: Text -> seq<T>, s: Text)
    ensures
      var nl := IndexOfLf(s);
      Feed(send, s) == if nl < |s| then (send(s[..nl]) + Feed(send, s[nl + 1..]).0, Feed(send, s[nl + 1..]).1) else ([], s)
  {
    hide Feed, IndexOfLf;
    FeedUnfold(send, s);
  }

  lemma FeedUnfold<T>(send: Text -> seq<T>, s: Text)
    ensures
      var nl := IndexOfLf(s);
      Feed(send, s) == if nl < |s| then SendFirst(send(s[..nl]), Feed(send, s[nl + 1..])) else ([], s)
  {
    hide SendFirst, IndexOfLf;
  }

  lemma CutLine(s: Text, more: Text, i: nat)
    requires i < |s|
    ensures (s + more)[..i] == s[..i] && (s + more)[i + 1..] == s[i + 1..] + more
  {
  }

  lemma {:induction false} FeedAppend<T>(send: Text -> seq<T>, s: Text, more: Text)
    ensures
      var (sent, rest) := Feed(send, s);
      Feed(send, s + more) == (sent + Feed(send, rest + more).0, Feed(send, rest + more).1)
    decreases |s|
  {
    hide *;
    var i := IndexOfLf(s);
    FeedLine(send, s);
    if i < |s| {
      StillFirst(s, more);
      FeedLine(send, s + more);
      CutLine(s, more, i);
      FeedAppend(send, s[i + 1..], more);
      var (later, rest) := Feed(send, s[i + 1..]);
      Assoc(send(s[..i]), later, Feed(send, rest + more).0);
    } else {
      AppendNothing(Feed(send, s + more).0);
    }
  }

  lemma StillFirst(s: Text, more: Text)
    requires IndexOfLf(s) < |s|
    ensures IndexOfLf(s + more) == IndexOfLf(s)
  {
    IndexOfLfAppend(s, more);
  }

  lemma {:induction false} SendsAsStream<T>(send: Text -> seq<T>, buffer: Text, chunks: seq<Text>)
    requires NoLf(buffer)
    ensures SendAll(send, buffer, chunks) == Stream(send, buffer + Concat(chunks))
    decreases |chunks|
  {
    if chunks == [] {
      assert buffer + Concat(chunks) == buffer;
      FeedLine(send, buffer);
      AppendNothing(send(buffer));
    } else {
      var s, more := buffer + chunks[0], Concat(chunks[1..]);
      Assoc(buffer, chunks[0], more);
      FeedAppend(send, s, more);
      var (sent, rest) := Feed(send, s);
      SendsAsStream(send, rest, chunks[1..]);
      Assoc(sent, Feed(send, rest + more).0, send(Feed(send, rest + more).1));
    }
  }

  /** What is sent depends on the characters alone, not on the chunks they arrive in. */
  lemma ChunksDoNotMatter<T>(send: Text -> seq<T>, chunks: seq<Text>)
    ensures SendAll(send, [], chunks) == Stream(send, Concat(chunks))
  {
    SendsAsStream(send, [], chunks);
    assert [] + Concat(chunks) == Concat(chunks);
  }

  /** With or without a newline at its end, a text sends the same. */
  lemma LastNewlineIsOptional<T>(send: Text -> seq<T>, s: Text)
    requires send([]) == []
    ensures Stream(send, s + [LF]) == Stream(send, s)
  {
    FeedAppend(send, s, [LF]);
    var rest := Feed(send, s).1;
    IndexOfLfAppend(rest, [LF]);
    assert (rest + [LF])[..|rest|] == rest && (rest + [LF])[|rest| + 1..] == [];
    FeedLine(send, rest + [LF]);
    FeedLine(send, []);
    Assoc(Feed(send, s).0, send(rest), []);
    AppendNothing(send(rest));
    AppendNothing(Feed(send, s).0 + send(rest));
  }

  lemma AppendPieces<T>(pushed: seq<T>, line: seq<T>, later: seq<T>, all: seq<T>)
    requires all == line + later
    ensures pushed + all == (pushed + line) + later
  {
  }

  /** Sending one line and going on, for a sender that appends to what it sent before. */
  lemma SendLine<T>(send: Text -> seq<T>, pushed: seq<T>, s: Text)
    ensures
      var nl := IndexOfLf(s);
      if nl < |s| then
        && pushed + Feed(send, s).0 == (pushed + send(s[..nl])) + Feed(send, s[nl + 1..]).0
        && Feed(send, s).1 == Feed(send, s[nl + 1..]).1
      else pushed + Feed(send, s).0 == pushed && Feed(send, s).1 == s
  {
    hide *;
    var nl := IndexOfLf(s);
    FeedLine(send, s);
    if nl < |s| {
      AppendPieces(pushed, send(s[..nl]), Feed(send, s[nl + 1..]).0, Feed(send, s).0);
    } else {
      AppendNothing(pushed);
    }
  }
}
