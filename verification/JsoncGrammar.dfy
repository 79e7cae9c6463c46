/** JSON with comments as a sequence of pieces: what a text says with its comments, and without them. */
module JsoncGrammar {
  import opened Base
  import opened Text
  import opened JsoncStrip

  /** A unit outside strings and comments; a string, or one that is still open at the end of the text; a line comment;
      a block comment. */
  datatype Piece =
    | Char(u: Unit)
    | String(inside: Text)
    | OpenString(inside: Text)
    | Line(body: Text)
    | Block(body: Text)

  /** The inside of a string: after a backslash the next unit does not count, and no quote counts. */
  predicate InsideOk(t: Text) {
    if t == [] then true
    else if t[0] == 0x5C then |t| > 1 && InsideOk(t[2..])
    else t[0] != 0x22 && InsideOk(t[1..])
  }

  /** The inside of a string that is still open; its last unit may be a backslash. */
  predicate InsideOpen(t: Text) {
    if t == [] then true
    else if t[0] == 0x5C then |t| == 1 || InsideOpen(t[2..])
    else t[0] != 0x22 && InsideOpen(t[1..])
  }

  /** The marks `*` `/` stand at position k. */
  predicate Marks(t: Text, k: nat) { k + 1 < |t| && t[k] == 0x2A && t[k + 1] == 0x2F }

  function PieceText(p: Piece): Text {
    match p
    case Char(u) => [u]
    case String(inside) => [0x22] + inside + [0x22]
    case OpenString(inside) => [0x22] + inside
    case Line(body) => [0x2F, 0x2F] + body
    case Block(body) => [0x2F, 0x2A] + body + [0x2A, 0x2F]
  }

  /** The piece ends where it does, given what stands after it. */
  predicate PieceOk(p: Piece, rest: Text) {
    match p
    case Char(u) => u != 0x22 && (u == 0x2F && rest != [] ==> rest[0] != 0x2F && rest[0] != 0x2A)
    case String(inside) => InsideOk(inside)
    case OpenString(inside) => InsideOpen(inside) && rest == []
    case Line(body) => 0x0A !in body && 0x0D !in body && (rest != [] ==> rest[0] == 0x0A || rest[0] == 0x0D)
    case Block(body) => forall k :: 0 <= k < |body| ==> !Marks(body + [0x2A, 0x2F], k)
  }

  function Then(ps: seq<Piece>, rest: Text): Text {
    if ps == [] then rest else PieceText(ps[0]) + Then(ps[1..], rest)
  }

  predicate PiecesOk(ps: seq<Piece>, rest: Text) {
    ps == [] || (PieceOk(ps[0], Then(ps[1..], rest)) && PiecesOk(ps[1..], rest))
  }

  /** The text without its comments. */
  function Kept(ps: seq<Piece>): Text {
    if ps == [] then []
    else (if ps[0].Line? || ps[0].Block? then [] else PieceText(ps[0])) + Kept(ps[1..])
  }

  /** A block comment that is never closed. */
  predicate IsOpenBlock(t: Text) {
    |t| >= 2 && t[0] == 0x2F && t[1] == 0x2A && forall k :: 2 <= k < |t| ==> !Marks(t, k)
  }

  // ---------------------------------------------------------------- every sequence of pieces is stripped

  lemma {:induction false} StringEnds(s: Text, i: nat, inside: Text, rest: Text)
    requires i <= |s| && InsideOk(inside) && s[i..] == inside + ([0x22] + rest)
    ensures StringEnd(s, i) == i + |inside| + 1
    decreases |inside|
  {
    if inside != [] {
      assert s[i] == inside[0];
      var n := if inside[0] == 0x5C then 2 else 1;
      assert s[i + n..] == inside[n..] + ([0x22] + rest);
      StringEnds(s, i + n, inside[n..], rest);
    }
  }

  lemma {:induction false} OpenStringEnds(s: Text, i: nat)
    requires i <= |s| && InsideOpen(s[i..])
    ensures StringEnd(s, i) == |s|
    decreases |s| - i
  {
    if i < |s| {
      assert s[i..][0] == s[i];
      if s[i] == 0x5C {
        if i + 1 < |s| {
          assert s[i..][2..] == s[i + 2..];
          OpenStringEnds(s, i + 2);
        }
      } else {
        assert s[i..][1..] == s[i + 1..];
        OpenStringEnds(s, i + 1);
      }
    }
  }

  /** The lexer takes the piece as one token. */
  lemma PieceIsToken(p: Piece, rest: Text)
    requires PieceOk(p, rest)
    ensures
      var t := NextToken(PieceText(p) + rest);
      TokenText(t) == PieceText(p) && !t.OpenComment? && (IsComment(t) <==> p.Line? || p.Block?)
  {
    var s := PieceText(p) + rest;
    match p
    case Char(u) =>
    case String(inside) => StringIsToken(inside, rest);
    case OpenString(inside) =>
      assert s[1..] == inside && s == PieceText(p);
      OpenStringEnds(s, 1);
    case Line(body) => LineIsToken(body, rest);
    case Block(body) => BlockIsToken(body, rest);
  }

  lemma StringIsToken(inside: Text, rest: Text)
    requires InsideOk(inside)
    ensures NextToken([0x22] + inside + [0x22] + rest) == Literal([0x22] + inside + [0x22])
  {
    hide StringEnd, InsideOk;
    var s := [0x22] + inside + [0x22] + rest;
    assert s[1..] == inside + ([0x22] + rest);
    StringEnds(s, 1, inside, rest);
    assert s[0] == 0x22 && StringEnd(s, 1) == |inside| + 2;
    assert s[..|inside| + 2] == [0x22] + inside + [0x22];
  }

  lemma LineIsToken(body: Text, rest: Text)
    requires PieceOk(Line(body), rest)
    ensures NextToken([0x2F, 0x2F] + body + rest) == LineComment([0x2F, 0x2F] + body)
  {
    var s, n := [0x2F, 0x2F] + body + rest, 2 + |body|;
    LineEndIsFirst(s, 2);
    forall k | 2 <= k < n ensures !IsLineBreak(s[k]) { assert s[k] == body[k - 2] && s[k] in body; }
    if rest != [] { assert s[n] == rest[0]; }
    assert LineEnd(s, 2) == n;
    assert s[..n] == [0x2F, 0x2F] + body;
  }

  lemma BlockIsToken(body: Text, rest: Text)
    requires PieceOk(Block(body), rest)
    ensures NextToken([0x2F, 0x2A] + body + [0x2A, 0x2F] + rest) == BlockComment([0x2F, 0x2A] + body + [0x2A, 0x2F])
  {
    var closed := body + [0x2A, 0x2F];
    var s, n := [0x2F, 0x2A] + body + [0x2A, 0x2F] + rest, 2 + |body|;
    BlockEndIsFirst(s, 2);
    forall k | 2 <= k < n ensures !ClosesBlock(s, k) {
      assert s[k] == closed[k - 2] && s[k + 1] == closed[k - 1] && !Marks(closed, k - 2);
    }
    assert s[n] == 0x2A && s[n + 1] == 0x2F && ClosesBlock(s, n);
    assert BlockEnd(s, 2) == Some(n + 2);
    assert s[..n + 2] == [0x2F, 0x2A] + body + [0x2A, 0x2F];
  }

  lemma {:induction false} PiecesStrip(ps: seq<Piece>, rest: Text)
    requires PiecesOk(ps, rest)
    ensures Strip(Then(ps, rest)) == Prepend(Kept(ps), Strip(rest))
  {
    if ps == [] {
      PrependNothing(Strip(rest));
    } else {
      hide PieceOk, PieceText, NextToken;
      var after := Then(ps[1..], rest);
      var s := PieceText(ps[0]) + after;
      PieceIsToken(ps[0], after);
      PiecesStrip(ps[1..], rest);
      assert s[|PieceText(ps[0])|..] == after;
      PrependTwice(PieceText(ps[0]), Kept(ps[1..]), Strip(rest));
      assert [] + Kept(ps[1..]) == Kept(ps[1..]);
    }
  }

  lemma OpenBlockFails(t: Text)
    requires IsOpenBlock(t)
    ensures Strip(t) == None
  {
    BlockEndIsFirst(t, 2);
    if BlockEnd(t, 2).Some? { assert !Marks(t, BlockEnd(t, 2).value - 2); }
  }

  // ---------------------------------------------------------------- every text is such a sequence

  lemma {:induction false} InsideRead(s: Text, i: nat)
    requires i <= |s|
    ensures
      var n := StringEnd(s, i);
      (n > i && s[n - 1] == 0x22 && InsideOk(s[i..n - 1])) || (n == |s| && InsideOpen(s[i..]))
    decreases |s| - i
  {
    if i < |s| {
      var n := StringEnd(s, i);
      if s[i] == 0x5C {
        if i + 1 < |s| {
          InsideRead(s, i + 2);
          assert s[i..][2..] == s[i + 2..];
          if n > i + 2 { assert s[i..n - 1][2..] == s[i + 2..n - 1] && s[i..n - 1][0] == 0x5C; }
        }
      } else if s[i] != 0x22 {
        InsideRead(s, i + 1);
        assert s[i..][1..] == s[i + 1..];
        if n > i + 1 { assert s[i..n - 1][1..] == s[i + 1..n - 1] && s[i..n - 1][0] == s[i]; }
      }
    }
  }

  /** The first token is a piece, unless it is a block comment that is never closed. */
  lemma PieceRead(s: Text) returns (p: Piece)
    requires s != [] && !NextToken(s).OpenComment?
    ensures PieceText(p) == TokenText(NextToken(s)) && PieceOk(p, s[|PieceText(p)|..])
    ensures IsComment(NextToken(s)) <==> p.Line? || p.Block?
  {
    var t := NextToken(s);
    if t.Literal? {
      p := StringRead(s);
    } else if t.LineComment? {
      p := LineRead(s);
    } else if t.BlockComment? {
      p := BlockRead(s);
    } else {
      p := Char(s[0]);
    }
  }

  lemma StringRead(s: Text) returns (p: Piece)
    requires s != [] && NextToken(s).Literal?
    ensures (p.String? || p.OpenString?) && PieceText(p) == TokenText(NextToken(s)) && PieceOk(p, s[|PieceText(p)|..])
  {
    hide StringEnd;
    InsideRead(s, 1);
    var n := StringEnd(s, 1);
    if n > 1 && s[n - 1] == 0x22 && InsideOk(s[1..n - 1]) {
      p := String(s[1..n - 1]);
      assert s[..n] == [0x22] + s[1..n - 1] + [0x22];
    } else {
      p := OpenString(s[1..]);
      assert s[..n] == [0x22] + s[1..];
    }
  }

  lemma LineRead(s: Text) returns (p: Piece)
    requires s != [] && NextToken(s).LineComment?
    ensures p.Line? && PieceText(p) == TokenText(NextToken(s)) && PieceOk(p, s[|PieceText(p)|..])
  {
    hide LineEnd;
    var n := LineEnd(s, 2);
    LineEndIsFirst(s, 2);
    p := Line(s[2..n]);
    assert s[..n] == [0x2F, 0x2F] + s[2..n];
    forall u <- s[2..n] ensures u != 0x0A && u != 0x0D {
      var k :| 0 <= k < n - 2 && s[2..n][k] == u;
      assert !IsLineBreak(s[k + 2]);
    }
  }

  lemma BlockRead(s: Text) returns (p: Piece)
    requires s != [] && NextToken(s).BlockComment?
    ensures p.Block? && PieceText(p) == TokenText(NextToken(s)) && PieceOk(p, s[|PieceText(p)|..])
  {
    var n := BlockEnd(s, 2).value;
    BlockEndIsFirst(s, 2);
    var body := s[2..n - 2];
    p := Block(body);
    assert s[..n] == [0x2F, 0x2A] + body + [0x2A, 0x2F];
    var closed := body + [0x2A, 0x2F];
    forall k | 0 <= k < |body| ensures !Marks(closed, k) {
      assert closed == s[2..n];
      assert closed[k] == s[k + 2] && closed[k + 1] == s[k + 3] && !ClosesBlock(s, k + 2);
    }
  }

  lemma OpenBlockRead(s: Text)
    requires s != [] && NextToken(s).OpenComment?
    ensures IsOpenBlock(s)
  {
    BlockEndIsFirst(s, 2);
    forall k | 2 <= k < |s| ensures !Marks(s, k) { assert !ClosesBlock(s, k); }
  }

  lemma {:induction false} PiecesRead(s: Text) returns (ps: seq<Piece>, rest: Text)
    ensures PiecesOk(ps, rest) && s == Then(ps, rest) && (rest == [] || IsOpenBlock(rest))
    decreases |s|
  {
    hide PieceOk, PieceText, NextToken, IsOpenBlock;
    ps, rest := [], s;
    if s != [] {
      if NextToken(s).OpenComment? {
        OpenBlockRead(s);
      } else {
        var p := PieceRead(s);
        ps, rest := PiecesRead(s[|PieceText(p)|..]);
        assert ([p] + ps)[1..] == ps;
        ps := [p] + ps;
      }
    }
  }

  /** Stripping gives a text exactly if the input is a sequence of pieces, and then it is the input without its
      comments: strings are kept whatever they hold, and a comment starts only outside them. It fails exactly if the
      pieces end in a block comment that is never closed. */
  lemma StripIsGrammar(s: Text, t: Text)
    ensures Strip(s) == Some(t) <==> exists ps: seq<Piece> :: PiecesOk(ps, []) && s == Then(ps, []) && t == Kept(ps)
    ensures Strip(s) == None <==>
              exists ps: seq<Piece>, open: Text :: PiecesOk(ps, open) && s == Then(ps, open) && IsOpenBlock(open)
  {
    var ps, rest := PiecesRead(s);
    PiecesStrip(ps, rest);
    if rest != [] { OpenBlockFails(rest); } else { assert Kept(ps) + [] == Kept(ps); }
    forall qs: seq<Piece> | PiecesOk(qs, []) && s == Then(qs, []) && t == Kept(qs) ensures Strip(s) == Some(t) {
      PiecesStrip(qs, []);
      assert Kept(qs) + [] == Kept(qs);
    }
    forall qs: seq<Piece>, open: Text | PiecesOk(qs, open) && s == Then(qs, open) && IsOpenBlock(open)
      ensures Strip(s) == None
    {
      PiecesStrip(qs, open);
      OpenBlockFails(open);
    }
  }
}
