/** Stripping JSONC comments: a lexer as reference, the scanning loop, and what stripping preserves. */
module JsoncStrip {
  import opened Base
  import opened Text

  // ---------------------------------------------------------------- the lexical structure

  datatype Token =
    | Literal(text: Text)        // a string literal, or an unterminated one running to the end
    | LineComment(text: Text)
    | BlockComment(text: Text)
    | OpenComment(text: Text)    // a block comment that is never closed
    | Other(u: Unit)

  function TokenText(t: Token): Text {
    match t
    case Literal(text) => text
    case LineComment(text) => text
    case BlockComment(text) => text
    case OpenComment(text) => text
    case Other(u) => [u]
  }

  /** The position after the quote that closes a literal whose inside continues at i. */
  function StringEnd(s: Text, i: nat): (r: nat)
    requires i <= |s|
    ensures i <= r <= |s|
    decreases |s| - i
  {
    if i == |s| then i
    else if s[i] == BACKSLASH then (if i + 1 < |s| then StringEnd(s, i + 2) else i + 1)
    else if s[i] == QUOTE then i + 1
    else StringEnd(s, i + 1)
  }

  predicate IsLineBreak(u: Unit) { u == LF || u == CR }

  function LineEnd(s: Text, i: nat): (r: nat)
    requires i <= |s|
    ensures i <= r <= |s|
    decreases |s| - i
  {
    if i == |s| || IsLineBreak(s[i]) then i else LineEnd(s, i + 1)
  }

  /** A line comment ends at the first line break, or with the text. */
  lemma {:induction false} LineEndIsFirst(s: Text, i: nat)
    requires i <= |s|
    ensures LineEnd(s, i) < |s| ==> IsLineBreak(s[LineEnd(s, i)])
    ensures forall k :: i <= k < LineEnd(s, i) ==> !IsLineBreak(s[k])
    decreases |s| - i
  {
    if i < |s| && !IsLineBreak(s[i]) { LineEndIsFirst(s, i + 1); }
  }

  predicate ClosesBlock(s: Text, i: nat) {
    i + 1 < |s| && s[i] == STAR && s[i + 1] == SLASH
  }

  function BlockEnd(s: Text, i: nat): (r: Option<nat>)
    requires i <= |s|
    ensures r.Some? ==> i + 2 <= r.value <= |s|
    decreases |s| - i
  {
    if i + 1 >= |s| then None
    else if ClosesBlock(s, i) then Some(i + 2)
    else BlockEnd(s, i + 1)
  }

  /** A block comment ends right after the first closing mark, and is open when there is none. */
  lemma {:induction false} BlockEndIsFirst(s: Text, i: nat)
    requires i <= |s|
    ensures BlockEnd(s, i).Some? ==>
              ClosesBlock(s, BlockEnd(s, i).value - 2) && forall k :: i <= k < BlockEnd(s, i).value - 2 ==> !ClosesBlock(s, k)
    ensures BlockEnd(s, i).None? ==> forall k :: i <= k ==> !ClosesBlock(s, k)
    decreases |s| - i
  {
    if i + 1 < |s| && !ClosesBlock(s, i) {
      BlockEndIsFirst(s, i + 1);
    }
  }

  predicate StartsLine(s: Text) { |s| > 1 && s[0] == SLASH && s[1] == SLASH }

  predicate StartsBlock(s: Text) { |s| > 1 && s[0] == SLASH && s[1] == STAR }

  function NextToken(s: Text): (t: Token)
    requires s != []
    ensures TokenText(t) <= s && TokenText(t) != []
  {
    if s[0] == QUOTE then Literal(s[..StringEnd(s, 1)])
    else if StartsLine(s) then LineComment(s[..LineEnd(s, 2)])
    else if StartsBlock(s) then
      match BlockEnd(s, 2)
      case None => OpenComment(s)
      case Some(n) => BlockComment(s[..n])
    else Other(s[0])
  }

  function Lex(s: Text): seq<Token> {
    if s == [] then [] else [NextToken(s)] + Lex(s[|TokenText(NextToken(s))|..])
  }

  predicate IsComment(t: Token) { t.LineComment? || t.BlockComment? || t.OpenComment? }

  function Flatten(ts: seq<Token>): Text {
    if ts == [] then [] else TokenText(ts[0]) + Flatten(ts[1..])
  }

  function WithoutComments(ts: seq<Token>): seq<Token> {
    if ts == [] then []
    else if IsComment(ts[0]) then WithoutComments(ts[1..])
    else [ts[0]] + WithoutComments(ts[1..])
  }

  function Literals(ts: seq<Token>): seq<Text> {
    if ts == [] then []
    else if ts[0].Literal? then [ts[0].text] + Literals(ts[1..])
    else Literals(ts[1..])
  }

  predicate HasOpenComment(ts: seq<Token>) { exists t <- ts :: t.OpenComment? }

  predicate HasComment(ts: seq<Token>) { exists t <- ts :: IsComment(t) }

  /** Lexing loses nothing: the tokens are the text, in order. */
  lemma {:induction false} LexLossless(s: Text)
    ensures Flatten(Lex(s)) == s
    decreases |s|
  {
    if s != [] {
      var t := TokenText(NextToken(s));
      LexLossless(s[|t|..]);
      LexCons(NextToken(s), Lex(s[|t|..]));
      PrefixAndRest(t, s);
    }
  }

  lemma PrefixAndRest(t: Text, s: Text)
    requires t <= s
    ensures t + s[|t|..] == s
  {
  }

  lemma LexCons(t: Token, ts: seq<Token>)
    ensures Flatten([t] + ts) == TokenText(t) + Flatten(ts)
    ensures WithoutComments([t] + ts) == if IsComment(t) then WithoutComments(ts) else [t] + WithoutComments(ts)
    ensures Literals([t] + ts) == if t.Literal? then [t.text] + Literals(ts) else Literals(ts)
    ensures HasOpenComment([t] + ts) <==> t.OpenComment? || HasOpenComment(ts)
    ensures HasComment([t] + ts) <==> IsComment(t) || HasComment(ts)
  {
    var all := [t] + ts;
    assert all[1..] == ts && all[0] == t;
    assert forall x :: x in all <==> x == t || x in ts;
  }

  // ---------------------------------------------------------------- stripping

  /** The text of all tokens but the comments; nothing when a block comment is never closed. */
  function Strip(s: Text): Option<Text>
    decreases |s|
  {
    if s == [] then Some([])
    else
      var t := NextToken(s);
      var rest := s[|TokenText(t)|..];
      if t.OpenComment? then None
      else if IsComment(t) then Strip(rest)
      else Prepend(TokenText(t), Strip(rest))
  }

  function Prepend(a: Text, r: Option<Text>): Option<Text> {
    if r.None? then None else Some(a + r.value)
  }

  lemma PrependNothing(r: Option<Text>)
    ensures Prepend([], r) == r
  {
    if r.Some? { assert [] + r.value == r.value; }
  }

  lemma PrependTwice(a: Text, b: Text, r: Option<Text>)
    ensures Prepend(a, Prepend(b, r)) == Prepend(a + b, r)
  {
    if r.Some? { assert a + (b + r.value) == (a + b) + r.value; }
  }

  /** Stripping from inside a string literal. */
  function StripInString(s: Text): Option<Text> {
    Prepend(s[..StringEnd(s, 0)], Strip(s[StringEnd(s, 0)..]))
  }

  lemma {:induction false} StringEndShift(s: Text, k: nat, i: nat)
    requires k + i <= |s|
    ensures StringEnd(s[k..], i) + k == StringEnd(s, k + i)
    decreases |s| - k - i
  {
    if k + i < |s| && s[k + i] == BACKSLASH {
      if k + i + 1 < |s| { StringEndShift(s, k, i + 2); }
    } else if k + i < |s| && s[k + i] != QUOTE {
      StringEndShift(s, k, i + 1);
    }
  }

  lemma StripInStringAt(s: Text, n: nat)
    requires n == StringEnd(s, 0)
    ensures StripInString(s) == Prepend(s[..n], Strip(s[n..]))
  {
  }

  lemma Slices(a: Text, b: Text, e: nat)
    requires e <= |b|
    ensures (a + b)[..|a| + e] == a + b[..e] && (a + b)[|a| + e..] == b[e..]
  {
  }

  /** A literal whose inside starts with `a` and goes on with `b`. */
  lemma InsideConcat(a: Text, b: Text, e: nat)
    requires StringEnd(a + b, 0) == |a| + e && StringEnd(b, 0) == e
    ensures StripInString(a + b) == Prepend(a, StripInString(b))
  {
    hide *;
    StripInStringAt(a + b, |a| + e);
    StripInStringAt(b, e);
    Slices(a, b, e);
    PrependTwice(a, b[..e], Strip(b[e..]));
  }

  /** Skipping k units of a literal that ends no earlier. */
  lemma StripInStringSkip(s: Text, k: nat)
    requires k <= |s| && StringEnd(s, 0) == StringEnd(s, k)
    ensures StripInString(s) == Prepend(s[..k], StripInString(s[k..]))
  {
    StringEndShift(s, k, 0);
    assert s[..k] + s[k..] == s;
    InsideConcat(s[..k], s[k..], StringEnd(s[k..], 0));
  }

  lemma LiteralStep(s: Text)
    requires s != [] && s[0] == QUOTE
    ensures Strip(s) == Prepend(s[..StringEnd(s, 1)], Strip(s[StringEnd(s, 1)..]))
  {
  }

  lemma EnterString(s: Text)
    requires s != [] && s[0] == QUOTE
    ensures Strip(s) == Prepend([QUOTE], StripInString(s[1..]))
  {
    hide *;
    StringEndShift(s, 1, 0);
    LiteralStep(s);
    var b := s[1..];
    var e := StringEnd(b, 0);
    assert s == [QUOTE] + b;
    Slices([QUOTE], b, e);
    StripInStringAt(b, e);
    PrependTwice([QUOTE], b[..e], Strip(b[e..]));
  }

  lemma LeaveString(s: Text)
    requires s != [] && s[0] == QUOTE
    ensures StripInString(s) == Prepend([QUOTE], Strip(s[1..]))
  {
    assert s[..1] == [QUOTE];
  }

  lemma OtherStep(s: Text)
    requires s != [] && s[0] != QUOTE && !StartsLine(s) && !StartsBlock(s)
    ensures Strip(s) == Prepend([s[0]], Strip(s[1..]))
  {
  }

  /** The scan at position i with this output so far still computes the strip of the whole text. */
  ghost predicate Scanning(raw: Text, i: nat, result: Text, inString: bool) {
    i <= |raw| && Strip(raw) == Prepend(result, if inString then StripInString(raw[i..]) else Strip(raw[i..]))
  }

  lemma ScanEscape(raw: Text, i: nat, result: Text)
    requires Scanning(raw, i, result, true) && i + 1 < |raw| && raw[i] == BACKSLASH
    ensures Scanning(raw, i + 2, result + [raw[i]] + [raw[i + 1]], true)
  {
    var s := raw[i..];
    StripInStringSkip(s, 2);
    assert s[2..] == raw[i + 2..] && s[..2] == [raw[i], raw[i + 1]];
    PrependTwice(result, s[..2], StripInString(raw[i + 2..]));
    assert result + s[..2] == result + [raw[i]] + [raw[i + 1]];
  }

  lemma ScanInString(raw: Text, i: nat, result: Text)
    requires Scanning(raw, i, result, true) && i < |raw|
    requires raw[i] == BACKSLASH ==> i + 1 == |raw|
    ensures Scanning(raw, i + 1, result + [raw[i]], raw[i] != QUOTE)
  {
    var s := raw[i..];
    assert s[1..] == raw[i + 1..] && s[..1] == [raw[i]];
    if raw[i] == QUOTE {
      LeaveString(s);
      PrependTwice(result, [QUOTE], Strip(raw[i + 1..]));
    } else {
      StripInStringSkip(s, 1);
      PrependTwice(result, s[..1], StripInString(raw[i + 1..]));
    }
  }

  lemma ScanOutside(raw: Text, i: nat, result: Text)
    requires Scanning(raw, i, result, false) && i < |raw|
    requires !StartsLine(raw[i..]) && !StartsBlock(raw[i..])
    ensures Scanning(raw, i + 1, result + [raw[i]], raw[i] == QUOTE)
  {
    var s := raw[i..];
    assert s[1..] == raw[i + 1..];
    if raw[i] == QUOTE {
      EnterString(s);
      PrependTwice(result, [QUOTE], StripInString(raw[i + 1..]));
    } else {
      OtherStep(s);
      PrependTwice(result, [raw[i]], Strip(raw[i + 1..]));
    }
  }

  lemma ScanStart(raw: Text)
    ensures Scanning(raw, 0, [], false)
  {
    assert raw[0..] == raw;
    PrependNothing(Strip(raw));
  }

  lemma ScanEnd(raw: Text, result: Text, inString: bool)
    requires Scanning(raw, |raw|, result, inString)
    ensures Strip(raw) == Some(result)
  {
    assert raw[|raw|..] == [];
    PrependNothing(Some([]));
    assert StripInString([]) == Some([]);
    assert result + [] == result;
  }

  /** The scanning loop: position i, the output so far, and whether i is inside a string literal. */
  method StripComments(raw: Text) returns (r: Option<Text>)
    ensures r == Strip(raw)
  {
    var result: Text := [];
    var i := 0;
    var inString := false;
    ScanStart(raw);
    while i < |raw|
      invariant Scanning(raw, i, result, inString)
    {
      var c := raw[i];
      if inString {
        if c == BACKSLASH && i + 1 < |raw| {
          ScanEscape(raw, i, result);
          result := result + [c] + [raw[i + 1]];
          i := i + 2;
          continue;
        }
        ScanInString(raw, i, result);
        if c == QUOTE { inString := false; }
        result := result + [c];
        i := i + 1;
      } else if c == QUOTE {
        ScanOutside(raw, i, result);
        inString := true;
        result := result + [c];
        i := i + 1;
      } else if c == SLASH && i + 1 < |raw| && raw[i + 1] == SLASH {
        i := SkipLineComment(raw, i);
      } else if c == SLASH && i + 1 < |raw| && raw[i + 1] == STAR {
        var end := SkipBlockComment(raw, i);
        if end.None? { return None; }
        i := end.value;
      } else {
        ScanOutside(raw, i, result);
        result := result + [c];
        i := i + 1;
      }
    }
    ScanEnd(raw, result, inString);
    r := Some(result);
  }

  method SkipLineComment(raw: Text, start: nat) returns (i: nat)
    requires start < |raw| && StartsLine(raw[start..])
    ensures start < i <= |raw| && Strip(raw[start..]) == Strip(raw[i..])
  {
    i := start + 2;
    ghost var s := raw[start..];
    while i < |raw| && raw[i] != LF && raw[i] != CR
      invariant start + 2 <= i <= |raw|
      invariant LineEnd(s, 2) == LineEnd(s, i - start)
    {
      i := i + 1;
    }
    assert s[i - start..] == raw[i..];
  }

  lemma {:induction false} BlockEndShift(s: Text, k: nat, i: nat)
    requires k + i <= |s|
    ensures BlockEnd(s[k..], i).None? <==> BlockEnd(s, k + i).None?
    ensures BlockEnd(s, k + i).Some? ==> BlockEnd(s[k..], i).value + k == BlockEnd(s, k + i).value
    decreases |s| - k - i
  {
    if k + i + 1 < |s| && !ClosesBlock(s, k + i) {
      BlockEndShift(s, k, i + 1);
    }
  }

  lemma BlockStep(s: Text)
    requires StartsBlock(s)
    ensures BlockEnd(s, 2).None? ==> Strip(s) == None
    ensures BlockEnd(s, 2).Some? ==> Strip(s) == Strip(s[BlockEnd(s, 2).value..])
  {
  }

  lemma BlockSkipped(raw: Text, start: nat)
    requires start < |raw| && StartsBlock(raw[start..])
    ensures BlockEnd(raw, start + 2).None? ==> Strip(raw[start..]).None?
    ensures BlockEnd(raw, start + 2).Some? ==> Strip(raw[start..]) == Strip(raw[BlockEnd(raw, start + 2).value..])
  {
    hide *;
    BlockFits(raw, start);
    BlockEndShift(raw, start, 2);
    BlockStep(raw[start..]);
    if BlockEnd(raw[start..], 2).Some? {
      var n := BlockEnd(raw[start..], 2).value;
      assert raw[start..][n..] == raw[start + n..];
    }
  }

  lemma BlockFits(raw: Text, start: nat)
    requires start < |raw| && StartsBlock(raw[start..])
    ensures start + 2 <= |raw|
  {
  }

  method SkipBlockComment(raw: Text, start: nat) returns (r: Option<nat>)
    requires start < |raw| && StartsBlock(raw[start..])
    ensures r.None? ==> Strip(raw[start..]).None?
    ensures r.Some? ==> start < r.value <= |raw| && Strip(raw[start..]) == Strip(raw[r.value..])
  {
    BlockSkipped(raw, start);
    r := FindBlockEnd(raw, start + 2);
  }

  method FindBlockEnd(raw: Text, from: nat) returns (r: Option<nat>)
    requires from <= |raw|
    ensures r == BlockEnd(raw, from)
  {
    var i := from;
    while i < |raw| - 1
      invariant from <= i <= |raw|
      invariant BlockEnd(raw, from) == BlockEnd(raw, i)
    {
      if raw[i] == STAR && raw[i + 1] == SLASH {
        return Some(i + 2);
      }
      i := i + 1;
    }
    r := None;
  }

  // ---------------------------------------------------------------- what stripping preserves

  /** Stripping keeps the text of every token but the comments, and fails exactly when the text holds a
      block comment that is never closed. */
  lemma {:induction false} StripIsKeptTokens(s: Text)
    ensures Strip(s).None? <==> HasOpenComment(Lex(s))
    ensures Strip(s).Some? ==> Strip(s).value == Flatten(WithoutComments(Lex(s)))
    decreases |s|
  {
    if s != [] {
      var t := NextToken(s);
      var rest := s[|TokenText(t)|..];
      StripIsKeptTokens(rest);
      LexCons(t, Lex(rest));
      LexCons(t, WithoutComments(Lex(rest)));
    }
  }

  /** Prepending a kept token in front of a stripped rest lexes as that token first. */
  lemma KeptTokenStays(s: Text, t': Text)
    requires s != [] && !IsComment(NextToken(s)) && Strip(s[|TokenText(NextToken(s))|..]) == Some(t')
    ensures NextToken(TokenText(NextToken(s)) + t') == NextToken(s)
  {
    var tok := NextToken(s);
    var n := |TokenText(tok)|;
    var u := TokenText(tok) + t';
    if tok.Literal? {
      StringEndOfPrefix(s, u, 1, n);
    } else {
      assert s[1..] != [] ==> s[1] != SLASH || s[0] != SLASH;
      if t' != [] && s[0] == SLASH {
        assert s[1..] != [];
        var next := NextToken(s[1..]);
        assert TokenText(next)[0] == s[1];
        assert t'[0] == s[1];
      }
    }
  }

  /** Where a literal ends does not depend on what follows it. */
  lemma {:induction false} StringEndOfPrefix(s: Text, u: Text, i: nat, n: nat)
    requires i <= n <= |s| && n <= |u| && s[..n] == u[..n] && StringEnd(s, i) == n
    requires n == |s| ==> n == |u|
    ensures StringEnd(u, i) == n
    decreases n - i
  {
    if i < n {
      assert s[i] == s[..n][i] == u[..n][i];
      if s[i] == BACKSLASH {
        if i + 1 < |s| { StringEndOfPrefix(s, u, i + 2, n); }
      } else if s[i] != QUOTE {
        StringEndOfPrefix(s, u, i + 1, n);
      }
    }
  }

  /** The stripped text lexes to exactly the tokens that were kept: removing a comment never joins what
      is left into a new comment or a new literal. */
  lemma {:induction false} StrippedLexesTheSame(s: Text)
    requires Strip(s).Some?
    ensures Lex(Strip(s).value) == WithoutComments(Lex(s))
    decreases |s|
  {
    if s != [] {
      var t := NextToken(s);
      var rest := s[|TokenText(t)|..];
      LexCons(t, Lex(rest));
      StrippedLexesTheSame(rest);
      if !IsComment(t) {
        var t' := Strip(rest).value;
        KeptTokenStays(s, t');
        var u := TokenText(t) + t';
        assert u[|TokenText(t)|..] == t';
      }
    }
  }

  lemma {:induction false} NoCommentLeft(ts: seq<Token>)
    ensures !HasComment(WithoutComments(ts)) && Literals(WithoutComments(ts)) == Literals(ts)
    ensures !HasComment(ts) ==> WithoutComments(ts) == ts
  {
    if ts != [] {
      NoCommentLeft(ts[1..]);
      assert [ts[0]] + ts[1..] == ts;
      LexCons(ts[0], ts[1..]);
      LexCons(ts[0], WithoutComments(ts[1..]));
    }
  }

  /** A successful strip is idempotent, copies every string literal unchanged and in order, and leaves no
      comment outside strings. */
  lemma StripProperties(s: Text)
    requires Strip(s).Some?
    ensures Strip(Strip(s).value) == Strip(s)
    ensures Literals(Lex(Strip(s).value)) == Literals(Lex(s))
    ensures !HasComment(Lex(Strip(s).value))
  {
    var t := Strip(s).value;
    StrippedLexesTheSame(s);
    NoCommentLeft(Lex(s));
    StripIdentity(t);
  }

  /** Stripping is the identity exactly on texts with no comment outside strings. */
  lemma StripIdentity(s: Text)
    ensures Strip(s) == Some(s) <==> !HasComment(Lex(s))
  {
    StripIsKeptTokens(s);
    NoCommentLeft(Lex(s));
    LexLossless(s);
    if HasComment(Lex(s)) && Strip(s) == Some(s) {
      StrippedLexesTheSame(s);
      assert false;
    }
    if !HasComment(Lex(s)) {
      assert !HasOpenComment(Lex(s));
    }
  }
}
