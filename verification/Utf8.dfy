/** UTF-8 as JavaScript reads it: each maximal part of an ill-formed sequence becomes one U+FFFD (section 3.9 of
    the Unicode Standard). */
module Utf8 {
  import opened Base
  import opened Text

  const REPLACEMENT: Unit := 0xFFFD

  type Scalar = c: int | (0 <= c < 0xD800) || (0xE000 <= c < 0x11_0000)

  // ---------------------------------------------------------------- the decoder

  predicate IsTail(b: Byte) { 0x80 <= b <= 0xBF }

  /** How many bytes a sequence with this first byte has; 0 if none starts with it. */
  function Length(lead: Byte): nat {
    if lead < 0x80 then 1
    else if 0xC2 <= lead <= 0xDF then 2
    else if 0xE0 <= lead <= 0xEF then 3
    else if 0xF0 <= lead <= 0xF4 then 4
    else 0
  }

  /** Whether b may come second: no overlong form, no surrogate, nothing above U+10FFFF. */
  predicate MayBeSecond(lead: Byte, b: Byte) {
    && IsTail(b)
    && (lead == 0xE0 ==> 0xA0 <= b) && (lead == 0xED ==> b <= 0x9F)
    && (lead == 0xF0 ==> 0x90 <= b) && (lead == 0xF4 ==> b <= 0x8F)
  }

  predicate Continues(s: Bytes, i: nat)
    requires 0 < i < |s|
  {
    if i == 1 then MayBeSecond(s[0], s[1]) else IsTail(s[i])
  }

  /** How many bytes from the front belong to one sequence of n bytes, the first i being known to. */
  function Matched(s: Bytes, n: nat, i: nat): (r: nat)
    requires 0 < i <= n && i <= |s|
    ensures i <= r <= n && r <= |s|
    decreases n - i
  {
    if i == n || i == |s| || !Continues(s, i) then i else Matched(s, n, i + 1)
  }

  /** The length of the front part that is decoded as one. */
  function Front(s: Bytes): (r: nat)
    requires s != []
    ensures 0 < r <= |s|
  {
    if Length(s[0]) == 0 then 1 else Matched(s, Length(s[0]), 1)
  }

  /** The front part is a character. */
  predicate StartsCharacter(s: Bytes) { s != [] && Front(s) == Length(s[0]) }

  function Bits(b: Byte, base: int): int { b - base }

  function Value(s: Bytes): int
    requires StartsCharacter(s)
  {
    var n := Length(s[0]);
    if n == 1 then s[0]
    else if n == 2 then 64 * Bits(s[0], 0xC0) + Bits(s[1], 0x80)
    else if n == 3 then 4096 * Bits(s[0], 0xE0) + 64 * Bits(s[1], 0x80) + Bits(s[2], 0x80)
    else 262144 * Bits(s[0], 0xF0) + 4096 * Bits(s[1], 0x80) + 64 * Bits(s[2], 0x80) + Bits(s[3], 0x80)
  }

  lemma {:induction false} MatchedMeans(s: Bytes, n: nat, i: nat)
    requires 0 < i <= n && i <= |s|
    ensures forall k :: i <= k < Matched(s, n, i) ==> Continues(s, k)
    ensures Matched(s, n, i) < n && Matched(s, n, i) < |s| ==> !Continues(s, Matched(s, n, i))
    decreases n - i
  {
    if i < n && i < |s| && Continues(s, i) { MatchedMeans(s, n, i + 1); }
  }

  lemma ValueIsScalar(s: Bytes)
    requires StartsCharacter(s)
    ensures (0 <= Value(s) < 0xD800) || (0xE000 <= Value(s) < 0x11_0000)
  {
    var n := Length(s[0]);
    MatchedMeans(s, n, 1);
    if n > 1 { assert Continues(s, 1); }
    if n > 2 { assert Continues(s, 2); }
    if n > 3 { assert Continues(s, 3); }
  }

  function FrontScalar(s: Bytes): Scalar
    requires StartsCharacter(s)
  {
    ValueIsScalar(s);
    Value(s)
  }

  function UnitsOf(c: Scalar): Text {
    if c < 0x1_0000 then [c] else [0xD800 + (c - 0x1_0000) / 0x400, 0xDC00 + (c - 0x1_0000) % 0x400]
  }

  function FrontText(s: Bytes): Text
    requires s != []
  {
    if StartsCharacter(s) then UnitsOf(FrontScalar(s)) else [REPLACEMENT]
  }

  /** chunk.toString() */
  function Decode(s: Bytes): Text
    decreases |s|
  {
    if s == [] then [] else FrontText(s) + Decode(s[Front(s)..])
  }

  // ---------------------------------------------------------------- the encoder

  function EncodeScalar(c: Scalar): Bytes {
    if c < 0x80 then [c]
    else if c < 0x800 then [0xC0 + c / 64, 0x80 + c % 64]
    else if c < 0x1_0000 then [0xE0 + c / 4096, 0x80 + c / 64 % 64, 0x80 + c % 64]
    else [0xF0 + c / 262144, 0x80 + c / 4096 % 64, 0x80 + c / 64 % 64, 0x80 + c % 64]
  }

  function Encode(cs: seq<Scalar>): Bytes {
    if cs == [] then [] else EncodeScalar(cs[0]) + Encode(cs[1..])
  }

  function Units(cs: seq<Scalar>): Text {
    if cs == [] then [] else UnitsOf(cs[0]) + Units(cs[1..])
  }

  lemma EncodedContinues(c: Scalar)
    ensures Length(EncodeScalar(c)[0]) == |EncodeScalar(c)|
    ensures forall k :: 0 < k < |EncodeScalar(c)| ==> Continues(EncodeScalar(c), k)
  {
  }

  lemma EncodedFront(s: Bytes, e: Bytes)
    requires e != [] && e <= s && Length(e[0]) == |e| && forall k :: 0 < k < |e| ==> Continues(e, k)
    ensures StartsCharacter(s) && Front(s) == |e|
  {
    MatchedMeans(s, |e|, 1);
    forall k | 0 < k < |e| ensures Continues(s, k) { assert Continues(e, k); }
  }

  lemma Digits64(c: nat)
    ensures c == 64 * (c / 64) + c % 64
    ensures c == 4096 * (c / 4096) + 64 * (c / 64 % 64) + c % 64
    ensures c == 262144 * (c / 262144) + 4096 * (c / 4096 % 64) + 64 * (c / 64 % 64) + c % 64
  {
    var q := c / 64;
    assert q / 64 == c / 4096 by { Quotient(c, 4096, q / 64, 64 * (q % 64) + c % 64); }
    var p := q / 64;
    assert p / 64 == c / 262144 by { Quotient(c, 262144, p / 64, 4096 * (p % 64) + 64 * (q % 64) + c % 64); }
  }

  lemma Quotient(c: nat, d: nat, q: nat, r: nat)
    requires (d == 4096 || d == 262144) && c == d * q + r && r < d
    ensures c / d == q
  {
  }

  lemma EncodedValue(c: Scalar, s: Bytes)
    requires StartsCharacter(s) && EncodeScalar(c) <= s && Length(s[0]) == |EncodeScalar(c)|
    ensures Value(s) == c
  {
    hide Front, StartsCharacter, Length;
    Digits64(c);
    var e := EncodeScalar(c);
    assert forall i :: 0 <= i < |e| ==> s[i] == e[i];
  }

  lemma EncodedStarts(c: Scalar, rest: Bytes)
    ensures
      var s := EncodeScalar(c) + rest;
      && StartsCharacter(s) && Front(s) == |EncodeScalar(c)| && Value(s) == c && s[Front(s)..] == rest
  {
    hide Matched, Front, Continues;
    EncodedContinues(c);
    EncodedFront(EncodeScalar(c) + rest, EncodeScalar(c));
    EncodedValue(c, EncodeScalar(c) + rest);
  }

  /** The decoder recovers every encoded text. */
  lemma {:induction false} DecodeEncoded(cs: seq<Scalar>)
    ensures Decode(Encode(cs)) == Units(cs) && WellFormed(Encode(cs))
  {
    if cs != [] {
      DecodeEncoded(cs[1..]);
      EncodedStarts(cs[0], Encode(cs[1..]));
    }
  }

  // ---------------------------------------------------------------- cuts

  /** A character is one UTF-16 unit, or a surrogate pair that carries its bits. */
  lemma UnitsAre(c: Scalar)
    ensures
      var u := UnitsOf(c);
      if c < 0x1_0000 then u == [c]
      else |u| == 2 && 0xD800 <= u[0] <= 0xDBFF && 0xDC00 <= u[1] <= 0xDFFF
           && c == 0x1_0000 + 1024 * (u[0] - 0xD800) as int + (u[1] - 0xDC00) as int
  {
  }

  /** The bytes are whole characters. */
  predicate WellFormed(s: Bytes)
    decreases |s|
  {
    s == [] || (StartsCharacter(s) && WellFormed(s[Front(s)..]))
  }

  lemma DigitsAre(a: nat, b: nat, c: nat, d: nat)
    requires b < 64 && c < 64 && d < 64
    ensures
      var v := 262144 * a + 4096 * b + 64 * c + d;
      && v / 64 == 4096 * a + 64 * b + c && v / 4096 == 64 * a + b && v / 262144 == a
      && v % 64 == d && (4096 * a + 64 * b + c) % 64 == c && (64 * a + b) % 64 == b
  {
  }

  lemma LongFrontIsEncoded(s: Bytes)
    requires StartsCharacter(s) && Length(s[0]) == 4
    ensures s[..4] == EncodeScalar(FrontScalar(s))
  {
    hide Matched, Front;
    FrontContinues(s);
    DigitsAre(Bits(s[0], 0xF0), Bits(s[1], 0x80), Bits(s[2], 0x80), Bits(s[3], 0x80));
  }

  lemma ShortFrontIsEncoded(s: Bytes)
    requires StartsCharacter(s) && Length(s[0]) < 4
    ensures s[..Length(s[0])] == EncodeScalar(FrontScalar(s))
  {
    hide Matched, Front;
    FrontContinues(s);
    if Length(s[0]) == 2 {
      DigitsAre(0, 0, Bits(s[0], 0xC0), Bits(s[1], 0x80));
    } else if Length(s[0]) == 3 {
      DigitsAre(0, Bits(s[0], 0xE0), Bits(s[1], 0x80), Bits(s[2], 0x80));
    }
  }

  lemma FrontIsEncoded(s: Bytes)
    requires StartsCharacter(s)
    ensures s[..Front(s)] == EncodeScalar(FrontScalar(s))
  {
    if Length(s[0]) == 4 { LongFrontIsEncoded(s); } else { ShortFrontIsEncoded(s); }
  }

  lemma FrontContinues(s: Bytes)
    requires StartsCharacter(s)
    ensures
      var n := Length(s[0]);
      && n == Front(s) && (n > 1 ==> MayBeSecond(s[0], s[1])) && (n > 2 ==> IsTail(s[2])) && (n > 3 ==> IsTail(s[3]))
  {
    var n := Length(s[0]);
    MatchedMeans(s, n, 1);
    if n > 1 { assert Continues(s, 1); }
    if n > 2 { assert Continues(s, 2); }
    if n > 3 { assert Continues(s, 3); }
  }

  lemma {:induction false} WellFormedIsEncoded(s: Bytes) returns (cs: seq<Scalar>)
    requires WellFormed(s)
    ensures Encode(cs) == s
    decreases |s|
  {
    cs := [];
    if s != [] {
      cs := WellFormedIsEncoded(s[Front(s)..]);
      FrontIsEncoded(s);
      cs := [FrontScalar(s)] + cs;
    }
  }

  /** Bytes that are whole characters for the decoder are exactly the encoded texts. */
  lemma WellFormedExactlyIf(s: Bytes)
    ensures WellFormed(s) <==> exists cs: seq<Scalar> :: Encode(cs) == s
  {
    if WellFormed(s) {
      var cs := WellFormedIsEncoded(s);
    }
    forall cs: seq<Scalar> | Encode(cs) == s ensures WellFormed(s) { DecodeEncoded(cs); }
  }

  /** Section 3.9 of the Unicode Standard: what does not start a character is replaced by one U+FFFD up to where no
      character begins like this any more, and at least one byte. */
  lemma MaximalSubpart(s: Bytes)
    requires s != [] && !StartsCharacter(s)
    ensures Decode(s) == [0xFFFD] + Decode(s[Front(s)..])
    ensures Front(s) > 1 ==> exists c: Scalar :: s[..Front(s)] <= EncodeScalar(c)
    ensures forall k, c: Scalar | Front(s) < k <= |s| :: !(s[..k] <= EncodeScalar(c))
  {
    if Front(s) > 1 {
      var c := Completed(s);
      assert s[..Front(s)] <= EncodeScalar(c);
    }
    forall k, c: Scalar | Front(s) < k <= |s| ensures !(s[..k] <= EncodeScalar(c)) {
      if s[..k] <= EncodeScalar(c) { CharacterMatches(s, k, c); }
    }
  }

  /** A character that begins with the replaced bytes. */
  lemma Completed(s: Bytes) returns (c: Scalar)
    requires s != [] && !StartsCharacter(s) && Front(s) > 1
    ensures s[..Front(s)] <= EncodeScalar(c)
  {
    var n, m := Front(s), Length(s[0]);
    MatchedMeans(s, m, 1);
    var t := s[..n] + seq(m - n, _ => 0x80);
    forall k | 0 < k < m ensures Continues(t, k) {
      if k < n { assert Continues(s, k); }
    }
    MatchedMeans(t, m, 1);
    assert StartsCharacter(t) && Front(t) == m && t[..m] == t;
    FrontIsEncoded(t);
    c := FrontScalar(t);
    assert t[..n] == s[..n];
  }

  lemma CharacterMatches(s: Bytes, k: nat, c: Scalar)
    requires 0 < k <= |s| && s[..k] <= EncodeScalar(c)
    ensures Front(s) >= k
  {
    var e := EncodeScalar(c);
    EncodedContinues(c);
    assert forall i :: 0 <= i < k ==> s[i] == s[..k][i] == e[i];
    assert Length(s[0]) == |e|;
    MatchedMeans(s, |e|, 1);
    forall i | 0 < i < k ensures Continues(s, i) { assert Continues(e, i); }
  }

  /** The front part of a character is the same whatever follows it. */
  lemma CharacterIsLocal(s: Bytes, t: Bytes)
    requires StartsCharacter(s) && t != [] && (t <= s || s <= t) && Length(s[0]) <= |t|
    ensures StartsCharacter(t) && Front(t) == Front(s) && FrontText(t) == FrontText(s)
  {
    var n := Length(s[0]);
    MatchedMeans(s, n, 1);
    MatchedMeans(t, n, 1);
    forall k | 0 < k < n ensures Continues(t, k) { assert Continues(s, k); }
  }

  function DecodeEach(chunks: seq<Bytes>): seq<Text> {
    if chunks == [] then [] else [Decode(chunks[0])] + DecodeEach(chunks[1..])
  }

  /** Whole characters in front decode on their own. */
  lemma {:induction false} DecodeAppend(a: Bytes, b: Bytes)
    requires WellFormed(a)
    ensures Decode(a + b) == Decode(a) + Decode(b)
    decreases |a|
  {
    if a == [] {
      assert a + b == b && Decode(a) + Decode(b) == Decode(b);
    } else {
      CharacterIsLocal(a, a + b);
      assert (a + b)[Front(a)..] == a[Front(a)..] + b;
      DecodeAppend(a[Front(a)..], b);
      Assoc(FrontText(a), Decode(a[Front(a)..]), Decode(b));
    }
  }

  /** How many replacement characters a text has. */
  function Replaced(t: Text): nat { multiset(t)[REPLACEMENT] }

  lemma ReplacedAppend(a: Text, b: Text)
    ensures Replaced(a + b) == Replaced(a) + Replaced(b)
  {
  }

  /** Cutting the front part off the first chunk takes its text off the front. */
  lemma FirstFront(chunk: Bytes, more: seq<Bytes>)
    requires chunk != []
    ensures
      var rest := [chunk[Front(chunk)..]] + more;
      && Concat(rest) == Concat([chunk] + more)[Front(chunk)..]
      && Replaced(Concat(DecodeEach([chunk] + more))) == Replaced(FrontText(chunk)) + Replaced(Concat(DecodeEach(rest)))
  {
    hide *;
    var rest := chunk[Front(chunk)..];
    DecodeFront(chunk);
    ReplacedAppend(FrontText(chunk), Decode(rest));
    ReplacedAppend(Decode(chunk), Concat(DecodeEach(more)));
    ReplacedAppend(Decode(rest), Concat(DecodeEach(more)));
    EachCons(chunk, more);
    EachCons(rest, more);
    assert rest + Concat(more) == (chunk + Concat(more))[Front(chunk)..];
  }

  lemma DecodeFront(s: Bytes)
    requires s != []
    ensures Decode(s) == FrontText(s) + Decode(s[Front(s)..])
  {
  }

  lemma EachCons(chunk: Bytes, more: seq<Bytes>)
    ensures Concat(DecodeEach([chunk] + more)) == Decode(chunk) + Concat(DecodeEach(more))
    ensures Concat([chunk] + more) == chunk + Concat(more)
  {
    assert ([chunk] + more)[1..] == more;
    assert ([Decode(chunk)] + DecodeEach(more))[1..] == DecodeEach(more);
  }

  lemma EachOfNone(chunks: seq<Bytes>)
    ensures Decode([]) == [] && (chunks == [] ==> Concat(DecodeEach(chunks)) == Decode(Concat(chunks)) == [])
  {
  }

  lemma TailFront(s: Bytes)
    requires s != [] && IsTail(s[0])
    ensures Front(s) == 1 && Replaced(FrontText(s)) == 1
  {
  }

  /** Bytes that continue a character, with their character cut off in front, are all replaced. */
  lemma {:induction false} TailsAreReplaced(chunks: seq<Bytes>, k: nat)
    requires k <= |Concat(chunks)| && WellFormed(Concat(chunks)[k..])
    requires forall i :: 0 <= i < k ==> IsTail(Concat(chunks)[i])
    ensures Replaced(Concat(DecodeEach(chunks))) >= k + Replaced(Decode(Concat(chunks)[k..]))
    decreases |Concat(chunks)|, |chunks|, 1
  {
    hide WellFormed, Decode, FrontText, Front, DecodeEach, Replaced, IsTail;
    var all := Concat(chunks);
    if k == 0 {
      assert all[0..] == all;
      ReplacedAtLeast(chunks);
    } else {
      var chunk, more := chunks[0], chunks[1..];
      assert chunks == [chunk] + more;
      EachCons(chunk, more);
      if chunk == [] {
        assert all == Concat(more);
        EachOfNone([]);
        assert [] + Concat(DecodeEach(more)) == Concat(DecodeEach(more));
        TailsAreReplaced(more, k);
      } else {
        assert chunk[0] == all[0];
        TailFront(chunk);
        FirstFront(chunk, more);
        var rest := [chunk[1..]] + more;
        assert Concat(rest) == all[1..] && all[1..][k - 1..] == all[k..];
        TailsAreReplaced(rest, k - 1);
      }
    }
  }

  /** A chunk that ends inside its first character. */
  lemma CutCharacter(s: Bytes, chunk: Bytes)
    requires StartsCharacter(s) && chunk != [] && chunk <= s && |chunk| < Front(s)
    ensures !StartsCharacter(chunk) && Replaced(Decode(chunk)) >= 1
    ensures forall i :: |chunk| <= i < Front(s) ==> IsTail(s[i])
    ensures Replaced(FrontText(s)) <= 1
  {
    MatchedMeans(s, Length(s[0]), 1);
    ReplacedAppend(FrontText(chunk), Decode(chunk[Front(chunk)..]));
    forall i | |chunk| <= i < Front(s) ensures IsTail(s[i]) { assert Continues(s, i); }
  }

  /** Chunks of a well-formed stream never have fewer replacement characters than the stream, and as many only if
      each is well-formed. */
  lemma {:induction false} ReplacedAtLeast(chunks: seq<Bytes>)
    requires WellFormed(Concat(chunks))
    ensures Replaced(Concat(DecodeEach(chunks))) >= Replaced(Decode(Concat(chunks)))
    ensures Replaced(Concat(DecodeEach(chunks))) == Replaced(Decode(Concat(chunks))) ==> forall c <- chunks :: WellFormed(c)
    decreases |Concat(chunks)|, |chunks|, 0
  {
    hide Decode, FrontText, Front, Replaced, Concat, DecodeEach;
    EachOfNone(chunks);
    if chunks != [] {
      var all, chunk, more := Concat(chunks), chunks[0], chunks[1..];
      assert chunks == [chunk] + more;
      EachCons(chunk, more);
      if chunk == [] {
        assert all == Concat(more);
        assert [] + Concat(DecodeEach(more)) == Concat(DecodeEach(more));
        ReplacedAtLeast(more);
      } else {
        var n := Front(all);
        DecodeFront(all);
        ReplacedAppend(FrontText(all), Decode(all[n..]));
        if |chunk| < n {
          CutCharacter(all, chunk);
          assert all[|chunk|..] == Concat(more) && Concat(more)[n - |chunk|..] == all[n..];
          TailsAreReplaced(more, n - |chunk|);
          ReplacedAppend(Decode(chunk), Concat(DecodeEach(more)));
        } else {
          CharacterIsLocal(all, chunk);
          FirstFront(chunk, more);
          var rest := [chunk[n..]] + more;
          assert Concat(rest) == all[n..];
          ReplacedAtLeast(rest);
          assert rest[0] == chunk[n..];
          assert forall c <- more :: c in rest;
        }
      }
    }
  }

  lemma {:induction false} EachDecodes(chunks: seq<Bytes>)
    requires forall c <- chunks :: WellFormed(c)
    ensures Concat(DecodeEach(chunks)) == Decode(Concat(chunks))
  {
    if chunks != [] {
      assert chunks == [chunks[0]] + chunks[1..];
      EachCons(chunks[0], chunks[1..]);
      DecodeAppend(chunks[0], Concat(chunks[1..]));
      EachDecodes(chunks[1..]);
    }
  }

  /** Chunks of a well-formed stream decode to its text exactly if no cut falls inside a character. */
  lemma DecodesInPiecesExactlyIf(chunks: seq<Bytes>)
    requires WellFormed(Concat(chunks))
    ensures Concat(DecodeEach(chunks)) == Decode(Concat(chunks)) <==> forall c <- chunks :: WellFormed(c)
  {
    ReplacedAtLeast(chunks);
    if forall c <- chunks :: WellFormed(c) { EachDecodes(chunks); }
  }
}
