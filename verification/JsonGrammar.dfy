/** The grammar of RFC 8259 as a syntax tree with all that a writer may choose: white space, spellings of strings, and
    repeated keys. JSON.parse reads exactly the texts of such trees. */
module JsonGrammar {
  import opened Base
  import opened Text
  import opened JsonValue
  import opened JsonParse
  import opened JsonRoundTrip

  // ---------------------------------------------------------------- white space and strings

  /** Section 2: space, tab, line feed, carriage return. */
  predicate Blanks(t: Text) { forall u <- t :: u == 0x20 || u == 0x09 || u == 0x0A || u == 0x0D }

  /** Section 7: a unit as it is, a short escape, or four hexadecimal digits. */
  datatype Char = Plain(u: Unit) | Short(letter: Unit) | Hex(a: Unit, b: Unit, c: Unit, d: Unit)

  predicate IsHex(u: Unit) { 0x30 <= u <= 0x39 || 0x41 <= u <= 0x46 || 0x61 <= u <= 0x66 }

  predicate CharOk(c: Char) {
    match c
    case Plain(u) => u >= 0x20 && u != 0x22 && u != 0x5C
    case Short(letter) => letter in {0x22, 0x5C, 0x2F, 0x62, 0x66, 0x6E, 0x72, 0x74}
    case Hex(a, b, c, d) => IsHex(a) && IsHex(b) && IsHex(c) && IsHex(d)
  }

  function CharText(c: Char): Text {
    match c
    case Plain(u) => [u]
    case Short(letter) => [0x5C, letter]
    case Hex(a, b, c, d) => [0x5C, 0x75, a, b, c, d]
  }

  function HexDigitMeans(u: Unit): nat
    requires IsHex(u)
  {
    if u <= 0x39 then u - 0x30 else if u <= 0x46 then u - 0x41 + 10 else u - 0x61 + 10
  }

  function CharMeans(c: Char): Unit
    requires CharOk(c)
  {
    match c
    case Plain(u) => u
    case Short(letter) =>
      if letter == 0x62 then 0x08
      else if letter == 0x66 then 0x0C
      else if letter == 0x6E then 0x0A
      else if letter == 0x72 then 0x0D
      else if letter == 0x74 then 0x09
      else letter
    case Hex(a, b, c, d) =>
      4096 * HexDigitMeans(a) + 256 * HexDigitMeans(b) + 16 * HexDigitMeans(c) + HexDigitMeans(d)
  }

  predicate CharsOk(cs: seq<Char>) { forall c <- cs :: CharOk(c) }

  /** The rest of a string literal after its opening quote, and `rest` after it. */
  function CharsThen(cs: seq<Char>, rest: Text): Text {
    if cs == [] then [0x22] + rest else CharText(cs[0]) + CharsThen(cs[1..], rest)
  }

  function CharsMean(cs: seq<Char>): Text
    requires CharsOk(cs)
  {
    if cs == [] then [] else [CharMeans(cs[0])] + CharsMean(cs[1..])
  }

  // ---------------------------------------------------------------- numbers

  predicate Digits(t: Text) { t != [] && forall u <- t :: 0x30 <= u <= 0x39 }

  /** Section 6: the parts of a number. */
  datatype Parts = Parts(minus: bool, whole: Text, fraction: Option<Text>, exponent: Option<Exponent>)

  datatype Exponent = Exponent(letter: Unit, sign: Option<Unit>, digits: Text)

  predicate PartsOk(n: Parts) {
    && Digits(n.whole) && (n.whole[0] == 0x30 ==> |n.whole| == 1)
    && (n.fraction.Some? ==> Digits(n.fraction.value))
    && (n.exponent.Some? ==>
          && n.exponent.value.letter in {0x65, 0x45} && Digits(n.exponent.value.digits)
          && (n.exponent.value.sign.Some? ==> n.exponent.value.sign.value in {0x2B, 0x2D}))
  }

  function ExponentText(e: Option<Exponent>): Text {
    if e.None? then [] else [e.value.letter] + ((if e.value.sign.Some? then [e.value.sign.value] else []) + e.value.digits)
  }

  function FractionText(n: Parts): Text {
    (if n.fraction.Some? then [0x2E] + n.fraction.value else []) + ExponentText(n.exponent)
  }

  function NumberText(n: Parts): Text {
    (if n.minus then [0x2D] else []) + (n.whole + FractionText(n))
  }

  // ---------------------------------------------------------------- values

  datatype Syntax =
    | NullWord
    | BoolWord(b: bool)
    | Number(parts: Parts)
    | String(chars: seq<Char>)
    | Array(blank: Text, items: seq<Item>)        // `blank` is what an empty array holds
    | Object(blank: Text, members: seq<Member>)

  datatype Item = Item(before: Text, value: Syntax, after: Text)

  datatype Member = Member(before: Text, key: seq<Char>, middle: Text, gap: Text, value: Syntax, after: Text)

  predicate Ok(x: Syntax) {
    match x
    case Number(parts) => PartsOk(parts)
    case String(chars) => CharsOk(chars)
    case Array(blank, items) => Blanks(blank) && ItemsOk(items)
    case Object(blank, members) => Blanks(blank) && MembersOk(members)
    case _ => true
  }

  predicate ItemsOk(items: seq<Item>) {
    items == [] ||
    (Blanks(items[0].before) && Ok(items[0].value) && Blanks(items[0].after) && ItemsOk(items[1..]))
  }

  predicate MembersOk(members: seq<Member>) {
    members == [] ||
    (var m := members[0];
     && Blanks(m.before) && CharsOk(m.key) && Blanks(m.middle)
     && Blanks(m.gap) && Ok(m.value) && Blanks(m.after) && MembersOk(members[1..]))
  }

  /** The text of the value, and `rest` after it. */
  function Then(x: Syntax, rest: Text): Text {
    match x
    case NullWord => [0x6E, 0x75, 0x6C, 0x6C] + rest
    case BoolWord(b) => (if b then [0x74, 0x72, 0x75, 0x65] else [0x66, 0x61, 0x6C, 0x73, 0x65]) + rest
    case Number(parts) => NumberText(parts) + rest
    case String(chars) => [0x22] + CharsThen(chars, rest)
    case Array(blank, items) => [0x5B] + if items == [] then blank + ([0x5D] + rest) else ItemsThen(items, rest)
    case Object(blank, members) => [0x7B] + if members == [] then blank + ([0x7D] + rest) else MembersThen(members, rest)
  }

  function ItemsThen(items: seq<Item>, rest: Text): Text
    requires items != []
  {
    items[0].before
    + Then(items[0].value, items[0].after + if |items| == 1 then [0x5D] + rest else [0x2C] + ItemsThen(items[1..], rest))
  }

  function MembersThen(members: seq<Member>, rest: Text): Text
    requires members != []
  {
    var m := members[0];
    m.before
    + ([0x22]
       + CharsThen(m.key,
           m.middle + ([0x3A] + (m.gap
           + Then(m.value, m.after + if |members| == 1 then [0x7D] + rest else [0x2C] + MembersThen(members[1..], rest))))))
  }

  /** Of a repeated key the last value is kept, at the first position. */
  function WithField(fields: seq<Field>, k: Text, v: Value): seq<Field> {
    if forall f <- fields :: f.key != k then fields + [Field(k, v)]
    else seq(|fields|, i requires 0 <= i < |fields| => if fields[i].key == k then Field(k, v) else fields[i])
  }

  function Means(x: Syntax): Value
    requires Ok(x)
  {
    match x
    case NullWord => Null
    case BoolWord(b) => Bool(b)
    case Number(parts) => Num(NumberText(parts))
    case String(chars) => Str(CharsMean(chars))
    case Array(_, items) => Arr(ItemsMean(items))
    case Object(_, members) => Obj(FieldsMean([], members))
  }

  function ItemsMean(items: seq<Item>): seq<Value>
    requires ItemsOk(items)
  {
    if items == [] then [] else [Means(items[0].value)] + ItemsMean(items[1..])
  }

  /** The fields after those already read. */
  function FieldsMean(acc: seq<Field>, members: seq<Member>): seq<Field>
    requires MembersOk(members)
    decreases members
  {
    if members == [] then acc
    else FieldsMean(WithField(acc, CharsMean(members[0].key), Means(members[0].value)), members[1..])
  }

  // ---------------------------------------------------------------- every text of the grammar is read

  lemma {:induction false} SkipBlanks(b: Text, s: Text)
    requires Blanks(b)
    ensures SkipSpace(b + s) == SkipSpace(s)
  {
    if b == [] {
      assert b + s == s;
    } else {
      assert b[0] in b && forall u <- b[1..] :: u in b;
      assert (b + s)[1..] == b[1..] + s;
      SkipBlanks(b[1..], s);
    }
  }

  lemma SkipTo(b: Text, s: Text)
    requires Blanks(b) && (s == [] || !IsSpace(s[0]))
    ensures SkipSpace(b + s) == s
  {
    SkipBlanks(b, s);
  }

  lemma HexReads(u: Unit)
    requires IsHex(u)
    ensures HexValue(u) == Some(HexDigitMeans(u)) && HexDigitMeans(u) < 16
  {
  }

  lemma CharReads(c: Char, rest: Text)
    requires CharOk(c)
    ensures ParseString(CharText(c) + rest) == Prefixed(CharMeans(c), ParseString(rest))
  {
    match c
    case Plain(u) => PlainUnit(u, rest);
    case Short(letter) => SimpleEscapedUnit(letter, rest);
    case Hex(a, b, c, d) =>
      var s := [0x5C, 0x75, a, b, c, d] + rest;
      HexReads(a);
      HexReads(b);
      HexReads(c);
      HexReads(d);
      assert s[2..6] == [a, b, c, d] && s[6..] == rest;
  }

  lemma {:induction false} CharsRead(cs: seq<Char>, rest: Text)
    requires CharsOk(cs)
    ensures ParseString(CharsThen(cs, rest)) == Some((CharsMean(cs), rest))
  {
    if cs == [] {
      assert ([0x22] + rest)[1..] == rest;
    } else {
      assert cs[0] in cs && forall c <- cs[1..] :: c in cs;
      CharReads(cs[0], CharsThen(cs[1..], rest));
      CharsRead(cs[1..], rest);
    }
  }

  lemma {:induction false} DropsDigits(d: Text, rest: Text)
    requires (forall u <- d :: 0x30 <= u <= 0x39) && !StartsWithDigit(rest)
    ensures DropDigits(d + rest) == rest
  {
    if d == [] {
      assert d + rest == rest;
    } else {
      assert d[0] in d && forall u <- d[1..] :: u in d;
      assert (d + rest)[1..] == d[1..] + rest;
      DropsDigits(d[1..], rest);
    }
  }

  lemma ExponentReads(e: Option<Exponent>)
    requires e.Some? ==> e.value.letter in {0x65, 0x45} && Digits(e.value.digits)
                         && (e.value.sign.Some? ==> e.value.sign.value in {0x2B, 0x2D})
    ensures IsExponent(ExponentText(e)) && !StartsWithDigit(ExponentText(e))
  {
    if e.Some? {
      var t, d := ExponentText(e), e.value.digits;
      assert d[0] in d;
      DropsDigits(d, []);
      assert d + [] == d;
      if e.value.sign.Some? {
        assert t[1] == e.value.sign.value && t[2..] == d;
      } else {
        assert t[1..] == d;
      }
    }
  }

  lemma FractionReads(n: Parts)
    requires PartsOk(n)
    ensures IsFraction(FractionText(n)) && !StartsWithDigit(FractionText(n))
  {
    ExponentReads(n.exponent);
    if n.fraction.Some? {
      var d := n.fraction.value;
      assert d[0] in d;
      assert FractionText(n)[1..] == d + ExponentText(n.exponent);
      DropsDigits(d, ExponentText(n.exponent));
    } else {
      assert FractionText(n) == ExponentText(n.exponent);
    }
  }

  lemma NumberReads(n: Parts)
    requires PartsOk(n)
    ensures IsNumber(NumberText(n))
  {
    var t, f := NumberText(n), FractionText(n);
    var body := n.whole + f;
    FractionReads(n);
    NumberUnits(n);
    assert (if t[0] == MINUS then t[1..] else t) == body by {
      assert n.whole[0] in n.whole;
      if n.minus { assert t[1..] == body; } else { assert t == body; }
    }
    assert n.whole[0] in n.whole;
    if n.whole[0] == 0x30 {
      assert body[1..] == f;
    } else {
      DropsDigits(n.whole, f);
    }
  }

  lemma NumberUnits(n: Parts)
    requires PartsOk(n)
    ensures forall u <- NumberText(n) :: IsNumberUnit(u)
  {
    assert forall u <- ExponentText(n.exponent) :: IsNumberUnit(u);
    assert forall u <- FractionText(n) :: IsNumberUnit(u);
  }

  /** No value starts with white space or closes what holds it. */
  lemma ThenStarts(x: Syntax, rest: Text)
    requires Ok(x)
    ensures
      var s := Then(x, rest);
      s != [] && !IsSpace(s[0]) && s[0] != 0x5D && s[0] != 0x7D
  {
    if x.Number? {
      NumberUnits(x.parts);
      assert NumberText(x.parts) != [];
      assert NumberText(x.parts)[0] in NumberText(x.parts);
    }
  }

  /** What may stand after a value without becoming part of it. */
  predicate Ends(x: Syntax, rest: Text) { x.Number? ==> EndsNumber(rest) }

  lemma BlankEnds(b: Text, s: Text)
    requires Blanks(b) && EndsNumber(s)
    ensures EndsNumber(b + s)
  {
    if b != [] { assert b[0] in b && (b + s)[0] == b[0]; } else { assert b + s == s; }
  }

  /** A value is read as what it means, and the text after it is left. */
  lemma {:induction false} ValueReads(x: Syntax, rest: Text)
    requires Ok(x) && Ends(x, rest)
    ensures ParseValue(Then(x, rest)) == Some((Means(x), rest))
  {
    var s := Then(x, rest);
    match x
    case NullWord => WordStep(NULL_TEXT, Null, rest);
    case BoolWord(b) => WordStep(if b then TRUE_TEXT else FALSE_TEXT, Bool(b), rest);
    case Number(parts) =>
      NumberReads(parts);
      NumberStep(NumberText(parts), rest);
    case String(chars) =>
      CharsRead(chars, rest);
      assert s[1..] == CharsThen(chars, rest);
    case Array(blank, items) =>
      if items == [] {
        assert s[1..] == blank + ([0x5D] + rest);
        SkipTo(blank, [0x5D] + rest);
        assert ([0x5D] + rest)[1..] == rest;
      } else {
        assert s[1..] == ItemsThen(items, rest);
        ItemsRead(items, rest, []);
        assert [] + ItemsMean(items) == ItemsMean(items);
      }
    case Object(blank, members) =>
      if members == [] {
        assert s[1..] == blank + ([0x7D] + rest);
        SkipTo(blank, [0x7D] + rest);
        assert ([0x7D] + rest)[1..] == rest;
      } else {
        assert s[1..] == MembersThen(members, rest);
        MembersRead(members, rest, []);
      }
  }

  lemma {:induction false} ItemsRead(items: seq<Item>, rest: Text, acc: seq<Value>)
    requires items != [] && ItemsOk(items)
    ensures
      var s := SkipSpace(ItemsThen(items, rest));
      && s != [] && s[0] != 0x5D && ParseItems(s, acc) == Some((Arr(acc + ItemsMean(items)), rest))
    decreases items
  {
    hide Means, Then, ParseValue, SkipSpace, Blanks, Ok;
    var item := items[0];
    var next := if |items| == 1 then [0x5D] + rest else [0x2C] + ItemsThen(items[1..], rest);
    var tail := item.after + next;
    ThenStarts(item.value, tail);
    SkipTo(item.before, Then(item.value, tail));
    BlankEnds(item.after, next);
    ValueReads(item.value, tail);
    SkipTo(item.after, next);
    assert next[1..] == if |items| == 1 then rest else ItemsThen(items[1..], rest);
    if |items| > 1 {
      ItemsRead(items[1..], rest, acc + [Means(item.value)]);
      assert (acc + [Means(item.value)]) + ItemsMean(items[1..]) == acc + ItemsMean(items);
    } else {
      assert ItemsMean(items[1..]) == [];
      assert ItemsMean(items) == [Means(item.value)];
    }
  }

  lemma {:induction false} MembersRead(members: seq<Member>, rest: Text, acc: seq<Field>)
    requires members != [] && MembersOk(members) && DistinctKeys(acc)
    ensures
      var s := SkipSpace(MembersThen(members, rest));
      && s != [] && s[0] == 0x22 && ParseMembers(s, acc) == Some((Obj(FieldsMean(acc, members)), rest))
    decreases members
  {
    hide Means, WithField, CharsMean, CharsThen, Then, DistinctKeys, Put;
    hide ParseValue, ParseString, SkipSpace, Blanks, CharsOk, Ok;
    var m := members[0];
    var next := if |members| == 1 then [0x7D] + rest else [0x2C] + MembersThen(members[1..], rest);
    var tail := m.after + next;
    var value := m.gap + Then(m.value, tail);
    var colon := m.middle + ([0x3A] + value);
    SkipTo(m.before, [0x22] + CharsThen(m.key, colon));
    assert ([0x22] + CharsThen(m.key, colon))[1..] == CharsThen(m.key, colon);
    CharsRead(m.key, colon);
    SkipTo(m.middle, [0x3A] + value);
    assert ([0x3A] + value)[1..] == value;
    ThenStarts(m.value, tail);
    SkipTo(m.gap, Then(m.value, tail));
    BlankEnds(m.after, next);
    ValueReads(m.value, tail);
    SkipTo(m.after, next);
    assert next[1..] == if |members| == 1 then rest else MembersThen(members[1..], rest);
    PutIsWithField(acc, CharsMean(m.key), Means(m.value));
    if |members| > 1 {
      MembersRead(members[1..], rest, WithField(acc, CharsMean(m.key), Means(m.value)));
    }
  }

  lemma {:induction false} PutReplaces(fields: seq<Field>, i: nat, v: Value)
    requires i < |fields| && DistinctKeys(fields)
    ensures Put(fields, fields[i].key, v) == fields[i := Field(fields[i].key, v)]
    decreases i
  {
    if i > 0 {
      assert DistinctKeys(fields[1..]);
      PutReplaces(fields[1..], i - 1, v);
      assert fields == [fields[0]] + fields[1..];
    }
  }

  lemma PutIsWithField(fields: seq<Field>, k: Text, v: Value)
    requires DistinctKeys(fields)
    ensures Put(fields, k, v) == WithField(fields, k, v) && DistinctKeys(WithField(fields, k, v))
  {
    if forall f <- fields :: f.key != k {
      PutAppends(fields, k, v);
    } else {
      var f :| f in fields && f.key == k;
      var i :| 0 <= i < |fields| && fields[i] == f;
      PutReplaces(fields, i, v);
      OneReplaced(fields, i, v);
    }
  }

  lemma OneReplaced(fields: seq<Field>, i: nat, v: Value)
    requires i < |fields| && DistinctKeys(fields)
    ensures WithField(fields, fields[i].key, v) == fields[i := Field(fields[i].key, v)]
    ensures DistinctKeys(fields[i := Field(fields[i].key, v)])
  {
    var replaced := fields[i := Field(fields[i].key, v)];
    assert fields[i] in fields;
    forall j | 0 <= j < |fields|
      ensures (if fields[j].key == fields[i].key then Field(fields[i].key, v) else fields[j]) == replaced[j]
    {
      if j < i { assert fields[j].key != fields[i].key; } else if i < j { assert fields[i].key != fields[j].key; }
    }
  }

  /** White space around the value is skipped, and nothing else may stand there. */
  lemma DocumentReads(before: Text, x: Syntax, after: Text)
    requires Blanks(before) && Ok(x) && Blanks(after)
    ensures Parse(before + Then(x, after)) == Some(Means(x))
  {
    ThenStarts(x, after);
    SkipTo(before, Then(x, after));
    assert after + [] == after;
    BlankEnds(after, []);
    ValueReads(x, after);
    SkipTo(after, []);
  }

  // ---------------------------------------------------------------- nothing else is read

  lemma {:induction false} SkippedBlanks(s: Text) returns (b: Text)
    ensures Blanks(b) && s == b + SkipSpace(s)
  {
    b := [];
    if s != [] && IsSpace(s[0]) {
      b := SkippedBlanks(s[1..]);
      b := [s[0]] + b;
    }
  }

  lemma HexRead(u: Unit)
    requires HexValue(u).Some? && HexValue(u).value < 16
    ensures IsHex(u) && HexDigitMeans(u) == HexValue(u).value
  {
  }

  /** The first character of a string that is read. */
  lemma CharRead(s: Text) returns (c: Char, rest: Text)
    requires ParseString(s).Some? && s[0] != 0x22
    ensures CharOk(c) && s == CharText(c) + rest && ParseString(s) == Prefixed(CharMeans(c), ParseString(rest))
  {
    if s[0] != 0x5C {
      c, rest := Plain(s[0]), s[1..];
    } else if |s| >= 6 && s[1] == 0x75 {
      c, rest := Hex(s[2], s[3], s[4], s[5]), s[6..];
      HexRead(s[2]);
      HexRead(s[3]);
      HexRead(s[4]);
      HexRead(s[5]);
      assert s[2..6] == [s[2], s[3], s[4], s[5]];
    } else {
      c, rest := Short(s[1]), s[2..];
    }
  }

  lemma {:induction false} StringRead(s: Text) returns (cs: seq<Char>)
    requires ParseString(s).Some?
    ensures CharsOk(cs) && s == CharsThen(cs, ParseString(s).value.1) && CharsMean(cs) == ParseString(s).value.0
    decreases |s|
  {
    cs := [];
    if s[0] == 0x22 {
      assert s == [0x22] + s[1..];
    } else {
      var c, rest := CharRead(s);
      cs := StringRead(rest);
      cs := [c] + cs;
    }
  }

  lemma {:induction false} DigitsRead(t: Text) returns (d: Text)
    ensures (forall u <- d :: 0x30 <= u <= 0x39) && t == d + DropDigits(t) && !StartsWithDigit(DropDigits(t))
    ensures StartsWithDigit(t) ==> d != [] && d[0] == t[0]
  {
    d := [];
    if StartsWithDigit(t) {
      d := DigitsRead(t[1..]);
      d := [t[0]] + d;
    }
  }

  lemma ExponentRead(t: Text) returns (e: Option<Exponent>)
    requires IsExponent(t)
    ensures ExponentText(e) == t
    ensures e.Some? ==> e.value.letter in {0x65, 0x45} && Digits(e.value.digits)
                        && (e.value.sign.Some? ==> e.value.sign.value in {0x2B, 0x2D})
  {
    e := None;
    if t != [] {
      var signed := |t| > 1 && (t[1] == PLUS || t[1] == MINUS);
      var digits := if signed then t[2..] else t[1..];
      var d := DigitsRead(digits);
      assert d == digits;
      e := Some(Exponent(t[0], if signed then Some(t[1]) else None, digits));
    }
  }

  lemma FractionRead(t: Text) returns (fraction: Option<Text>, exponent: Option<Exponent>)
    requires IsFraction(t)
    ensures t == (if fraction.Some? then [0x2E] + fraction.value else []) + ExponentText(exponent)
    ensures fraction.Some? ==> Digits(fraction.value)
    ensures exponent.Some? ==> exponent.value.letter in {0x65, 0x45} && Digits(exponent.value.digits)
                               && (exponent.value.sign.Some? ==> exponent.value.sign.value in {0x2B, 0x2D})
  {
    hide IsExponent, ExponentText;
    fraction := None;
    if t != [] && t[0] == DOT {
      var d := DigitsRead(t[1..]);
      fraction := Some(d);
      exponent := ExponentRead(DropDigits(t[1..]));
    } else {
      exponent := ExponentRead(t);
    }
  }

  lemma NumberRead(t: Text) returns (n: Parts)
    requires IsNumber(t)
    ensures PartsOk(n) && NumberText(n) == t
  {
    var minus := t[0] == MINUS;
    var body := if minus then t[1..] else t;
    var whole := [body[0]];
    if body[0] != ZERO { whole := DigitsRead(body); }
    var rest := if body[0] == ZERO then body[1..] else DropDigits(body);
    assert body == whole + rest;
    var fraction, exponent := FractionRead(rest);
    n := Parts(minus, whole, fraction, exponent);
  }

  lemma {:induction false} RunRead(s: Text)
    ensures s == NumberRun(s).0 + NumberRun(s).1 && EndsNumber(NumberRun(s).1)
  {
    if s != [] && IsNumberUnit(s[0]) { RunRead(s[1..]); }
  }

  lemma WordRead(s: Text, word: Text, v: Value)
    requires word != [] && ParseWord(s, word, v).Some?
    ensures s == word + ParseWord(s, word, v).value.1 && ParseWord(s, word, v).value.0 == v
  {
  }

  /** A value that is read has a tree with this meaning and this text. */
  ghost predicate IsText(x: Syntax, s: Text, v: Value, rest: Text) {
    Ok(x) && s == Then(x, rest) && Means(x) == v && Ends(x, rest)
  }

  lemma {:induction false} ValueRead(s: Text) returns (x: Syntax)
    requires ParseValue(s).Some?
    ensures IsText(x, s, ParseValue(s).value.0, ParseValue(s).value.1)
    decreases |s|, 1
  {
    hide Means, ParseItems, ParseMembers;
    if s[0] == QUOTE {
      x := LiteralRead(s);
    } else if s[0] == OPEN_BRACE {
      x := ObjectRead(s);
    } else if s[0] == OPEN_BRACKET {
      x := ArrayRead(s);
    } else {
      x := AtomRead(s);
    }
  }

  lemma LiteralRead(s: Text) returns (x: Syntax)
    requires ParseValue(s).Some? && s[0] == QUOTE
    ensures IsText(x, s, ParseValue(s).value.0, ParseValue(s).value.1)
  {
    var cs := StringRead(s[1..]);
    x := String(cs);
  }

  lemma AtomRead(s: Text) returns (x: Syntax)
    requires ParseValue(s).Some? && s[0] != QUOTE && s[0] != OPEN_BRACE && s[0] != OPEN_BRACKET
    ensures IsText(x, s, ParseValue(s).value.0, ParseValue(s).value.1)
  {
    if s[0] == LOWER_T {
      x := BoolWord(true);
      WordRead(s, TRUE_TEXT, Bool(true));
    } else if s[0] == LOWER_F {
      x := BoolWord(false);
      WordRead(s, FALSE_TEXT, Bool(false));
    } else if s[0] == LOWER_N {
      x := NullWord;
      WordRead(s, NULL_TEXT, Null);
    } else {
      RunRead(s);
      var n := NumberRead(NumberRun(s).0);
      x := Number(n);
    }
  }

  lemma EmptyArrayRead(s: Text, b: Text)
    requires s != [] && s[0] == OPEN_BRACKET && Blanks(b) && s[1..] == b + SkipSpace(s[1..])
    requires StartsWith(SkipSpace(s[1..]), CLOSE_BRACKET)
    ensures ParseValue(s).Some? && IsText(Array(b, []), s, ParseValue(s).value.0, ParseValue(s).value.1)
  {
    var s1 := SkipSpace(s[1..]);
    assert s1 == [0x5D] + s1[1..];
  }

  lemma EmptyObjectRead(s: Text, b: Text)
    requires s != [] && s[0] == OPEN_BRACE && Blanks(b) && s[1..] == b + SkipSpace(s[1..])
    requires StartsWith(SkipSpace(s[1..]), CLOSE_BRACE)
    ensures ParseValue(s).Some? && IsText(Object(b, []), s, ParseValue(s).value.0, ParseValue(s).value.1)
  {
    var s1 := SkipSpace(s[1..]);
    assert s1 == [0x7D] + s1[1..];
  }

  lemma {:induction false} ArrayRead(s: Text) returns (x: Syntax)
    requires ParseValue(s).Some? && s[0] == OPEN_BRACKET
    ensures IsText(x, s, ParseValue(s).value.0, ParseValue(s).value.1)
    decreases |s|, 0
  {
    hide ItemsOk, SkipSpace, ParseItems, CharsOk;
    var b := SkippedBlanks(s[1..]);
    var s1 := SkipSpace(s[1..]);
    if StartsWith(s1, CLOSE_BRACKET) {
      x := Array(b, []);
      EmptyArrayRead(s, b);
    } else {
      var items := ItemsReadBack(b, s1, []);
      x := Array([], items);
      assert [] + ItemsMean(items) == ItemsMean(items);
    }
  }

  lemma {:induction false} ItemsReadBack(b: Text, s: Text, acc: seq<Value>) returns (items: seq<Item>)
    requires Blanks(b) && ParseItems(s, acc).Some?
    ensures items != [] && ItemsOk(items) && b + s == ItemsThen(items, ParseItems(s, acc).value.1)
    ensures ParseItems(s, acc).value.0 == Arr(acc + ItemsMean(items))
    decreases |s|, 2
  {
    var x := ValueRead(s);
    var (v, s4) := ParseValue(s).value;
    var after := SkippedBlanks(s4);
    var s5 := SkipSpace(s4);
    if StartsWith(s5, COMMA) {
      var gap := SkippedBlanks(s5[1..]);
      var more := ItemsReadBack(gap, SkipSpace(s5[1..]), acc + [v]);
      items := [Item(b, x, after)] + more;
      assert s5 == [0x2C] + s5[1..];
      ItemsCons(Item(b, x, after), more);
      assert (acc + [v]) + ItemsMean(more) == acc + ([v] + ItemsMean(more));
    } else {
      items := [Item(b, x, after)];
      assert s5 == [0x5D] + s5[1..];
      ItemsOne(Item(b, x, after));
    }
  }

  lemma ItemsCons(item: Item, more: seq<Item>)
    requires more != [] && ItemsOk(more) && Blanks(item.before) && Ok(item.value) && Blanks(item.after)
    ensures ItemsOk([item] + more) && ItemsMean([item] + more) == [Means(item.value)] + ItemsMean(more)
    ensures forall rest: Text :: ItemsThen([item] + more, rest) ==
              item.before + Then(item.value, item.after + ([0x2C] + ItemsThen(more, rest)))
  {
    assert ([item] + more)[1..] == more;
  }

  lemma ItemsOne(item: Item)
    requires Blanks(item.before) && Ok(item.value) && Blanks(item.after)
    ensures ItemsOk([item]) && ItemsMean([item]) == [Means(item.value)]
    ensures forall rest: Text :: ItemsThen([item], rest) == item.before + Then(item.value, item.after + ([0x5D] + rest))
  {
    assert [item][1..] == [];
  }

  lemma {:induction false} ObjectRead(s: Text) returns (x: Syntax)
    requires ParseValue(s).Some? && s[0] == OPEN_BRACE
    ensures IsText(x, s, ParseValue(s).value.0, ParseValue(s).value.1)
    decreases |s|, 0
  {
    hide MembersOk, FieldsMean, SkipSpace, ParseMembers, CharsOk;
    var b := SkippedBlanks(s[1..]);
    var s1 := SkipSpace(s[1..]);
    if StartsWith(s1, CLOSE_BRACE) {
      x := Object(b, []);
      EmptyObjectRead(s, b);
    } else {
      var members := MembersReadBack(b, s1, []);
      x := Object([], members);
    }
  }

  lemma {:induction false} MembersReadBack(b: Text, s: Text, acc: seq<Field>) returns (members: seq<Member>)
    requires Blanks(b) && ParseMembers(s, acc).Some? && DistinctKeys(acc)
    ensures members != [] && MembersOk(members) && b + s == MembersThen(members, ParseMembers(s, acc).value.1)
    ensures ParseMembers(s, acc).value.0 == Obj(FieldsMean(acc, members))
    decreases |s|, 2
  {
    hide Means, WithField, CharsMean, CharsThen, Then, DistinctKeys, Put, Ok;
    hide ParseValue, ParseString, SkipSpace, FieldsMean, MembersThen, MembersOk, Blanks, CharsOk;
    var key := StringRead(s[1..]);
    var (k, s2) := ParseString(s[1..]).value;
    var middle := SkippedBlanks(s2);
    var s3 := SkipSpace(s2);
    var gap := SkippedBlanks(s3[1..]);
    var x := ValueRead(SkipSpace(s3[1..]));
    var (v, s4) := ParseValue(SkipSpace(s3[1..])).value;
    var after := SkippedBlanks(s4);
    var s5 := SkipSpace(s4);
    var m := Member(b, key, middle, gap, x, after);
    assert s == [0x22] + s[1..] && s3 == [0x3A] + s3[1..];
    PutIsWithField(acc, k, v);
    if StartsWith(s5, COMMA) {
      var next := SkippedBlanks(s5[1..]);
      var more := MembersReadBack(next, SkipSpace(s5[1..]), Put(acc, k, v));
      members := [m] + more;
      assert s5 == [0x2C] + s5[1..];
      MembersCons(m, more);
    } else {
      members := [m];
      assert s5 == [0x7D] + s5[1..];
      MembersOne(m);
    }
  }

  predicate MemberOk(m: Member) {
    Blanks(m.before) && CharsOk(m.key) && Blanks(m.middle) && Blanks(m.gap) && Ok(m.value) && Blanks(m.after)
  }

  function MemberThen(m: Member, next: Text): Text {
    m.before + ([0x22] + CharsThen(m.key, m.middle + ([0x3A] + (m.gap + Then(m.value, m.after + next)))))
  }

  lemma MembersCons(m: Member, more: seq<Member>)
    requires MemberOk(m) && more != [] && MembersOk(more)
    ensures MembersOk([m] + more)
    ensures forall acc: seq<Field> ::
      FieldsMean(acc, [m] + more) == FieldsMean(WithField(acc, CharsMean(m.key), Means(m.value)), more)
    ensures forall rest: Text :: MembersThen([m] + more, rest) == MemberThen(m, [0x2C] + MembersThen(more, rest))
  {
    assert ([m] + more)[1..] == more;
  }

  lemma MembersOne(m: Member)
    requires MemberOk(m)
    ensures MembersOk([m])
    ensures forall acc: seq<Field> :: FieldsMean(acc, [m]) == WithField(acc, CharsMean(m.key), Means(m.value))
    ensures forall rest: Text :: MembersThen([m], rest) == MemberThen(m, [0x7D] + rest)
  {
    assert [m][1..] == [];
  }

  // ---------------------------------------------------------------- the parser is the grammar

  /** The text is this value with white space around it, and v is what it means. */
  ghost predicate IsDocument(s: Text, v: Value, before: Text, x: Syntax, after: Text) {
    Blanks(before) && Ok(x) && Blanks(after) && s == before + Then(x, after) && v == Means(x)
  }

  /** JSON.parse gives a value exactly for the texts that section 2 of RFC 8259 describes, and it is the value they
      write. */
  lemma ParseIsGrammar(s: Text, v: Value)
    ensures Parse(s) == Some(v) <==> exists before: Text, x: Syntax, after: Text :: IsDocument(s, v, before, x, after)
  {
    hide Means, Then, Ok;
    if Parse(s) == Some(v) {
      var before := SkippedBlanks(s);
      var x := ValueRead(SkipSpace(s));
      var after := SkippedBlanks(ParseValue(SkipSpace(s)).value.1);
      assert after + [] == after;
      assert IsDocument(s, v, before, x, after);
    }
    forall before: Text, x: Syntax, after: Text | IsDocument(s, v, before, x, after) ensures Parse(s) == Some(v) {
      DocumentReads(before, x, after);
    }
  }

  // ---------------------------------------------------------------- objects as maps

  /** The value of the last member with this key. */
  function LastMember(members: seq<Member>, k: Text): Option<Value>
    requires MembersOk(members)
  {
    if members == [] then None
    else if LastMember(members[1..], k).Some? then LastMember(members[1..], k)
    else if CharsMean(members[0].key) == k then Some(Means(members[0].value))
    else None
  }

  function ValueAt(fields: seq<Field>, k: Text): Option<Value> {
    if fields == [] then None else if fields[0].key == k then Some(fields[0].value) else ValueAt(fields[1..], k)
  }

  lemma {:induction false} ValueAtIs(fields: seq<Field>, i: nat)
    requires i < |fields| && DistinctKeys(fields)
    ensures ValueAt(fields, fields[i].key) == Some(fields[i].value)
    decreases i
  {
    if i > 0 {
      assert DistinctKeys(fields[1..]);
      ValueAtIs(fields[1..], i - 1);
    }
  }

  lemma {:induction false} NoValueAt(fields: seq<Field>, k: Text)
    requires forall f <- fields :: f.key != k
    ensures ValueAt(fields, k) == None
  {
    if fields != [] { NoValueAt(fields[1..], k); }
  }

  lemma FieldSet(fields: seq<Field>, k: Text, v: Value, q: Text)
    requires DistinctKeys(fields)
    ensures ValueAt(WithField(fields, k, v), q) == if q == k then Some(v) else ValueAt(fields, q)
  {
    PutIsWithField(fields, k, v);
    PutSets(fields, k, v, q);
  }

  lemma {:induction false} PutSets(fields: seq<Field>, k: Text, v: Value, q: Text)
    ensures ValueAt(Put(fields, k, v), q) == if q == k then Some(v) else ValueAt(fields, q)
  {
    if fields != [] { PutSets(fields[1..], k, v, q); }
  }

  /** An object means each key with its last value; its keys are distinct. */
  lemma {:induction false} FieldsAre(acc: seq<Field>, members: seq<Member>, k: Text)
    requires MembersOk(members) && DistinctKeys(acc)
    ensures DistinctKeys(FieldsMean(acc, members))
    ensures ValueAt(FieldsMean(acc, members), k) ==
              if LastMember(members, k).Some? then LastMember(members, k) else ValueAt(acc, k)
    decreases |members|
  {
    hide WithField, DistinctKeys, CharsMean, Means;
    if members != [] {
      var key, v := CharsMean(members[0].key), Means(members[0].value);
      PutIsWithField(acc, key, v);
      FieldSet(acc, key, v, k);
      FieldsAre(WithField(acc, key, v), members[1..], k);
    }
  }
}
