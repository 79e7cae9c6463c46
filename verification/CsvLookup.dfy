/** The message catalog published as a CSV lookup, and a CSV parser that recovers it. */
module CsvLookup {
  import opened Base
  import opened Text
  import opened Sorting
  import opened JsonRoundTrip

  // ---------------------------------------------------------------- catalog and rows

  /** A catalog entry; of its parameters only whether each is redacted matters here. */
  datatype Entry = Entry(key: Text, id: Text, template: Text, hint: Text, params: map<Text, bool>)

  /** The catalog's entries; each key occurs once. */
  type Catalog = seq<Entry>

  predicate DistinctKeys(c: Catalog) { forall i, j :: 0 <= i < j < |c| ==> c[i].key != c[j].key }

  datatype Row = Row(id: Text, key: Text, template: Text, hint: Text, params: Text, redacted: Text)

  /** The placeholder names of a template, in order, each once. */
  type Placeholders = Text -> seq<Text>

  function EntryOrder(): (Entry, Entry) -> bool {
    (e: Entry, f: Entry) => TextLess(e.key, f.key)
  }

  function SortByKey(c: Catalog): Catalog { Sort(EntryOrder(), c) }

  function Redacted(params: map<Text, bool>, names: seq<Text>): seq<Text> {
    if names == [] then []
    else (if names[0] in params && params[names[0]] then [names[0]] else []) + Redacted(params, names[1..])
  }

  function ToRow(p: Placeholders, e: Entry): Row {
    var names := p(e.template);
    Row(e.id, e.key, e.template, e.hint, Join(names, [COMMA]), Join(Redacted(e.params, names), [COMMA]))
  }

  function ToLookupRows(p: Placeholders, c: Catalog): seq<Row> {
    var sorted := SortByKey(c);
    seq(|sorted|, i requires 0 <= i < |sorted| => ToRow(p, sorted[i]))
  }

  // ---------------------------------------------------------------- printing

  predicate NeedsQuotes(value: Text) { QUOTE in value || COMMA in value || LF in value || CR in value }

  function DoubleQuotes(value: Text): Text {
    if value == [] then []
    else (if value[0] == QUOTE then [QUOTE, QUOTE] else [value[0]]) + DoubleQuotes(value[1..])
  }

  function CsvField(value: Text): Text {
    if NeedsQuotes(value) then [QUOTE] + (DoubleQuotes(value) + [QUOTE]) else value
  }

  type Record = seq<Text>

  function PrintRecord(r: Record): Text {
    if r == [] then [] else if |r| == 1 then CsvField(r[0]) else CsvField(r[0]) + ([COMMA] + PrintRecord(r[1..]))
  }

  /** Each record on a line of its own. */
  function PrintRecords(rs: seq<Record>): Text {
    if rs == [] then [] else PrintRecord(rs[0]) + ([LF] + PrintRecords(rs[1..]))
  }

  const HEADER: Record := [
    [0x69, 0x64],                                             // id
    [0x6B, 0x65, 0x79],                                       // key
    [0x74, 0x65, 0x6D, 0x70, 0x6C, 0x61, 0x74, 0x65],         // template
    [0x68, 0x69, 0x6E, 0x74],                                 // hint
    [0x70, 0x61, 0x72, 0x61, 0x6D, 0x73],                     // params
    [0x72, 0x65, 0x64, 0x61, 0x63, 0x74, 0x65, 0x64]]         // redacted

  function Fields(r: Row): Record { [r.id, r.key, r.template, r.hint, r.params, r.redacted] }

  function RecordsOf(rows: seq<Row>): seq<Record> {
    seq(|rows|, i requires 0 <= i < |rows| => Fields(rows[i]))
  }

  function ToCsv(p: Placeholders, c: Catalog): Text {
    PrintRecords([HEADER] + RecordsOf(ToLookupRows(p, c)))
  }

  // ---------------------------------------------------------------- a parser: section 2 of RFC 4180, or a bare LF as line end

  predicate IsTextData(u: Unit) { u != QUOTE && u != COMMA && u != LF && u != CR }

  /** The rest of a quoted field, after its opening quote. */
  function ParseQuoted(s: Text): (r: Option<(Text, Text)>)
    ensures r.Some? ==> |r.value.1| < |s|
  {
    if s == [] then None
    else if s[0] != QUOTE then Prefixed(s[0], ParseQuoted(s[1..]))
    else if |s| > 1 && s[1] == QUOTE then Prefixed(QUOTE, ParseQuoted(s[2..]))
    else Some(([], s[1..]))
  }

  function Prefixed(u: Unit, r: Option<(Text, Text)>): Option<(Text, Text)> {
    if r.None? then None else Some(([u] + r.value.0, r.value.1))
  }

  function ParsePlain(s: Text): (r: (Text, Text))
    ensures |r.1| <= |s|
  {
    if s == [] || !IsTextData(s[0]) then ([], s)
    else
      var (t, rest) := ParsePlain(s[1..]);
      ([s[0]] + t, rest)
  }

  function ParseField(s: Text): (r: Option<(Text, Text)>)
    ensures r.Some? ==> |r.value.1| <= |s|
  {
    if s != [] && s[0] == QUOTE then ParseQuoted(s[1..]) else Some(ParsePlain(s))
  }

  /** What follows a line end; none if there is no line end here. */
  function AfterLineEnd(s: Text): (r: Option<Text>)
    ensures r.Some? ==> |r.value| < |s|
  {
    if s != [] && s[0] == LF then Some(s[1..])
    else if |s| > 1 && s[0] == CR && s[1] == LF then Some(s[2..])
    else None
  }

  function ParseRecord(s: Text): (r: Option<(Record, Text)>)
    ensures r.Some? ==> |r.value.1| <= |s|
    decreases |s|
  {
    match ParseField(s)
    case None => None
    case Some((field, rest)) =>
      if rest != [] && rest[0] == COMMA then
        match ParseRecord(rest[1..])
        case None => None
        case Some((more, last)) => Some(([field] + more, last))
      else Some(([field], rest))
  }

  /** Records up to the end of the text; the last one may or may not end its line. */
  function ParseRecords(s: Text): Option<seq<Record>>
    decreases |s|
  {
    if s == [] then Some([])
    else
      match ParseRecord(s)
      case None => None
      case Some((r, rest)) =>
        if rest == [] then Some([r])
        else
          match AfterLineEnd(rest)
          case None => None
          case Some(next) =>
            match ParseRecords(next)
            case None => None
            case Some(more) => Some([r] + more)
  }

  // ---------------------------------------------------------------- the inverse

  /** Nothing that could belong to the field comes next. */
  predicate EndsField(rest: Text) { rest != [] && (rest[0] == COMMA || rest[0] == LF) }

  lemma {:induction false} ParseDoubled(value: Text, rest: Text)
    requires EndsField(rest)
    ensures ParseQuoted(DoubleQuotes(value) + ([QUOTE] + rest)) == Some((value, rest))
  {
    if value == [] {
      assert DoubleQuotes(value) + ([QUOTE] + rest) == [QUOTE] + rest;
      ClosingQuote(rest);
    } else {
      var tail := DoubleQuotes(value[1..]) + ([QUOTE] + rest);
      ParseDoubled(value[1..], rest);
      Assoc(if value[0] == QUOTE then [QUOTE, QUOTE] else [value[0]], DoubleQuotes(value[1..]), [QUOTE] + rest);
      InsideQuotes(value[0], tail);
      assert value == [value[0]] + value[1..];
    }
  }

  lemma ClosingQuote(rest: Text)
    requires EndsField(rest)
    ensures ParseQuoted([QUOTE] + rest) == Some(([], rest))
  {
    assert ([QUOTE] + rest)[1..] == rest;
  }

  lemma InsideQuotes(u: Unit, tail: Text)
    ensures ParseQuoted((if u == QUOTE then [QUOTE, QUOTE] else [u]) + tail) == Prefixed(u, ParseQuoted(tail))
  {
    if u == QUOTE {
      assert ([QUOTE, QUOTE] + tail)[2..] == tail;
    } else {
      assert ([u] + tail)[1..] == tail;
    }
  }

  lemma {:induction false} ParseUnquoted(value: Text, rest: Text)
    requires (forall i :: 0 <= i < |value| ==> IsTextData(value[i])) && EndsField(rest)
    ensures ParsePlain(value + rest) == (value, rest)
  {
    if value == [] {
      assert value + rest == rest;
    } else {
      assert (value + rest)[0] == value[0] && (value + rest)[1..] == value[1..] + rest;
      ParseUnquoted(value[1..], rest);
      assert value == [value[0]] + value[1..];
    }
  }

  lemma ParsePrintedField(value: Text, rest: Text)
    requires EndsField(rest)
    ensures ParseField(CsvField(value) + rest) == Some((value, rest))
  {
    if NeedsQuotes(value) {
      Assoc([QUOTE], DoubleQuotes(value) + [QUOTE], rest);
      Assoc(DoubleQuotes(value), [QUOTE], rest);
      QuotedField(DoubleQuotes(value) + ([QUOTE] + rest));
      ParseDoubled(value, rest);
    } else {
      forall i | 0 <= i < |value| ensures IsTextData(value[i]) { assert value[i] in value; }
      ParseUnquoted(value, rest);
      assert (value + rest)[0] == if value == [] then rest[0] else value[0];
    }
  }

  lemma QuotedField(s: Text)
    ensures ParseField([QUOTE] + s) == ParseQuoted(s)
  {
    assert ([QUOTE] + s)[1..] == s;
  }

  lemma {:induction false} ParsePrintedRecord(r: Record, rest: Text)
    requires r != []
    ensures ParseRecord(PrintRecord(r) + ([LF] + rest)) == Some((r, [LF] + rest))
  {
    if |r| == 1 {
      ParsePrintedField(r[0], [LF] + rest);
      assert r == [r[0]];
    } else {
      var tail := PrintRecord(r[1..]) + ([LF] + rest);
      Assoc(CsvField(r[0]), [COMMA] + PrintRecord(r[1..]), [LF] + rest);
      Assoc([COMMA], PrintRecord(r[1..]), [LF] + rest);
      ParsePrintedField(r[0], [COMMA] + tail);
      assert ([COMMA] + tail)[1..] == tail;
      ParsePrintedRecord(r[1..], rest);
      assert r == [r[0]] + r[1..];
    }
  }

  lemma ParseNothing()
    ensures ParseRecords(PrintRecords([])) == Some([])
  {
  }

  lemma PrintStep(rs: seq<Record>)
    requires rs != []
    ensures PrintRecords(rs) == PrintRecord(rs[0]) + ([LF] + PrintRecords(rs[1..])) && PrintRecords(rs) != []
  {
  }

  lemma RecordStep(s: Text, r: Record, rest: Text)
    requires s != [] && ParseRecord(s) == Some((r, [LF] + rest))
    ensures ParseRecords(s) == if ParseRecords(rest).None? then None else Some([r] + ParseRecords(rest).value)
  {
    assert ([LF] + rest)[1..] == rest;
  }

  lemma {:induction false} ParsePrintedRecords(rs: seq<Record>)
    requires forall i :: 0 <= i < |rs| ==> rs[i] != []
    ensures ParseRecords(PrintRecords(rs)) == Some(rs)
  {
    hide *;
    if rs == [] {
      ParseNothing();
    } else {
      var rest := PrintRecords(rs[1..]);
      ParsePrintedRecord(rs[0], rest);
      PrintStep(rs);
      RecordStep(PrintRecords(rs), rs[0], rest);
      ParsePrintedRecords(rs[1..]);
      assert rs == [rs[0]] + rs[1..];
    }
  }

  /** A field stands in quotes exactly if it holds a quote, a comma or a line break. */
  lemma QuotedExactlyIf(value: Text)
    ensures CsvField(value) == value <==> 0x22 !in value && 0x2C !in value && 0x0A !in value && 0x0D !in value
    ensures CsvField(value) != value ==> CsvField(value)[0] == 0x22 && CsvField(value)[|CsvField(value)| - 1] == 0x22
  {
    if NeedsQuotes(value) { QuotingGrows(value); }
  }

  lemma {:induction false} QuotingGrows(value: Text)
    ensures |DoubleQuotes(value)| >= |value|
  {
    if value != [] { QuotingGrows(value[1..]); }
  }

  lemma {:induction false} EndsWithNewline(rs: seq<Record>)
    requires rs != []
    ensures PrintRecords(rs) != [] && PrintRecords(rs)[|PrintRecords(rs)| - 1] == 0x0A
  {
    hide PrintRecord;
    if |rs| > 1 { EndsWithNewline(rs[1..]); } else { assert rs[1..] == []; }
  }

  lemma HeaderIs()
    ensures HEADER == [Ascii("id"), Ascii("key"), Ascii("template"), Ascii("hint"), Ascii("params"), Ascii("redacted")]
  {
    assert |Ascii("id")| == 2 && |Ascii("key")| == 3 && |Ascii("hint")| == 4;
    assert HEADER[0] == Ascii("id") && HEADER[1] == Ascii("key") && HEADER[2] == Ascii("template");
    assert HEADER[3] == Ascii("hint") && HEADER[4] == Ascii("params") && HEADER[5] == Ascii("redacted");
  }

  /** The parser recovers from the text exactly the header and, for each entry of the catalog in the order of the
      keys, its id, key, template and hint, its placeholders and the redacted ones among them, whatever they hold.
      The text ends with a line feed. */
  lemma CsvInverse(p: Placeholders, c: Catalog)
    ensures
      var records, sorted := ParseRecords(ToCsv(p, c)), SortByKey(c);
      && records.Some? && |records.value| == 1 + |c| && |sorted| == |c|
      && records.value[0] == [Ascii("id"), Ascii("key"), Ascii("template"), Ascii("hint"), Ascii("params"), Ascii("redacted")]
      && forall i :: 0 <= i < |c| ==>
           var e := sorted[i];
           records.value[i + 1] == [e.id, e.key, e.template, e.hint, Join(p(e.template), [0x2C]),
                                    Join(Redacted(e.params, p(e.template)), [0x2C])]
    ensures ToCsv(p, c)[|ToCsv(p, c)| - 1] == 0x0A
  {
    PrintedInverse(p, c);
    HeaderIs();
    EndsWithNewline([HEADER] + RecordsOf(ToLookupRows(p, c)));
    var rows := ToLookupRows(p, c);
    assert |multiset(SortByKey(c))| == |multiset(c)|;
    forall i | 0 <= i < |c|
      ensures ([HEADER] + RecordsOf(rows))[i + 1] == Fields(ToRow(p, SortByKey(c)[i]))
    {
      assert rows[i] == ToRow(p, SortByKey(c)[i]);
    }
  }

  lemma PrintedInverse(p: Placeholders, c: Catalog)
    ensures ParseRecords(ToCsv(p, c)) == Some([HEADER] + RecordsOf(ToLookupRows(p, c)))
  {
    var records := [HEADER] + RecordsOf(ToLookupRows(p, c));
    forall i | 0 <= i < |records| ensures records[i] != [] {
      if i > 0 { assert records[i] == Fields(ToLookupRows(p, c)[i - 1]); }
    }
    ParsePrintedRecords(records);
  }

  /** And the records determine the rows. */
  lemma RecordsDetermineRows(a: seq<Row>, b: seq<Row>)
    requires RecordsOf(a) == RecordsOf(b)
    ensures a == b
  {
    forall i | 0 <= i < |a| ensures |a| == |b| && a[i] == b[i] {
      assert |a| == |RecordsOf(a)| && |b| == |RecordsOf(b)|;
      var x, y := RecordsOf(a)[i], RecordsOf(b)[i];
      assert x[0] == y[0] && x[1] == y[1] && x[2] == y[2] && x[3] == y[3] && x[4] == y[4] && x[5] == y[5];
    }
    assert |a| == |RecordsOf(a)| && |b| == |RecordsOf(b)|;
  }

  /** A joined column splits back into its names, which hold no comma. */
  function SplitCommas(t: Text): (names: seq<Text>)
    ensures names != []
  {
    if t == [] then [[]]
    else
      var rest := SplitCommas(t[1..]);
      if t[0] == COMMA then [[]] + rest else [[t[0]] + rest[0]] + rest[1..]
  }

  lemma {:induction false} SplitName(name: Text, t: Text)
    requires COMMA !in name
    ensures SplitCommas(name) == [name] && SplitCommas(name + ([COMMA] + t)) == [name] + SplitCommas(t)
  {
    if name == [] {
      assert name + ([COMMA] + t) == [COMMA] + t && ([COMMA] + t)[1..] == t;
    } else {
      assert name[0] in name && forall u <- name[1..] :: u in name;
      SplitName(name[1..], t);
      assert (name + ([COMMA] + t))[1..] == name[1..] + ([COMMA] + t);
      assert name == [name[0]] + name[1..];
    }
  }

  lemma {:induction false} ColumnGivesNames(names: seq<Text>)
    requires names != [] && forall i :: 0 <= i < |names| ==> COMMA !in names[i]
    ensures SplitCommas(Join(names, [COMMA])) == names
  {
    if |names| == 1 {
      SplitName(names[0], []);
      assert names == [names[0]];
    } else {
      ColumnGivesNames(names[1..]);
      SplitName(names[0], Join(names[1..], [COMMA]));
      assert names == [names[0]] + names[1..];
    }
  }

  /** The last column names exactly the redacted ones among the placeholders. */
  lemma {:induction false} RedactedNames(params: map<Text, bool>, names: seq<Text>, n: Text)
    ensures n in Redacted(params, names) <==> n in names && n in params && params[n]
    ensures Redacted(params, names + [n]) == Redacted(params, names) + if n in params && params[n] then [n] else []
  {
    if names == [] {
      assert [] + [n] == [n] && [n][1..] == [];
    } else {
      assert (names + [n])[1..] == names[1..] + [n];
      RedactedNames(params, names[1..], n);
      assert names == [names[0]] + names[1..];
    }
  }

  // ---------------------------------------------------------------- the order of the rows

  predicate Increasing(c: Catalog) {
    forall i, j :: 0 <= i < j < |c| ==> TextLess(c[i].key, c[j].key)
  }

  lemma EntryOrderIsOrder()
    ensures IsOrder(EntryOrder())
  {
    forall e: Entry, f: Entry ensures !(EntryOrder()(e, f) && EntryOrder()(f, e)) { LessIsTotal(e.key, f.key); }
    forall e: Entry, f: Entry, g: Entry | !EntryOrder()(f, e) && !EntryOrder()(g, f) ensures !EntryOrder()(g, e) {
      NotLess(e.key, f.key, g.key);
    }
  }

  /** One row for each entry, by increasing key in code units. */
  lemma RowsAreSorted(c: Catalog)
    requires DistinctKeys(c)
    ensures multiset(SortByKey(c)) == multiset(c) && Increasing(SortByKey(c))
  {
    EntryOrderIsOrder();
    SortSorts(EntryOrder(), c);
    var sorted := SortByKey(c);
    forall i, j | 0 <= i < j < |sorted| ensures TextLess(sorted[i].key, sorted[j].key) {
      assert !EntryOrder()(sorted[j], sorted[i]);
      LessIsTotal(sorted[i].key, sorted[j].key);
      KeysDiffer(c, sorted, i, j);
    }
  }

  lemma KeysDiffer(c: Catalog, sorted: Catalog, i: nat, j: nat)
    requires DistinctKeys(c) && multiset(sorted) == multiset(c) && i < j < |sorted|
    ensures sorted[i].key != sorted[j].key
  {
    assert sorted[i] in multiset(c) && sorted[j] in multiset(c);
    var m :| 0 <= m < |c| && c[m] == sorted[i];
    var n :| 0 <= n < |c| && c[n] == sorted[j];
    if m == n {
      TwiceMeans(sorted, i, j);
      OccursOnce(c, sorted[i]);
      assert false;
    }
  }

  lemma SameFirst(a: Catalog, b: Catalog)
    requires Increasing(a) && Increasing(b) && multiset(a) == multiset(b) && a != []
    ensures b != [] && a[0] == b[0]
  {
    assert a[0] in multiset(b);
    var k :| 0 <= k < |b| && b[k] == a[0];
    assert b[0] in multiset(a);
    var m :| 0 <= m < |a| && a[m] == b[0];
    LessIsTotal(a[0].key, b[0].key);
  }

  lemma SameRest(a: Catalog, b: Catalog)
    requires a != [] && b != [] && a[0] == b[0] && multiset(a) == multiset(b)
    ensures multiset(a[1..]) == multiset(b[1..])
  {
    assert a == [a[0]] + a[1..] && b == [b[0]] + b[1..];
    assert multiset(a) - multiset{a[0]} == multiset(a[1..]);
    assert multiset(b) - multiset{a[0]} == multiset(b[1..]);
  }

  lemma {:induction false} IncreasingIsUnique(a: Catalog, b: Catalog)
    requires Increasing(a) && Increasing(b) && multiset(a) == multiset(b)
    ensures a == b
    decreases |a|
  {
    if a == [] {
      assert |multiset(b)| == |b|;
    } else {
      SameFirst(a, b);
      SameRest(a, b);
      IncreasingIsUnique(a[1..], b[1..]);
    }
  }

  /** The text does not depend on the order in which the catalog holds its entries. */
  lemma CsvIsStable(p: Placeholders, c: Catalog, d: Catalog)
    requires DistinctKeys(c) && DistinctKeys(d) && multiset(c) == multiset(d)
    ensures ToCsv(p, c) == ToCsv(p, d)
  {
    RowsAreSorted(c);
    RowsAreSorted(d);
    IncreasingIsUnique(SortByKey(c), SortByKey(d));
  }
}
