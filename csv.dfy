/** The popup's CSV field escaping (`escapeCSV` in `gmap-scraper/popup.js`)
    and a reader for the text it produces, in the style of section 2 of
    RFC 4180: fields separated by commas, records by line feeds, a field
    that contains a comma, a double quote or a line feed enclosed in double
    quotes with each inner double quote doubled (rules 6 and 7). The reader
    is the independent partner against which the escaping and the export are
    proved: reading the produced text gives back exactly the fields written. */
module Csv {
  import opened Wrappers

  /** `replace(/"/g, '""')`: every double quote doubled. */
  function DoubleQuotes(s: string): (r: string)
    ensures |r| >= |s|
  {
    if s == [] then []
    else (if s[0] == '"' then "\"\"" else [s[0]]) + DoubleQuotes(s[1..])
  }

  /** The characters whose presence makes `escapeCSV` quote a value. A lone
      carriage return is not among them. */
  predicate NeedsQuoting(s: string) {
    ',' in s || '"' in s || '\n' in s
  }

  /** `escapeCSV`: `null` and `undefined` (here `None`) become `''`; a value
      with a comma, double quote or line feed is quoted with its double quotes
      doubled; any other value is returned as it is. */
  function EscapeCsv(value: Option<string>): string {
    match value
    case None => ""
    case Some(s) => if NeedsQuoting(s) then "\"" + DoubleQuotes(s) + "\"" else s
  }

  /** `Array.prototype.join` with a one-character separator. */
  function Join(parts: seq<string>, sep: char): string {
    if parts == [] then ""
    else if |parts| == 1 then parts[0]
    else parts[0] + [sep] + Join(parts[1..], sep)
  }

  /** Every field escaped. */
  function EscapeAll(fields: seq<string>): (r: seq<string>)
    ensures |r| == |fields|
  {
    seq(|fields|, i requires 0 <= i < |fields| => EscapeCsv(Some(fields[i])))
  }

  /** The text of one record: its escaped fields joined by commas. */
  function RecordText(fields: seq<string>): string {
    Join(EscapeAll(fields), ',')
  }

  /** The text of each record. */
  function RecordLines(rows: seq<seq<string>>): (r: seq<string>)
    ensures |r| == |rows|
  {
    seq(|rows|, i requires 0 <= i < |rows| => RecordText(rows[i]))
  }

  // ---------------------------------------------------------------------
  // The reader
  // ---------------------------------------------------------------------

  /** What may follow a field: the end of the text, a comma or a line feed. */
  predicate IsBoundary(rest: string) {
    rest == [] || rest[0] == ',' || rest[0] == '\n'
  }

  /** An unquoted field: everything up to the next comma, line feed or the
      end of the text. */
  function ScanPlain(t: string): (r: (string, string))
    ensures r.0 + r.1 == t
    ensures IsBoundary(r.1)
  {
    if t == [] || t[0] == ',' || t[0] == '\n' then ([], t)
    else
      var (f, rest) := ScanPlain(t[1..]);
      ([t[0]] + f, rest)
  }

  /** The body of a quoted field, after its opening quote: `""` stands for
      one double quote, a single `"` closes the field and must be followed by
      a boundary. `None` when the field is never closed or the closing quote
      is followed by anything else. */
  function ParseQuoted(t: string): (r: Option<(string, string)>)
    ensures r.Some? ==> |r.value.1| < |t| && IsBoundary(r.value.1)
  {
    if t == [] then None
    else if t[0] == '"' then
      if |t| > 1 && t[1] == '"' then
        match ParseQuoted(t[2..])
        case None => None
        case Some((f, rest)) => Some(("\"" + f, rest))
      else if IsBoundary(t[1..]) then Some(([], t[1..]))
      else None
    else
      match ParseQuoted(t[1..])
      case None => None
      case Some((f, rest)) => Some(([t[0]] + f, rest))
  }

  /** One field and the text after it. */
  function ParseField(t: string): (r: Option<(string, string)>)
    ensures r.Some? ==> |r.value.1| <= |t| && IsBoundary(r.value.1)
  {
    if t != [] && t[0] == '"' then ParseQuoted(t[1..]) else Some(ScanPlain(t))
  }

  /** One record (at least one field) and the text after it, which is empty
      or starts with the line feed that ends the record. */
  function ParseRecord(t: string): (r: Option<(seq<string>, string)>)
    ensures r.Some? ==> |r.value.0| >= 1 && |r.value.1| <= |t|
    ensures r.Some? ==> r.value.1 == [] || r.value.1[0] == '\n'
    decreases |t|
  {
    match ParseField(t)
    case None => None
    case Some((f, rest)) =>
      if rest != [] && rest[0] == ',' then
        match ParseRecord(rest[1..])
        case None => None
        case Some((fs, rest')) => Some(([f] + fs, rest'))
      else Some(([f], rest))
  }

  /** A whole text: records separated by line feeds. */
  function ParseCsv(t: string): Option<seq<seq<string>>>
    decreases |t|
  {
    match ParseRecord(t)
    case None => None
    case Some((fs, rest)) =>
      if rest == [] then Some([fs])
      else
        match ParseCsv(rest[1..])
        case None => None
        case Some(rows) => Some([fs] + rows)
  }

  // ---------------------------------------------------------------------
  // Properties of escaping
  // ---------------------------------------------------------------------

  /** The cases of `escapeCSV`: a missing value becomes `''`, a value with
      nothing to quote is unchanged, and any other value is enclosed in one
      pair of double quotes with its own double quotes doubled, so that
      reading the quoted field from just after its opening quote gives the
      value back and consumes the whole text. */
  lemma EscapeCsvCases(s: string)
    ensures EscapeCsv(None) == ""
    ensures !NeedsQuoting(s) ==> EscapeCsv(Some(s)) == s
    ensures NeedsQuoting(s) ==>
      var e := EscapeCsv(Some(s));
      && |e| >= |s| + 2 && e[0] == '"' && e[|e| - 1] == '"'
      && ParseQuoted(e[1..]) == Some((s, ""))
  {
    if NeedsQuoting(s) {
      var e := EscapeCsv(Some(s));
      assert e[1..] == DoubleQuotes(s) + "\"" + "";
      QuotedRoundTrip(s, "");
    }
  }

  /** Doubling adds exactly one character per double quote and keeps every
      other character. */
  lemma {:induction false} DoubleQuotesKeepsOthers(s: string)
    ensures '"' !in s ==> DoubleQuotes(s) == s
    ensures '"' in s ==> |DoubleQuotes(s)| > |s|
    ensures |DoubleQuotes(s)| == |s| + multiset(s)['"']
  {
    if s != [] {
      DoubleQuotesKeepsOthers(s[1..]);
      assert s == [s[0]] + s[1..];
      assert multiset(s) == multiset([s[0]]) + multiset(s[1..]);
    }
  }

  /** The body of a quoted field reads back as the value it was made from. */
  lemma {:induction false} QuotedRoundTrip(s: string, c: string)
    requires IsBoundary(c)
    ensures ParseQuoted(DoubleQuotes(s) + "\"" + c) == Some((s, c))
  {
    var t := DoubleQuotes(s) + "\"" + c;
    if s == [] {
      assert t == "\"" + c;
      assert t[1..] == c;
    } else {
      QuotedRoundTrip(s[1..], c);
      var t' := DoubleQuotes(s[1..]) + "\"" + c;
      if s[0] == '"' {
        assert t == "\"\"" + t';
        assert t[2..] == t';
        assert "\"" + s[1..] == s;
      } else {
        assert t == [s[0]] + t';
        assert t[1..] == t';
        assert [s[0]] + s[1..] == s;
      }
    }
  }

  /** A value with no comma or line feed reads back unchanged up to the
      boundary that follows it. */
  lemma {:induction false} PlainRoundTrip(s: string, c: string)
    requires ',' !in s && '\n' !in s
    requires IsBoundary(c)
    ensures ScanPlain(s + c) == (s, c)
  {
    if s != [] {
      var t := s + c;
      assert t[0] == s[0] && s[0] != ',' && s[0] != '\n';
      assert t[1..] == s[1..] + c;
      PlainRoundTrip(s[1..], c);
      assert ScanPlain(t) == ([s[0]] + s[1..], c);
      assert [s[0]] + s[1..] == s;
    } else {
      assert s + c == c;
    }
  }

  /** Round trip of one field: reading an escaped value that is followed by
      a boundary gives back the value and the boundary. With `c == ""` this is
      the unescaping of a single field: strip the enclosing quotes and turn
      each `""` back into `"`. */
  lemma FieldRoundTrip(s: string, c: string)
    requires IsBoundary(c)
    ensures ParseField(EscapeCsv(Some(s)) + c) == Some((s, c))
  {
    if NeedsQuoting(s) {
      var t := EscapeCsv(Some(s)) + c;
      assert t == "\"" + (DoubleQuotes(s) + "\"" + c);
      assert t[1..] == DoubleQuotes(s) + "\"" + c;
      QuotedRoundTrip(s, c);
    } else {
      PlainRoundTrip(s, c);
    }
  }

  /** Round trip of one record: its text, followed by the end of the text or
      a line feed, reads back as the same fields. */
  lemma {:induction false} RecordRoundTrip(fields: seq<string>, c: string)
    requires |fields| >= 1
    requires c == [] || c[0] == '\n'
    ensures ParseRecord(RecordText(fields) + c) == Some((fields, c))
    decreases |fields|
  {
    var t := RecordText(fields) + c;
    if |fields| == 1 {
      OnlyField(fields, c);
      ParseRecordLast(t, fields[0], c);
      assert [fields[0]] == fields;
    } else {
      var tailFields := fields[1..];
      var rest := "," + RecordText(tailFields) + c;
      FirstField(fields, c);
      assert rest[1..] == RecordText(tailFields) + c;
      RecordRoundTrip(tailFields, c);
      ParseRecordNext(t, fields[0], rest, tailFields, c);
      assert [fields[0]] + tailFields == fields;
    }
  }

  /** The text of a one-field record reads back as that field. */
  lemma OnlyField(fields: seq<string>, c: string)
    requires |fields| == 1
    requires IsBoundary(c)
    ensures ParseField(RecordText(fields) + c) == Some((fields[0], c))
  {
    assert RecordText(fields) == EscapeCsv(Some(fields[0]));
    FieldRoundTrip(fields[0], c);
  }

  /** The first field of a longer record reads back, followed by the comma
      and the text of the remaining fields. */
  lemma FirstField(fields: seq<string>, c: string)
    requires |fields| >= 2
    ensures ParseField(RecordText(fields) + c) == Some((fields[0], "," + RecordText(fields[1..]) + c))
  {
    var rest := "," + RecordText(fields[1..]) + c;
    RecordTextCons(fields);
    assert RecordText(fields) + c == EscapeCsv(Some(fields[0])) + rest;
    FieldRoundTrip(fields[0], rest);
  }

  /** A field followed by the end of the record is a record of one field. */
  lemma ParseRecordLast(t: string, f: string, rest: string)
    requires ParseField(t) == Some((f, rest))
    requires rest == [] || rest[0] == '\n'
    ensures ParseRecord(t) == Some(([f], rest))
  {
  }

  /** A field followed by a comma and a record is a record one field longer. */
  lemma ParseRecordNext(t: string, f: string, rest: string, fs: seq<string>, rest': string)
    requires ParseField(t) == Some((f, rest))
    requires rest != [] && rest[0] == ','
    requires ParseRecord(rest[1..]) == Some((fs, rest'))
    ensures ParseRecord(t) == Some(([f] + fs, rest'))
  {
  }

  /** A record of two or more fields is its first escaped field, a comma and
      the text of the remaining fields. */
  lemma RecordTextCons(fields: seq<string>)
    requires |fields| >= 2
    ensures RecordText(fields) == EscapeCsv(Some(fields[0])) + "," + RecordText(fields[1..])
  {
    assert EscapeAll(fields[1..]) == EscapeAll(fields)[1..];
  }

  /** Round trip of a whole text: the records' lines joined by line feeds
      read back as exactly those records, in order. */
  lemma {:induction false} CsvRoundTrip(rows: seq<seq<string>>)
    requires |rows| >= 1
    requires forall i :: 0 <= i < |rows| ==> |rows[i]| >= 1
    ensures ParseCsv(Join(RecordLines(rows), '\n')) == Some(rows)
    decreases |rows|
  {
    var lines := RecordLines(rows);
    if |rows| == 1 {
      assert Join(lines, '\n') == RecordText(rows[0]) + [];
      RecordRoundTrip(rows[0], []);
      assert [rows[0]] == rows;
    } else {
      var tailRows := rows[1..];
      assert RecordLines(tailRows) == lines[1..];
      var rest := ['\n'] + Join(RecordLines(tailRows), '\n');
      assert Join(lines, '\n') == RecordText(rows[0]) + rest;
      RecordRoundTrip(rows[0], rest);
      assert rest[1..] == Join(RecordLines(tailRows), '\n');
      CsvRoundTrip(tailRows);
      assert [rows[0]] + tailRows == rows;
    }
  }

  /** Doubling works piece by piece. */
  lemma {:induction false} DoubleQuotesAppend(a: string, b: string)
    ensures DoubleQuotes(a + b) == DoubleQuotes(a) + DoubleQuotes(b)
  {
    if a != [] {
      assert (a + b)[0] == a[0];
      assert (a + b)[1..] == a[1..] + b;
      DoubleQuotesAppend(a[1..], b);
      var h := if a[0] == '"' then "\"\"" else [a[0]];
      assert DoubleQuotes(a + b) == h + DoubleQuotes(a[1..] + b);
      assert DoubleQuotes(a) == h + DoubleQuotes(a[1..]);
    } else {
      assert a + b == b;
    }
  }

  /** Doubling a value made of a prefix, a double quote and a quote-free
      suffix. */
  lemma DoubleQuotesAround(x: string, y: string)
    requires '"' !in y
    ensures DoubleQuotes(x + "\"" + y) == DoubleQuotes(x) + "\"\"" + y
  {
    DoubleQuotesAppend(x, "\"");
    DoubleQuotesAppend(x + "\"", y);
    DoubleQuotesKeepsOthers(y);
  }

  /** A value with two quoted words: each quote is doubled and the whole is
      enclosed in quotes. */
  lemma EscapeTwoQuotes(a: string, b: string, d: string)
    requires '"' !in a && '"' !in b && '"' !in d
    ensures EscapeCsv(Some(a + "\"" + b + "\"" + d)) == "\"" + a + "\"\"" + b + "\"\"" + d + "\""
  {
    var s := a + "\"" + b + "\"" + d;
    assert NeedsQuoting(s) by {
      assert s[|a|] == '"';
    }
    var ab := a + "\"" + b;
    assert DoubleQuotes(ab) == a + "\"\"" + b by {
      DoubleQuotesAround(a, b);
      DoubleQuotesKeepsOthers(a);
    }
    assert s == ab + "\"" + d;
    assert DoubleQuotes(s) == a + "\"\"" + b + "\"\"" + d by {
      DoubleQuotesAround(ab, d);
    }
  }

  /** A lone carriage return does not make `escapeCSV` quote a value. */
  lemma CarriageReturnNotQuoted(s: string)
    requires ',' !in s && '"' !in s && '\n' !in s
    ensures EscapeCsv(Some(s + "\r")) == s + "\r"
  {
  }
}
