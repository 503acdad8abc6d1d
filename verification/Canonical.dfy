/** Canonical tab-separated evidence files: equal exactly for equal sets of sanitized rows, and what that says about the evidence. */
module Canonical {
  import opened Options
  import opened Text
  import opened Shape
  import opened Sanitizing
  import Ordering

  datatype Result<+T> = Ok(value: T) | Fail(error: IngestError)

  datatype IngestError =
    | NotScalar | FieldTooLong | InvalidSnapshotSchema | InvalidRecord
    | TooManyLines | LineTooLong | InvalidJsonLine
    | TooManyArtifacts | TotalBytesExceeded
    | FileTooLarge | Unparsable | BadShape(violation: Violation)

  datatype Limits = Limits(maxBytes: nat, maxDepth: nat, maxRecords: nat, maxString: nat)

  // ---------------------------------------------------------- file contents

  /** The sorted distinct lines. */
  function SortDistinct(lines: seq<string>): (r: seq<string>)
    ensures forall l :: l in r <==> l in lines
    ensures Ordering.StrictTotal(Ordering.Less) ==> Ordering.Sorted(Ordering.Less, r)
  {
    if lines == [] then []
    else
      assert lines == [lines[0]] + lines[1..];
      Ordering.Insert(Ordering.Less, lines[0], SortDistinct(lines[1..]))
  }

  function WriteLines(lines: seq<string>): string { Unlines(SortDistinct(lines)) }

  function RowLines(rows: seq<seq<string>>): seq<string> {
    seq(|rows|, i requires 0 <= i < |rows| => Join(rows[i], '\t'))
  }

  function CanonicalFile(rows: seq<seq<string>>): string { WriteLines(RowLines(rows)) }

  /** Reading a canonical file back. */
  function ParseFile(text: string): seq<seq<string>> {
    var lines := Lines(text);
    seq(|lines|, i requires 0 <= i < |lines| => Split(lines[i], '\t'))
  }

  ghost predicate CleanRow(row: seq<string>) {
    row != [] && forall f :: f in row ==> Clean(f)
  }

  ghost predicate CleanRows(rows: seq<seq<string>>) { forall i :: 0 <= i < |rows| ==> CleanRow(rows[i]) }

  lemma CleanHasNoSeparators(s: string)
    requires Clean(s)
    ensures '\t' !in s && '\n' !in s
  {
    assert NeedsEscape('\t') && NeedsEscape('\n');
  }

  lemma RowRoundTrip(row: seq<string>)
    requires CleanRow(row)
    ensures Split(Join(row, '\t'), '\t') == row && '\n' !in Join(row, '\t')
  {
    forall f | f in row ensures '\t' !in f && '\n' !in f { CleanHasNoSeparators(f); }
    SplitJoin(row, '\t');
    JoinAvoids(row, '\t', '\n');
  }

  /** A canonical file parses back to exactly the rows written, each once, in line order. */
  lemma FileParsesBack(rows: seq<seq<string>>)
    requires CleanRows(rows)
    ensures forall row :: row in ParseFile(CanonicalFile(rows)) <==> row in rows
    ensures RowLines(ParseFile(CanonicalFile(rows))) == SortDistinct(RowLines(rows))
    ensures Ordering.Sorted(Ordering.Less, RowLines(ParseFile(CanonicalFile(rows))))
  {
    var lines := SortDistinct(RowLines(rows));
    Ordering.LessIsStrictTotal();
    forall l | l in lines
      ensures '\n' !in l && exists i :: 0 <= i < |rows| && l == Join(rows[i], '\t') && Split(l, '\t') == rows[i]
    {
      assert l in RowLines(rows);
      var i :| 0 <= i < |rows| && RowLines(rows)[i] == l;
      RowRoundTrip(rows[i]);
      assert l == Join(rows[i], '\t') && Split(l, '\t') == rows[i];
    }
    LinesUnlines(lines);
    var parsed := ParseFile(CanonicalFile(rows));
    assert |parsed| == |lines|;
    forall row | row in parsed ensures row in rows {
      var k :| 0 <= k < |parsed| && parsed[k] == row;
      assert lines[k] in lines;
    }
    forall row | row in rows ensures row in parsed {
      var i :| 0 <= i < |rows| && rows[i] == row;
      assert RowLines(rows)[i] == Join(row, '\t');
      RowIsParsed(row, lines, parsed);
    }
    forall k | 0 <= k < |lines| ensures RowLines(parsed)[k] == lines[k] {
      assert lines[k] in lines;
    }
    assert RowLines(parsed) == lines;
  }

  lemma RowIsParsed(row: seq<string>, lines: seq<string>, parsed: seq<seq<string>>)
    requires CleanRow(row) && Join(row, '\t') in lines
    requires |parsed| == |lines| && forall k :: 0 <= k < |lines| ==> parsed[k] == Split(lines[k], '\t')
    ensures row in parsed
  {
    var k :| 0 <= k < |lines| && lines[k] == Join(row, '\t');
    RowRoundTrip(row);
    assert parsed[k] == row;
  }

  /** Two canonical files are equal exactly when they hold the same set of rows. */
  lemma FilesEqualIffSameRows(a: seq<seq<string>>, b: seq<seq<string>>)
    requires CleanRows(a) && CleanRows(b)
    ensures CanonicalFile(a) == CanonicalFile(b) <==> forall row :: row in a <==> row in b
  {
    if CanonicalFile(a) == CanonicalFile(b) {
      FileParsesBack(a);
      FileParsesBack(b);
    }
    if forall row :: row in a <==> row in b {
      forall l ensures l in RowLines(a) ==> l in RowLines(b) { LineCarriesOver(a, b, l); }
      forall l ensures l in RowLines(b) ==> l in RowLines(a) { LineCarriesOver(b, a, l); }
      Ordering.LessIsStrictTotal();
      Ordering.SortedUnique(Ordering.Less, SortDistinct(RowLines(a)), SortDistinct(RowLines(b)));
    }
  }

  lemma LineCarriesOver(a: seq<seq<string>>, b: seq<seq<string>>, l: string)
    requires forall row :: row in a ==> row in b
    ensures l in RowLines(a) ==> l in RowLines(b)
  {
    if l in RowLines(a) {
      var i :| 0 <= i < |RowLines(a)| && RowLines(a)[i] == l;
      assert a[i] in b;
      var j :| 0 <= j < |b| && b[j] == a[i];
      assert RowLines(b)[j] == l;
    }
  }

  // ------------------------------------------------- equal files, equal evidence

  /** A row of evidence texts, escaped field by field. */
  ghost function EscapedRow(row: seq<string>): seq<string> {
    seq(|row|, i requires 0 <= i < |row| => Escape(row[i]))
  }

  ghost function EscapedRows(rows: seq<seq<string>>): seq<seq<string>> {
    seq(|rows|, i requires 0 <= i < |rows| => EscapedRow(rows[i]))
  }

  /** No field looks as if it had been escaped already. */
  ghost predicate Unambiguous(row: seq<string>) {
    row != [] && forall i :: 0 <= i < |row| ==> !HasLiteral(row[i])
  }

  ghost predicate AllUnambiguous(rows: seq<seq<string>>) { forall i :: 0 <= i < |rows| ==> Unambiguous(rows[i]) }

  lemma EscapedRowIsClean(row: seq<string>)
    requires row != []
    ensures CleanRow(EscapedRow(row))
  {
    forall f | f in EscapedRow(row) ensures Clean(f) {
      var i :| 0 <= i < |EscapedRow(row)| && EscapedRow(row)[i] == f;
      EscapeIsClean(row[i]);
    }
  }

  lemma EscapedRowsDiffer(a: seq<string>, b: seq<string>)
    requires Unambiguous(a) && Unambiguous(b)
    ensures EscapedRow(a) == EscapedRow(b) <==> a == b
  {
    if EscapedRow(a) == EscapedRow(b) {
      assert |a| == |EscapedRow(a)| == |EscapedRow(b)| == |b|;
      forall i | 0 <= i < |a| ensures a[i] == b[i] {
        assert EscapedRow(a)[i] == EscapedRow(b)[i];
        EscapeKeepsApart(a[i], b[i]);
      }
    }
  }

  lemma EscapedIn(rows: seq<seq<string>>, row: seq<string>)
    requires AllUnambiguous(rows) && Unambiguous(row)
    ensures EscapedRow(row) in EscapedRows(rows) <==> row in rows
  {
    if EscapedRow(row) in EscapedRows(rows) {
      var i :| 0 <= i < |EscapedRows(rows)| && EscapedRows(rows)[i] == EscapedRow(row);
      EscapedRowsDiffer(rows[i], row);
    }
    if row in rows {
      var i :| 0 <= i < |rows| && rows[i] == row;
      assert EscapedRows(rows)[i] == EscapedRow(row);
    }
  }

  lemma EscapedRowsAreClean(rows: seq<seq<string>>)
    requires forall i :: 0 <= i < |rows| ==> rows[i] != []
    ensures CleanRows(EscapedRows(rows))
  {
    forall i | 0 <= i < |rows| ensures CleanRow(EscapedRows(rows)[i]) { EscapedRowIsClean(rows[i]); }
  }

  /** As long as no evidence text contains a literal escape, equal files mean equal sets of evidence rows. */
  lemma EqualFilesMeanEqualEvidence(a: seq<seq<string>>, b: seq<seq<string>>)
    requires AllUnambiguous(a) && AllUnambiguous(b)
    ensures CanonicalFile(EscapedRows(a)) == CanonicalFile(EscapedRows(b)) <==> forall row :: row in a <==> row in b
  {
    EscapedRowsAreClean(a);
    EscapedRowsAreClean(b);
    FilesEqualIffSameRows(EscapedRows(a), EscapedRows(b));
    if CanonicalFile(EscapedRows(a)) == CanonicalFile(EscapedRows(b)) {
      forall row ensures row in a <==> row in b { CarriesBack(a, b, row); CarriesBack(b, a, row); }
    }
    if forall row :: row in a <==> row in b {
      forall row ensures row in EscapedRows(a) <==> row in EscapedRows(b) { CarriesOver(a, b, row); CarriesOver(b, a, row); }
    }
  }

  lemma CarriesBack(a: seq<seq<string>>, b: seq<seq<string>>, row: seq<string>)
    requires AllUnambiguous(a) && AllUnambiguous(b) && forall r :: r in EscapedRows(a) <==> r in EscapedRows(b)
    ensures row in a ==> row in b
  {
    if row in a {
      EscapedIn(a, row);
      EscapedIn(b, row);
    }
  }

  lemma CarriesOver(a: seq<seq<string>>, b: seq<seq<string>>, row: seq<string>)
    requires AllUnambiguous(a) && AllUnambiguous(b) && forall r :: r in a <==> r in b
    ensures row in EscapedRows(a) ==> row in EscapedRows(b)
  {
    if row in EscapedRows(a) {
      var i :| 0 <= i < |EscapedRows(a)| && EscapedRows(a)[i] == row;
      assert a[i] in a;
      EscapedIn(b, a[i]);
    }
  }

  /** A row with a literal escape has a double: another row, without one in that field, and the same file. */
  lemma LiteralRowsCollide(row: seq<string>, i: nat) returns (other: seq<string>)
    requires i < |row| && HasLiteral(row[i])
    ensures |other| == |row| && other != row && !HasLiteral(other[i])
    ensures CanonicalFile(EscapedRows([row])) == CanonicalFile(EscapedRows([other]))
  {
    var t := LiteralsCollide(row[i]);
    other := row[i := t];
    assert EscapedRow(row) == EscapedRow(other);
    assert EscapedRows([row]) == [EscapedRow(row)];
    assert EscapedRows([other]) == [EscapedRow(other)];
  }

  // -------------------------------------------------------------- scalars

  /** The printed form of a scalar; containers have none. */
  function ScalarText(v: Json): Result<string> {
    match v
    case Null => Ok("")
    case Bool(b) => Ok(if b then "True" else "False")
    case Number(text) => Ok(text)
    case Text(chars) => Ok(chars)
    case _ => Fail(NotScalar)
  }

  function ScalarForCanonical(ansi: string -> seq<Span>, v: Json, maxString: nat): (r: Result<string>)
    ensures r.Ok? <==> ScalarText(v).Ok? && |ScalarText(v).value| <= maxString
  {
    var text := ScalarText(v);
    if text.Fail? then text
    else if |text.value| > maxString then Fail(FieldTooLong)
    else if v.Null? then Ok("")
    else Ok(SanitizeText(ansi, text.value))
  }

  lemma ScalarIsEscaped(ansi: string -> seq<Span>, v: Json, maxString: nat)
    requires Cuts(ansi) && ScalarForCanonical(ansi, v, maxString).Ok?
    ensures ScalarForCanonical(ansi, v, maxString).value == Escape(ScalarText(v).value)
    ensures Clean(ScalarForCanonical(ansi, v, maxString).value)
  {
    SanitizeIsEscape(ansi, ScalarText(v).value);
  }

  /** The value of a key; keys of an accepted record are distinct. */
  function Get(members: seq<Member>, key: string): Json {
    if members == [] then Null
    else if members[0].key == key then members[0].item
    else Get(members[1..], key)
  }

  ghost predicate DistinctKeys(members: seq<Member>) {
    forall i, j :: 0 <= i < j < |members| ==> members[i].key != members[j].key
  }

  /** The record holds this value under the field; a field it does not hold is null. */
  ghost predicate Holds(members: seq<Member>, field: string, v: Json) {
    Member(field, v) in members || (v == Null && forall m :: m in members ==> m.key != field)
  }

  /** Looking up a field finds the value the record holds, wherever it stands. */
  lemma {:induction false} GetMeaning(members: seq<Member>, field: string, v: Json)
    requires DistinctKeys(members)
    ensures Get(members, field) == v <==> Holds(members, field, v)
  {
    if members != [] {
      var rest := members[1..];
      assert members == [members[0]] + rest;
      if members[0].key == field {
        forall m | m in rest ensures m.key != field {
          var i :| 0 <= i < |rest| && rest[i] == m;
          assert members[i + 1] == m;
        }
        assert members[0] == Member(field, members[0].item);
      } else {
        GetMeaning(rest, field, v);
      }
    }
  }

  // ------------------------------------------------------------------- rows

  /** Each field of the row is the escaped text of the value that the record holds there. */
  ghost predicate Shows(row: seq<string>, record: Json, fields: seq<string>) {
    && record.Object? && |row| == |fields|
    && forall i, v :: 0 <= i < |fields| && Holds(record.members, fields[i], v) ==> ScalarText(v).Ok? && row[i] == Escape(ScalarText(v).value)
  }

  /** Every record has a row that shows it, as long as its keys are distinct. */
  ghost predicate AllShown(rows: seq<seq<string>>, records: seq<Json>, fields: seq<string>) {
    |rows| == |records| && forall i :: 0 <= i < |records| && records[i].Object? && DistinctKeys(records[i].members) ==> Shows(rows[i], records[i], fields)
  }

  /** The escaped text that a field of a record contributes. */
  ghost function SanitizedField(record: Json, field: string): string {
    if record.Object? && ScalarText(Get(record.members, field)).Ok? then Escape(ScalarText(Get(record.members, field)).value) else ""
  }

  /** The sanitized tuple of a record, as the canonical file represents it. */
  ghost function SanitizedRow(record: Json, fields: seq<string>): seq<string> {
    seq(|fields|, i requires 0 <= i < |fields| => SanitizedField(record, fields[i]))
  }

  /** The evidence texts of a record: what is escaped to make its row. */
  ghost function EvidenceRow(record: Json, fields: seq<string>): seq<string> {
    seq(|fields|, i requires 0 <= i < |fields| =>
      if record.Object? && ScalarText(Get(record.members, fields[i])).Ok? then ScalarText(Get(record.members, fields[i])).value else "")
  }

  ghost function EvidenceRows(records: seq<Json>, fields: seq<string>): seq<seq<string>> {
    seq(|records|, i requires 0 <= i < |records| => EvidenceRow(records[i], fields))
  }

  lemma SanitizedIsEscapedEvidence(records: seq<Json>, fields: seq<string>)
    ensures SanitizedRows(records, fields) == EscapedRows(EvidenceRows(records, fields))
  {
    assert Escape("") == "";
    forall i | 0 <= i < |records|
      ensures SanitizedRows(records, fields)[i] == EscapedRows(EvidenceRows(records, fields))[i]
    {
      assert SanitizedRow(records[i], fields) == EscapedRow(EvidenceRow(records[i], fields));
    }
  }

  /** Snapshot and handle files: equal exactly for equal sets of evidence rows, unless a text contains a literal escape. */
  lemma RecordFilesEqualIffSameEvidence(xs: seq<Json>, ys: seq<Json>, fields: seq<string>)
    requires AllUnambiguous(EvidenceRows(xs, fields)) && AllUnambiguous(EvidenceRows(ys, fields))
    ensures CanonicalFile(SanitizedRows(xs, fields)) == CanonicalFile(SanitizedRows(ys, fields))
      <==> forall row :: row in EvidenceRows(xs, fields) <==> row in EvidenceRows(ys, fields)
  {
    SanitizedIsEscapedEvidence(xs, fields);
    SanitizedIsEscapedEvidence(ys, fields);
    EqualFilesMeanEqualEvidence(EvidenceRows(xs, fields), EvidenceRows(ys, fields));
  }

  /** Evidence texts do not show the kind of a value; within one kind they tell values apart. */
  lemma TextsTellValuesOfOneKindApart(v: Json, w: Json)
    requires ScalarText(v).Ok? && ScalarText(w).Ok?
    requires v.Null? == w.Null? && v.Bool? == w.Bool? && v.Number? == w.Number?
    ensures ScalarText(v) == ScalarText(w) <==> v == w
  {
  }

  /** The texts of the four kinds of scalars. */
  lemma ScalarTexts(text: string)
    ensures ScalarText(Null) == Ok("") && ScalarText(Text(text)) == Ok(text) == ScalarText(Number(text))
    ensures ScalarText(Bool(false)) == Ok("False") && ScalarText(Bool(true)) == Ok("True")
    ensures forall v :: ScalarText(v).Ok? <==> !v.Object? && !v.Array?
  {
  }

  function OneRecord(path: Json): seq<Json> { [Object([Member("Path", path)])] }

  lemma OneRecordRow(v: Json)
    requires ScalarText(v).Ok?
    ensures EvidenceRows(OneRecord(v), ["Path"]) == [[ScalarText(v).value]]
  {
    var record := OneRecord(v)[0];
    assert Get(record.members, "Path") == v;
    assert EvidenceRow(record, ["Path"]) == [ScalarText(v).value];
  }

  /** Two values whose texts have the same escaped form give the same one-record file. */
  lemma SameEscapeSameFile(v: Json, w: Json)
    requires ScalarText(v).Ok? && ScalarText(w).Ok? && Escape(ScalarText(v).value) == Escape(ScalarText(w).value)
    ensures CanonicalFile(SanitizedRows(OneRecord(v), ["Path"])) == CanonicalFile(SanitizedRows(OneRecord(w), ["Path"]))
  {
    OneRecordRow(v);
    OneRecordRow(w);
    SanitizedIsEscapedEvidence(OneRecord(v), ["Path"]);
    SanitizedIsEscapedEvidence(OneRecord(w), ["Path"]);
    var s, t := ScalarText(v).value, ScalarText(w).value;
    assert EscapedRow([s]) == EscapedRow([t]);
    assert EscapedRows([[s]]) == EscapedRows([[t]]);
  }

  const LITERAL_TAB: string := "\\u0009"

  lemma TabIsEscapedToLiteral()
    ensures Escape("\t") == LITERAL_TAB == Escape(LITERAL_TAB)
  {
    assert Escape("\t") == EscapeCharacter('\t') + Escape("");
    assert EscapeCharacter('\t') == LITERAL_TAB;
    EscapeOfClean(LITERAL_TAB);
  }

  /** Different evidence with the same file: a tab and its literal escape, null and the empty text, a truth value and its name. */
  lemma DifferentEvidenceSameFile()
    ensures CanonicalFile(SanitizedRows(OneRecord(Text("\t")), ["Path"])) == CanonicalFile(SanitizedRows(OneRecord(Text(LITERAL_TAB)), ["Path"]))
    ensures CanonicalFile(SanitizedRows(OneRecord(Null), ["Path"])) == CanonicalFile(SanitizedRows(OneRecord(Text("")), ["Path"]))
    ensures CanonicalFile(SanitizedRows(OneRecord(Bool(true)), ["Path"])) == CanonicalFile(SanitizedRows(OneRecord(Text("True")), ["Path"]))
    ensures EvidenceRows(OneRecord(Text("\t")), ["Path"]) != EvidenceRows(OneRecord(Text(LITERAL_TAB)), ["Path"])
  {
    TabIsEscapedToLiteral();
    SameEscapeSameFile(Text("\t"), Text(LITERAL_TAB));
    SameEscapeSameFile(Null, Text(""));
    SameEscapeSameFile(Bool(true), Text("True"));
    TabsDiffer();
  }

  lemma TabsDiffer()
    ensures EvidenceRows(OneRecord(Text("\t")), ["Path"]) != EvidenceRows(OneRecord(Text(LITERAL_TAB)), ["Path"])
  {
    OneRecordRow(Text("\t"));
    OneRecordRow(Text(LITERAL_TAB));
    assert |"\t"| != |LITERAL_TAB|;
    assert EvidenceRows(OneRecord(Text("\t")), ["Path"])[0][0] == "\t";
  }

  ghost predicate FieldOk(record: Json, field: string, maxString: nat) {
    && record.Object? && ScalarText(Get(record.members, field)).Ok?
    && |ScalarText(Get(record.members, field)).value| <= maxString
  }

  ghost predicate Representable(record: Json, fields: seq<string>, maxString: nat) {
    record.Object? && forall i :: 0 <= i < |fields| ==> FieldOk(record, fields[i], maxString)
  }

  lemma RowShows(record: Json, fields: seq<string>, maxString: nat)
    requires Representable(record, fields, maxString) && DistinctKeys(record.members)
    ensures Shows(SanitizedRow(record, fields), record, fields)
  {
    forall i, v | 0 <= i < |fields| && Holds(record.members, fields[i], v)
      ensures ScalarText(v).Ok? && SanitizedRow(record, fields)[i] == Escape(ScalarText(v).value)
    {
      GetMeaning(record.members, fields[i], v);
      assert FieldOk(record, fields[i], maxString);
    }
  }

  lemma RowsShow(records: seq<Json>, fields: seq<string>, maxString: nat)
    requires forall i :: 0 <= i < |records| ==> Representable(records[i], fields, maxString)
    ensures AllShown(SanitizedRows(records, fields), records, fields)
  {
    forall i | 0 <= i < |records| && DistinctKeys(records[i].members) ensures Shows(SanitizedRows(records, fields)[i], records[i], fields) {
      RowShows(records[i], fields, maxString);
    }
  }

  method CanonicalRow(ansi: string -> seq<Span>, record: Json, fields: seq<string>, maxString: nat) returns (r: Result<seq<string>>)
    requires Cuts(ansi) && fields != []
    ensures r.Ok? <==> Representable(record, fields, maxString)
    ensures r.Ok? ==> r.value == SanitizedRow(record, fields) && CleanRow(r.value)
    ensures r.Ok? && DistinctKeys(record.members) ==> Shows(r.value, record, fields)
  {
    if !record.Object? { return Fail(InvalidRecord); }
    var row: seq<string> := [];
    for i := 0 to |fields|
      invariant |row| == i
      invariant forall k :: 0 <= k < i ==>
        FieldOk(record, fields[k], maxString) && row[k] == SanitizedField(record, fields[k]) && Clean(row[k])
    {
      var field := ScalarForCanonical(ansi, Get(record.members, fields[i]), maxString);
      if field.Fail? { return Fail(field.error); }
      ScalarIsEscaped(ansi, Get(record.members, fields[i]), maxString);
      row := row + [field.value];
    }
    assert row == SanitizedRow(record, fields);
    if DistinctKeys(record.members) { RowShows(record, fields, maxString); }
    return Ok(row);
  }

  ghost function SanitizedRows(records: seq<Json>, fields: seq<string>): seq<seq<string>> {
    seq(|records|, i requires 0 <= i < |records| => SanitizedRow(records[i], fields))
  }

  method CanonicalRows(ansi: string -> seq<Span>, records: seq<Json>, fields: seq<string>, maxString: nat) returns (r: Result<seq<seq<string>>>)
    requires Cuts(ansi) && fields != []
    ensures r.Ok? <==> forall i :: 0 <= i < |records| ==> Representable(records[i], fields, maxString)
    ensures r.Ok? ==> r.value == SanitizedRows(records, fields) && CleanRows(r.value)
  {
    var rows: seq<seq<string>> := [];
    for i := 0 to |records|
      invariant |rows| == i && CleanRows(rows)
      invariant forall k :: 0 <= k < i ==> Representable(records[k], fields, maxString) && rows[k] == SanitizedRow(records[k], fields)
    {
      var row := CanonicalRow(ansi, records[i], fields, maxString);
      if row.Fail? { return Fail(row.error); }
      rows := rows + [row.value];
    }
    assert rows == SanitizedRows(records, fields);
    return Ok(rows);
  }

  // ---------------------------------------------------------------- writers

  /** A file to load: its size, and its document unless it is not UTF-8, malformed, or repeats a key. */
  datatype Source = Source(size: nat, document: Option<Json>)

  ghost predicate Loadable(source: Source, limits: Limits) {
    && source.size <= limits.maxBytes && source.document.Some?
    && Fits(source.document.value, 0, 0, Bounds(limits.maxDepth, limits.maxRecords, limits.maxString))
  }

  /** Loading: size first, then parsing, then the shape check. */
  method LoadJson(source: Source, limits: Limits) returns (r: Result<Json>)
    ensures r.Ok? <==> Loadable(source, limits)
    ensures r.Ok? ==> r.value == source.document.value
  {
    if source.size > limits.maxBytes { return Fail(FileTooLarge); }
    if source.document.None? { return Fail(Unparsable); }
    var verdict, _ := CheckDocument(source.document.value, Bounds(limits.maxDepth, limits.maxRecords, limits.maxString));
    if verdict.Rejected? { return Fail(BadShape(verdict.violation)); }
    return Ok(source.document.value);
  }

  /** A snapshot file: a list of records projected to fixed fields. */
  method CanonicalizeSnapshot(ansi: string -> seq<Span>, source: Source, fields: seq<string>, limits: Limits) returns (r: Result<string>)
    requires Cuts(ansi) && fields != []
    ensures r.Ok? <==>
      && Loadable(source, limits) && source.document.value.Array? && |source.document.value.items| <= limits.maxRecords
      && forall i :: 0 <= i < |source.document.value.items| ==> Representable(source.document.value.items[i], fields, limits.maxString)
    ensures r.Ok? ==>
      && r.value == CanonicalFile(SanitizedRows(source.document.value.items, fields))
      && CleanRows(SanitizedRows(source.document.value.items, fields))
      && AllShown(SanitizedRows(source.document.value.items, fields), source.document.value.items, fields)
  {
    var loaded := LoadJson(source, limits);
    if loaded.Fail? { return Fail(loaded.error); }
    var data := loaded.value;
    if !data.Array? || |data.items| > limits.maxRecords { return Fail(InvalidSnapshotSchema); }
    var rows := CanonicalRows(ansi, data.items, fields, limits.maxString);
    if rows.Fail? { return Fail(rows.error); }
    RowsShow(data.items, fields, limits.maxString);
    return Ok(CanonicalFile(rows.value));
  }

  /** One line of the handle log: its length in bytes and what it decodes to. */
  datatype HandleLine = HandleLine(size: nat, content: LineContent)

  datatype LineContent = Blank | Malformed | Record(record: Json)

  function Records(lines: seq<HandleLine>): seq<Json> {
    if lines == [] then []
    else
      var last := lines[|lines| - 1];
      Records(lines[..|lines| - 1]) + if last.content.Record? then [last.content.record] else []
  }

  ghost predicate LineOk(line: HandleLine, fields: seq<string>, maxString: nat) {
    line.size <= maxString * 4
    && (line.content.Blank? || (line.content.Record? && Representable(line.content.record, fields, maxString)))
  }

  lemma {:induction false} RecordsRepresentable(lines: seq<HandleLine>, fields: seq<string>, maxString: nat)
    requires forall i :: 0 <= i < |lines| ==> LineOk(lines[i], fields, maxString)
    ensures forall i :: 0 <= i < |Records(lines)| ==> Representable(Records(lines)[i], fields, maxString)
  {
    if lines != [] { RecordsRepresentable(lines[..|lines| - 1], fields, maxString); }
  }

  /** The handle log: blank lines are skipped, any other line is one record. */
  method CanonicalizeHandles(ansi: string -> seq<Span>, size: nat, lines: seq<HandleLine>, fields: seq<string>, limits: Limits)
    returns (r: Result<string>)
    requires Cuts(ansi) && fields != []
    ensures r.Ok? <==> size <= limits.maxBytes && |lines| <= limits.maxRecords && forall i :: 0 <= i < |lines| ==> LineOk(lines[i], fields, limits.maxString)
    ensures r.Ok? ==> r.value == CanonicalFile(SanitizedRows(Records(lines), fields)) && CleanRows(SanitizedRows(Records(lines), fields))
    ensures r.Ok? ==> AllShown(SanitizedRows(Records(lines), fields), Records(lines), fields)
  {
    if size > limits.maxBytes { return Fail(FileTooLarge); }
    var rows: seq<seq<string>> := [];
    for i := 0 to |lines|
      invariant i <= limits.maxRecords && CleanRows(rows)
      invariant forall k :: 0 <= k < i ==> LineOk(lines[k], fields, limits.maxString)
      invariant rows == SanitizedRows(Records(lines[..i]), fields)
    {
      assert lines[..i + 1][..i] == lines[..i];
      if i + 1 > limits.maxRecords { return Fail(TooManyLines); }
      if lines[i].size > limits.maxString * 4 { return Fail(LineTooLong); }
      match lines[i].content {
        case Blank =>
        case Malformed => return Fail(InvalidJsonLine);
        case Record(record) =>
          var row := CanonicalRow(ansi, record, fields, limits.maxString);
          if row.Fail? { return Fail(row.error); }
          rows := rows + [row.value];
      }
    }
    assert lines[..|lines|] == lines;
    RecordsRepresentable(lines, fields, limits.maxString);
    RowsShow(Records(lines), fields, limits.maxString);
    return Ok(CanonicalFile(rows));
  }
}
