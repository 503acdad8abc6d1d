/** Evidence files that are not parsed: enumerating them, and the canonical file that lists them. */
module Artifacts {
  import opened Text
  import opened Shape
  import opened Sanitizing
  import opened Canonical

  /** A file found below an evidence root; `sha256` is the digest it would get. */
  datatype Found = Found(relative: string, size: nat, sha256: string)

  /** The record kept for an artifact that is not parsed. */
  datatype Artifact = Artifact(path: string, size: nat, sha256: Json, state: Json)

  datatype ArtifactLimits = ArtifactLimits(maxRecords: nat, maxTotalBytes: nat, maxArtifactBytes: nat)

  const OVERSIZED: string := "oversized-not-hashed"

  lemma OversizedIsClean()
    ensures Clean(OVERSIZED)
  {
  }

  function TotalBytes(files: seq<Found>): nat {
    if files == [] then 0 else TotalBytes(files[..|files| - 1]) + files[|files| - 1].size
  }

  /** Hashed unless oversized; the path is escaped on the way in. */
  ghost function RecordOf(f: Found, limits: ArtifactLimits): Artifact {
    if f.size <= limits.maxArtifactBytes then Artifact(Escape(f.relative), f.size, Text(f.sha256), Null)
    else Artifact(Escape(f.relative), f.size, Null, Text(OVERSIZED))
  }

  method EnumerateArtifacts(ansi: string -> seq<Span>, files: seq<Found>, limits: ArtifactLimits) returns (r: Result<seq<Artifact>>)
    requires Cuts(ansi)
    ensures r.Ok? <==> |files| <= limits.maxRecords && TotalBytes(files) <= limits.maxTotalBytes
    ensures r.Ok? ==> |r.value| == |files| && forall i :: 0 <= i < |files| ==> r.value[i] == RecordOf(files[i], limits)
  {
    var records: seq<Artifact> := [];
    var totalBytes: nat := 0;
    for i := 0 to |files|
      invariant |records| == i <= limits.maxRecords
      invariant totalBytes == TotalBytes(files[..i]) <= limits.maxTotalBytes
      invariant forall k :: 0 <= k < i ==> records[k] == RecordOf(files[k], limits)
    {
      assert files[..i + 1][..i] == files[..i];
      MoreBytes(files, i + 1);
      if |records| >= limits.maxRecords { return Fail(TooManyArtifacts); }
      totalBytes := totalBytes + files[i].size;
      if totalBytes > limits.maxTotalBytes { return Fail(TotalBytesExceeded); }
      SanitizeIsEscape(ansi, files[i].relative);
      var path := SanitizeText(ansi, files[i].relative);
      records := records + [
        if files[i].size <= limits.maxArtifactBytes then Artifact(path, files[i].size, Text(files[i].sha256), Null)
        else Artifact(path, files[i].size, Null, Text(OVERSIZED))];
    }
    assert files[..|files|] == files;
    return Ok(records);
  }

  lemma {:induction false} MoreBytes(files: seq<Found>, k: nat)
    requires k <= |files|
    ensures TotalBytes(files[..k]) <= TotalBytes(files)
    decreases |files| - k
  {
    if k < |files| {
      MoreBytes(files, k + 1);
      assert files[..k + 1][..k] == files[..k];
    } else {
      assert files[..k] == files;
    }
  }

  /** The line of one artifact; the path is escaped a second time. */
  function OpaqueRow(ansi: string -> seq<Span>, a: Artifact, maxString: nat): Result<seq<string>> {
    var path := ScalarForCanonical(ansi, Text(a.path), maxString);
    var sha256 := ScalarForCanonical(ansi, a.sha256, maxString);
    var state := ScalarForCanonical(ansi, a.state, maxString);
    if path.Fail? then Fail(path.error)
    else if sha256.Fail? then Fail(sha256.error)
    else if state.Fail? then Fail(state.error)
    else Ok([path.value, Decimal(a.size), sha256.value, state.value])
  }

  /** Clean text of an acceptable length is written as it is. */
  lemma CleanScalar(ansi: string -> seq<Span>, s: string, maxString: nat)
    requires Cuts(ansi) && Clean(s) && ScalarForCanonical(ansi, Text(s), maxString).Ok?
    ensures ScalarForCanonical(ansi, Text(s), maxString).value == s
  {
    ScalarIsEscaped(ansi, Text(s), maxString);
    EscapeOfClean(s);
  }

  /** The row of a record names its path, size, digest and state exactly. */
  lemma OpaqueRowMeaning(ansi: string -> seq<Span>, f: Found, limits: ArtifactLimits, maxString: nat)
    requires Cuts(ansi) && Clean(f.sha256) && OpaqueRow(ansi, RecordOf(f, limits), maxString).Ok?
    ensures OpaqueRow(ansi, RecordOf(f, limits), maxString).value ==
      [Escape(f.relative), Decimal(f.size)] + if f.size <= limits.maxArtifactBytes then [f.sha256, ""] else ["", OVERSIZED]
    ensures ParseDecimal(Decimal(f.size)) == f.size
  {
    ParseDecimalOf(f.size);
    EscapeIsClean(f.relative);
    CleanScalar(ansi, Escape(f.relative), maxString);
    if f.size <= limits.maxArtifactBytes {
      CleanScalar(ansi, f.sha256, maxString);
    } else {
      OversizedIsClean();
      CleanScalar(ansi, OVERSIZED, maxString);
    }
  }

  /** The rows of all records that no known schema covers. */
  function OpaqueRows(ansi: string -> seq<Span>, records: seq<Artifact>, known: set<string>, maxString: nat): Result<seq<seq<string>>> {
    if records == [] then Ok([])
    else
      var last := records[|records| - 1];
      var before := OpaqueRows(ansi, records[..|records| - 1], known, maxString);
      if before.Fail? || last.path in known then before
      else
        var row := OpaqueRow(ansi, last, maxString);
        if row.Fail? then Fail(row.error) else Ok(before.value + [row.value])
  }

  function CanonicalizeOpaque(ansi: string -> seq<Span>, records: seq<Artifact>, known: set<string>, maxString: nat): Result<string> {
    var rows := OpaqueRows(ansi, records, known, maxString);
    if rows.Fail? then Fail(rows.error) else Ok(CanonicalFile(rows.value))
  }

  ghost predicate RowOf(ansi: string -> seq<Span>, records: seq<Artifact>, known: set<string>, maxString: nat, row: seq<string>) {
    exists a :: a in records && a.path !in known && OpaqueRow(ansi, a, maxString) == Ok(row)
  }

  /** Exactly the uncovered records contribute a row, and every row is clean. */
  lemma {:induction false} OpaqueRowsContents(ansi: string -> seq<Span>, records: seq<Artifact>, known: set<string>, maxString: nat)
    requires Cuts(ansi) && OpaqueRows(ansi, records, known, maxString).Ok?
    ensures CleanRows(OpaqueRows(ansi, records, known, maxString).value)
    ensures forall row :: row in OpaqueRows(ansi, records, known, maxString).value <==> RowOf(ansi, records, known, maxString, row)
  {
    if records != [] {
      var shorter, last := records[..|records| - 1], records[|records| - 1];
      OpaqueRowsContents(ansi, shorter, known, maxString);
      assert records == shorter + [last];
      if last.path !in known { OpaqueRowIsClean(ansi, last, maxString); }
      forall row ensures RowOf(ansi, records, known, maxString, row) <==>
        RowOf(ansi, shorter, known, maxString, row) || (last.path !in known && OpaqueRow(ansi, last, maxString) == Ok(row))
      {
        RowOfNext(ansi, shorter, last, known, maxString, row);
      }
    }
  }

  /** The opaque-artifact file lists, as clean rows that parse back, exactly the uncovered records. */
  lemma OpaqueFileParsesBack(ansi: string -> seq<Span>, records: seq<Artifact>, known: set<string>, maxString: nat)
    requires Cuts(ansi)
    ensures CanonicalizeOpaque(ansi, records, known, maxString).Ok? <==>
      forall a :: a in records && a.path !in known ==> OpaqueRow(ansi, a, maxString).Ok?
    ensures CanonicalizeOpaque(ansi, records, known, maxString).Ok? ==>
      forall row :: row in ParseFile(CanonicalizeOpaque(ansi, records, known, maxString).value)
        <==> RowOf(ansi, records, known, maxString, row)
  {
    OpaqueRowsSucceed(ansi, records, known, maxString);
    if OpaqueRows(ansi, records, known, maxString).Ok? {
      OpaqueRowsContents(ansi, records, known, maxString);
      FileParsesBack(OpaqueRows(ansi, records, known, maxString).value);
    }
  }

  lemma {:induction false} OpaqueRowsSucceed(ansi: string -> seq<Span>, records: seq<Artifact>, known: set<string>, maxString: nat)
    ensures OpaqueRows(ansi, records, known, maxString).Ok? <==>
      forall a :: a in records && a.path !in known ==> OpaqueRow(ansi, a, maxString).Ok?
  {
    if records != [] {
      var n := |records| - 1;
      OpaqueRowsSucceed(ansi, records[..n], known, maxString);
      assert records == records[..n] + [records[n]];
    }
  }

  /** Two opaque-artifact files are equal exactly when they list the same rows. */
  lemma OpaqueFilesEqualIffSameRows(ansi: string -> seq<Span>, a: seq<Artifact>, b: seq<Artifact>, known: set<string>, maxString: nat)
    requires Cuts(ansi)
    ensures CanonicalizeOpaque(ansi, a, known, maxString).Ok? && CanonicalizeOpaque(ansi, b, known, maxString).Ok? ==>
      (CanonicalizeOpaque(ansi, a, known, maxString) == CanonicalizeOpaque(ansi, b, known, maxString)
       <==> forall row :: RowOf(ansi, a, known, maxString, row) <==> RowOf(ansi, b, known, maxString, row))
  {
    if OpaqueRows(ansi, a, known, maxString).Ok? && OpaqueRows(ansi, b, known, maxString).Ok? {
      OpaqueRowsContents(ansi, a, known, maxString);
      OpaqueRowsContents(ansi, b, known, maxString);
      FilesEqualIffSameRows(OpaqueRows(ansi, a, known, maxString).value, OpaqueRows(ansi, b, known, maxString).value);
    }
  }

  /** What the files say about an artifact: its path, size, and digest or the reason for having none. */
  ghost function ArtifactEvidence(f: Found, limits: ArtifactLimits): seq<string> {
    [f.relative, Decimal(f.size)] + if f.size <= limits.maxArtifactBytes then [f.sha256, ""] else ["", OVERSIZED]
  }

  /** Some uncovered file gives this evidence. */
  ghost predicate Shows(files: seq<Found>, known: set<string>, limits: ArtifactLimits, row: seq<string>) {
    exists f :: f in files && Escape(f.relative) !in known && ArtifactEvidence(f, limits) == row
  }

  ghost function RecordsOf(files: seq<Found>, limits: ArtifactLimits): seq<Artifact> {
    seq(|files|, i requires 0 <= i < |files| => RecordOf(files[i], limits))
  }

  /** Paths without literal escapes, and hexadecimal digests. */
  ghost predicate PlainFiles(files: seq<Found>) {
    forall f :: f in files ==> !HasLiteral(f.relative) && Clean(f.sha256) && !HasLiteral(f.sha256)
  }

  lemma FourEscaped(a: string, b: string, c: string, d: string)
    requires Clean(b) && Clean(c) && Clean(d)
    ensures EscapedRow([a, b, c, d]) == [Escape(a), b, c, d]
  {
    EscapeOfClean(b);
    EscapeOfClean(c);
    EscapeOfClean(d);
  }

  lemma OpaqueRowIsEscapedEvidence(ansi: string -> seq<Span>, f: Found, limits: ArtifactLimits, maxString: nat)
    requires Cuts(ansi) && Clean(f.sha256) && OpaqueRow(ansi, RecordOf(f, limits), maxString).Ok?
    ensures OpaqueRow(ansi, RecordOf(f, limits), maxString).value == EscapedRow(ArtifactEvidence(f, limits))
  {
    OpaqueRowMeaning(ansi, f, limits, maxString);
    DecimalIsClean(f.size);
    OversizedIsClean();
    if f.size <= limits.maxArtifactBytes {
      FourEscaped(f.relative, Decimal(f.size), f.sha256, "");
      assert ArtifactEvidence(f, limits) == [f.relative, Decimal(f.size), f.sha256, ""];
    } else {
      FourEscaped(f.relative, Decimal(f.size), "", OVERSIZED);
      assert ArtifactEvidence(f, limits) == [f.relative, Decimal(f.size), "", OVERSIZED];
    }
  }

  lemma EvidenceIsUnambiguous(f: Found, limits: ArtifactLimits)
    requires !HasLiteral(f.relative) && !HasLiteral(f.sha256)
    ensures Unambiguous(ArtifactEvidence(f, limits))
  {
    assert forall c :: c in Decimal(f.size) ==> IsDigit(c);
    NoBackslashNoLiteral(Decimal(f.size));
    NoBackslashNoLiteral("");
    NoBackslashNoLiteral(OVERSIZED);
  }

  /** Every uncovered file can be represented. */
  ghost predicate Listable(ansi: string -> seq<Span>, files: seq<Found>, known: set<string>, limits: ArtifactLimits, maxString: nat) {
    forall f :: f in files && Escape(f.relative) !in known ==> OpaqueRow(ansi, RecordOf(f, limits), maxString).Ok?
  }

  lemma ListableIff(ansi: string -> seq<Span>, files: seq<Found>, known: set<string>, limits: ArtifactLimits, maxString: nat)
    ensures CanonicalizeOpaque(ansi, RecordsOf(files, limits), known, maxString).Ok? <==> Listable(ansi, files, known, limits, maxString)
  {
    var records := RecordsOf(files, limits);
    OpaqueRowsSucceed(ansi, records, known, maxString);
    forall f | f in files ensures RecordOf(f, limits) in records {
      var i :| 0 <= i < |files| && files[i] == f;
      assert records[i] == RecordOf(f, limits);
    }
    forall a | a in records ensures exists f :: f in files && a == RecordOf(f, limits) {
      var i :| 0 <= i < |records| && records[i] == a;
      assert files[i] in files;
    }
  }

  lemma ShownIffListed(ansi: string -> seq<Span>, files: seq<Found>, known: set<string>, limits: ArtifactLimits, maxString: nat, f: Found)
    requires Cuts(ansi) && PlainFiles(files) && PlainFiles([f])
    ensures Listable(ansi, files, known, limits, maxString) ==>
      (Shows(files, known, limits, ArtifactEvidence(f, limits))
       <==> RowOf(ansi, RecordsOf(files, limits), known, maxString, EscapedRow(ArtifactEvidence(f, limits))))
  {
    var records, row := RecordsOf(files, limits), EscapedRow(ArtifactEvidence(f, limits));
    assert f in [f];
    if Listable(ansi, files, known, limits, maxString) {
      if Shows(files, known, limits, ArtifactEvidence(f, limits)) {
        var g :| g in files && Escape(g.relative) !in known && ArtifactEvidence(g, limits) == ArtifactEvidence(f, limits);
        var i :| 0 <= i < |files| && files[i] == g;
        assert records[i] == RecordOf(g, limits) && records[i] in records;
        OpaqueRowIsEscapedEvidence(ansi, g, limits, maxString);
      }
      if RowOf(ansi, records, known, maxString, row) {
        var a :| a in records && a.path !in known && OpaqueRow(ansi, a, maxString) == Ok(row);
        var i :| 0 <= i < |records| && records[i] == a;
        assert files[i] in files;
        OpaqueRowIsEscapedEvidence(ansi, files[i], limits, maxString);
        EvidenceIsUnambiguous(files[i], limits);
        EvidenceIsUnambiguous(f, limits);
        EscapedRowsDiffer(ArtifactEvidence(files[i], limits), ArtifactEvidence(f, limits));
      }
    }
  }

  /** Opaque-artifact files of plain files: equal exactly when the same paths, sizes and digests are to be shown. */
  lemma OpaqueFilesEqualIffSameEvidence(ansi: string -> seq<Span>, a: seq<Found>, b: seq<Found>, known: set<string>,
                                        limits: ArtifactLimits, maxString: nat)
    requires Cuts(ansi) && PlainFiles(a) && PlainFiles(b)
    ensures Listable(ansi, a, known, limits, maxString) && Listable(ansi, b, known, limits, maxString) ==>
      (CanonicalizeOpaque(ansi, RecordsOf(a, limits), known, maxString) == CanonicalizeOpaque(ansi, RecordsOf(b, limits), known, maxString)
       <==> forall row :: Shows(a, known, limits, row) <==> Shows(b, known, limits, row))
  {
    if Listable(ansi, a, known, limits, maxString) && Listable(ansi, b, known, limits, maxString) {
      ListableIff(ansi, a, known, limits, maxString);
      ListableIff(ansi, b, known, limits, maxString);
      var ra, rb := RecordsOf(a, limits), RecordsOf(b, limits);
      OpaqueFilesEqualIffSameRows(ansi, ra, rb, known, maxString);
      if forall row :: RowOf(ansi, ra, known, maxString, row) <==> RowOf(ansi, rb, known, maxString, row) {
        forall row ensures Shows(a, known, limits, row) <==> Shows(b, known, limits, row) {
          ShownCarriesOver(ansi, a, b, known, limits, maxString, row);
          ShownCarriesOver(ansi, b, a, known, limits, maxString, row);
        }
      }
      if forall row :: Shows(a, known, limits, row) <==> Shows(b, known, limits, row) {
        forall row ensures RowOf(ansi, ra, known, maxString, row) <==> RowOf(ansi, rb, known, maxString, row) {
          ListedCarriesOver(ansi, a, b, known, limits, maxString, row);
          ListedCarriesOver(ansi, b, a, known, limits, maxString, row);
        }
      }
    }
  }

  lemma ShownCarriesOver(ansi: string -> seq<Span>, a: seq<Found>, b: seq<Found>, known: set<string>, limits: ArtifactLimits,
                         maxString: nat, row: seq<string>)
    requires Cuts(ansi) && PlainFiles(a) && PlainFiles(b)
    requires Listable(ansi, a, known, limits, maxString) && Listable(ansi, b, known, limits, maxString)
    ensures (forall r :: RowOf(ansi, RecordsOf(a, limits), known, maxString, r) <==> RowOf(ansi, RecordsOf(b, limits), known, maxString, r))
      ==> Shows(a, known, limits, row) ==> Shows(b, known, limits, row)
  {
    if Shows(a, known, limits, row) {
      var f :| f in a && Escape(f.relative) !in known && ArtifactEvidence(f, limits) == row;
      ShownIffListed(ansi, a, known, limits, maxString, f);
      ShownIffListed(ansi, b, known, limits, maxString, f);
    }
  }

  lemma ListedCarriesOver(ansi: string -> seq<Span>, a: seq<Found>, b: seq<Found>, known: set<string>, limits: ArtifactLimits,
                          maxString: nat, row: seq<string>)
    requires Cuts(ansi) && PlainFiles(a) && PlainFiles(b)
    requires Listable(ansi, a, known, limits, maxString) && Listable(ansi, b, known, limits, maxString)
    ensures (forall r :: Shows(a, known, limits, r) <==> Shows(b, known, limits, r))
      ==> RowOf(ansi, RecordsOf(a, limits), known, maxString, row) ==> RowOf(ansi, RecordsOf(b, limits), known, maxString, row)
  {
    var records := RecordsOf(a, limits);
    if RowOf(ansi, records, known, maxString, row) {
      var x :| x in records && x.path !in known && OpaqueRow(ansi, x, maxString) == Ok(row);
      var i :| 0 <= i < |records| && records[i] == x;
      assert a[i] in a;
      OpaqueRowIsEscapedEvidence(ansi, a[i], limits, maxString);
      ShownIffListed(ansi, a, known, limits, maxString, a[i]);
      ShownIffListed(ansi, b, known, limits, maxString, a[i]);
    }
  }

  lemma RowOfNext(ansi: string -> seq<Span>, shorter: seq<Artifact>, last: Artifact, known: set<string>, maxString: nat, row: seq<string>)
    ensures RowOf(ansi, shorter + [last], known, maxString, row) <==>
      RowOf(ansi, shorter, known, maxString, row) || (last.path !in known && OpaqueRow(ansi, last, maxString) == Ok(row))
  {
    var all := shorter + [last];
    assert forall a :: a in all <==> a in shorter || a == last;
  }

  lemma OpaqueRowIsClean(ansi: string -> seq<Span>, a: Artifact, maxString: nat)
    requires Cuts(ansi) && OpaqueRow(ansi, a, maxString).Ok?
    ensures CleanRow(OpaqueRow(ansi, a, maxString).value)
  {
    ScalarIsEscaped(ansi, Text(a.path), maxString);
    ScalarIsEscaped(ansi, a.sha256, maxString);
    ScalarIsEscaped(ansi, a.state, maxString);
    DecimalIsClean(a.size);
  }
}
