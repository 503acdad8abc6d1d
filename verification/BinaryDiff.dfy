/** The binary-comparison runner and the validator that later ingests its summary. */
module BinaryDiff {
  import opened Options
  import opened Text
  import opened ExportReader
  import Exporter
  import JsonText

  /** A floating-point score; rounding plays no part here. */
  datatype Score = Finite(value: real) | NotFinite

  // --------------------------------------------------------------- tool runs

  const SIGXFSZ: int := 25

  /** How a launched tool ended. */
  datatype Command = Finished(exitCode: int, timedOut: bool, truncated: bool) | NotStarted

  function CommandState(c: Command): string {
    match c
    case NotStarted => "failed"
    case Finished(exitCode, timedOut, truncated) =>
      if timedOut then "timed-out"
      else if truncated || exitCode == -SIGXFSZ then "truncated"
      else if exitCode == 0 then "complete" else "partial"
  }

  /** The command ran to its end, within its limits, and reported success. */
  predicate RanWell(c: Command) { c == Finished(0, false, false) }

  /** The state of each outcome; a time-out outranks cut output, and that the exit code. SIGXFSZ is signal 25. */
  lemma CommandStateMeaning(c: Command)
    ensures CommandState(c) == "failed" <==> c == NotStarted
    ensures CommandState(c) == "timed-out" <==> c.Finished? && c.timedOut
    ensures CommandState(c) == "truncated" <==> c.Finished? && !c.timedOut && (c.truncated || c.exitCode == -25)
    ensures CommandState(c) == "complete" <==> c.Finished? && !c.timedOut && !c.truncated && c.exitCode == 0
    ensures CommandState(c) == "partial" <==> c.Finished? && !c.timedOut && !c.truncated && c.exitCode != 0 && c.exitCode != -25
  {
  }

  datatype ToolStatus = ToolStatus(tool: string, role: Option<string>, state: string)

  /** What the analysis of one input finds: tools, outcomes, the record file and whether there is a graph afterwards. */
  datatype RoleRun = RoleRun(toolsPresent: bool, scriptFound: bool, analysis: Command, jsonl: Option<string>,
                             export_: Command, graphExists: bool)

  function GhidraStatuses(role: string, run: RoleRun): seq<ToolStatus> {
    if !run.toolsPresent then
      [ToolStatus("ghidra", Some(role), "missing-tool"), ToolStatus("binexport", Some(role), "missing-tool")]
    else
      var analysisState := if run.jsonl.Some? then CommandState(run.analysis) else "partial";
      var exportState :=
        if CommandState(run.analysis) != "complete" || !run.scriptFound then
          if !run.scriptFound then "missing-tool" else "partial"
        else if run.graphExists then CommandState(run.export_) else "partial";
      [ToolStatus("ghidra", Some(role), analysisState), ToolStatus("binexport", Some(role), exportState)]
  }

  /** When each tool of an input is missing, and that its other states are those of its command or "partial". */
  lemma GhidraStatusesMeaning(role: string, run: RoleRun)
    ensures var statuses := GhidraStatuses(role, run);
      && |statuses| == 2 && statuses[0].tool == "ghidra" && statuses[1].tool == "binexport"
      && statuses[0].role == Some(role) == statuses[1].role
      && (statuses[0].state == "missing-tool" <==> !run.toolsPresent)
      && (statuses[1].state == "missing-tool" <==> !run.toolsPresent || !run.scriptFound)
      && (run.toolsPresent ==> statuses[0].state == if run.jsonl.Some? then CommandState(run.analysis) else "partial")
      && (run.toolsPresent && run.scriptFound ==>
            statuses[1].state == if RanWell(run.analysis) && run.graphExists then CommandState(run.export_) else "partial")
  {
  }

  // --------------------------------------------------------------- projection

  /** One matched function; a missing score is SQL null. */
  datatype Match = Match(similarity: Option<real>, confidence: Option<real>)

  function Below(score: Option<real>, bound: real): nat {
    if score.Some? && score.value < bound then 1 else 0
  }

  function Changed(rows: seq<Match>): nat {
    if rows == [] then 0 else Below(rows[0].similarity, 1.0) + Changed(rows[1..])
  }

  function Ambiguous(rows: seq<Match>): nat {
    if rows == [] then 0 else Below(rows[0].confidence, 0.5) + Ambiguous(rows[1..])
  }

  lemma {:induction false} CountsWithinMatches(rows: seq<Match>)
    ensures Changed(rows) <= |rows| && Ambiguous(rows) <= |rows|
  {
    if rows != [] { CountsWithinMatches(rows[1..]); }
  }

  /** The positions of the rows whose similarity, or confidence, is known and below the bound. */
  ghost function ChangedAt(rows: seq<Match>): set<int> {
    set i | 0 <= i < |rows| && rows[i].similarity.Some? && rows[i].similarity.value < 1.0
  }

  ghost function AmbiguousAt(rows: seq<Match>): set<int> {
    set i | 0 <= i < |rows| && rows[i].confidence.Some? && rows[i].confidence.value < 0.5
  }

  /** Changed matches are those with a similarity below 1, ambiguous ones those with a confidence below one half. */
  lemma CountsMeaning(rows: seq<Match>)
    ensures Changed(rows) == |ChangedAt(rows)| && Ambiguous(rows) == |AmbiguousAt(rows)|
  {
    ChangedMeaning(rows);
    AmbiguousMeaning(rows);
  }

  lemma {:induction false} ChangedMeaning(rows: seq<Match>)
    ensures Changed(rows) == |ChangedAt(rows)|
  {
    if rows != [] {
      var n := |rows| - 1;
      ChangedMeaning(rows[..n]);
      CountsAppend(rows[..n], rows[n]);
      assert rows == rows[..n] + [rows[n]];
      assert ChangedAt(rows) == ChangedAt(rows[..n]) + if rows[n].similarity.Some? && rows[n].similarity.value < 1.0 then {n} else {};
    }
  }

  lemma {:induction false} AmbiguousMeaning(rows: seq<Match>)
    ensures Ambiguous(rows) == |AmbiguousAt(rows)|
  {
    if rows != [] {
      var n := |rows| - 1;
      AmbiguousMeaning(rows[..n]);
      CountsAppend(rows[..n], rows[n]);
      assert rows == rows[..n] + [rows[n]];
      assert AmbiguousAt(rows) == AmbiguousAt(rows[..n]) + if rows[n].confidence.Some? && rows[n].confidence.value < 0.5 then {n} else {};
    }
  }

  lemma {:induction false} CountsAppend(rows: seq<Match>, row: Match)
    ensures Changed(rows + [row]) == Changed(rows) + if row.similarity.Some? && row.similarity.value < 1.0 then 1 else 0
    ensures Ambiguous(rows + [row]) == Ambiguous(rows) + if row.confidence.Some? && row.confidence.value < 0.5 then 1 else 0
  {
    if rows != [] {
      CountsAppend(rows[1..], row);
      assert (rows + [row])[1..] == rows[1..] + [row];
    }
  }

  /** Reading the match database: a projection, an error the runner handles, or any other exception. */
  datatype Projection =
    | Projected(similarity: Score, confidence: Score, baselineFunctions: int, candidateFunctions: int,
                rows: seq<Match>, truncated: bool)
    | Unsupported
    | Crashed

  datatype Metrics = Metrics(similarity: Option<Score>, confidence: Option<Score>, baselineFunctions: int,
                             candidateFunctions: int, matched: int, changed: int, ambiguous: int)

  const NO_METRICS: Metrics := Metrics(None, None, 0, 0, 0, 0, 0)

  function MetricsOf(p: Projection): Metrics
    requires p.Projected?
  {
    Metrics(Some(p.similarity), Some(p.confidence), p.baselineFunctions, p.candidateFunctions,
            |p.rows|, Changed(p.rows), Ambiguous(p.rows))
  }

  datatype Comparison = Comparison(bindiffPresent: bool, command: Command, databaseExists: bool, projection: Projection)

  /** Storing what was read in the query sidecar: done, a handled error, or any other exception. */
  datatype Sidecar = Stored | StoreFailed | StoreCrashed

  /** The bounds under which the records are exported and read. */
  datatype Bounds = Bounds(maxRecords: nat, maxString: nat)

  /** The record file, if there is one, was read to its end. */
  ghost predicate ReadThrough(run: RoleRun, b: Bounds) {
    run.jsonl.Some? ==> WhollyRead(run.jsonl.value, b.maxRecords, b.maxString)
  }

  /** Build the query sidecar from both record files; its state, or `None` for an exception that escapes. */
  method BuildSidecar(first: RoleRun, second: RoleRun, sidecar: Sidecar, projectionTruncated: bool, b: Bounds) returns (r: Option<string>)
    ensures r.None? <==> sidecar.StoreCrashed?
    ensures r.Some? ==> r.value in ALLOWED_STATES
    ensures r == Some("complete") <==>
      && sidecar.Stored? && first.jsonl.Some? && second.jsonl.Some? && !projectionTruncated
      && ReadThrough(first, b) && ReadThrough(second, b)
    ensures r == Some("truncated") ==>
      && sidecar.Stored? && first.jsonl.Some? && second.jsonl.Some?
      && (projectionTruncated || !ReadThrough(first, b) || !ReadThrough(second, b))
  {
    if sidecar.StoreCrashed? { return None; }
    var truncated := projectionTruncated;
    var records := ReadRecords(first.jsonl, b.maxRecords, b.maxString);
    if first.jsonl.Some? { WhollyReadMeans(first.jsonl.value, b.maxRecords, b.maxString, records); }
    if !records.Read? { return Some("partial"); }
    truncated := truncated || records.truncated;
    records := ReadRecords(second.jsonl, b.maxRecords, b.maxString);
    if second.jsonl.Some? { WhollyReadMeans(second.jsonl.value, b.maxRecords, b.maxString, records); }
    if !records.Read? { return Some("partial"); }
    truncated := truncated || records.truncated;
    if sidecar.StoreFailed? || first.jsonl.None? || second.jsonl.None? { return Some("partial"); }
    return Some(if truncated then "truncated" else "complete");
  }

  // ------------------------------------------------------------------ inputs

  predicate IsHexDigit(c: char) { '0' <= c <= '9' || 'a' <= c <= 'f' || 'A' <= c <= 'F' }

  predicate Sha256(s: string) { |s| == 64 && forall i :: 0 <= i < |s| ==> IsHexDigit(s[i]) }

  function Lower(s: string): string {
    seq(|s|, i requires 0 <= i < |s| => if 'A' <= s[i] <= 'Z' then (s[i] as int + 32) as char else s[i])
  }

  /** A digest is 64 hexadecimal digits. */
  lemma Sha256Meaning(s: string)
    ensures Sha256(s) <==> |s| == 64 && forall i :: 0 <= i < |s| ==> JsonText.HexValue(s[i]).Some?
  {
  }

  /** Two texts are the same but for the case of Latin letters. */
  ghost predicate SameButCase(a: string, b: string) {
    |a| == |b| && forall i :: 0 <= i < |a| ==> SameLower(a[i], b[i])
  }

  /** An input is accepted if it is a regular file of allowed size and its digest is the expected one, in whatever case. */
  lemma AcceptedInputMeaning(i: Input, maxSample: nat)
    ensures AcceptedInput(i, maxSample) <==> i.regular && i.size <= maxSample && i.expected != "" && SameButCase(i.digest, i.expected)
  {
    if Lower(i.digest) == Lower(i.expected) {
      assert |i.digest| == |Lower(i.digest)| == |i.expected|;
      forall k | 0 <= k < |i.digest| ensures SameLower(i.digest[k], i.expected[k]) {
        assert Lower(i.digest)[k] == Lower(i.expected)[k];
      }
    }
  }

  ghost predicate SameLower(a: char, b: char) {
    a == b || ('A' <= a <= 'Z' && b as int == a as int + 32) || ('a' <= a <= 'z' && b as int == a as int - 32)
  }

  /** An input file with its digest and the digest the caller expects. */
  datatype Input = Input(regular: bool, size: nat, digest: string, expected: string)

  predicate AcceptedInput(i: Input, maxSample: nat) {
    i.regular && i.size <= maxSample && i.expected != "" && Lower(i.digest) == Lower(i.expected)
  }

  // ----------------------------------------------------------------- summary

  datatype Summary = Summary(schemaVersion: int, analysisKind: string, status: string, resultFinalized: bool,
                             primaryComparison: string, baselineSha256: string, candidateSha256: string,
                             similarity: Option<Score>, confidence: Option<Score>,
                             matched: int, changed: int, added: int, removed: int, ambiguous: int,
                             projectionTruncated: bool, toolStatus: seq<ToolStatus>, failures: seq<string>,
                             execution: string, verdict: Option<string>)

  datatype Rejection =
    | UnsupportedSchema | UnsupportedVerdict | InvalidCompletion | InvalidPrimary | WasExecuted
    | InvalidHash | InvalidScore | InvalidCount | InconsistentCounts | MissingScores | InvalidToolState

  predicate ScoreOk(s: Option<Score>) {
    s.Some? ==> s.value.Finite? && 0.0 <= s.value.value <= 1.0
  }

  /** A score is missing, or a number from 0 to 1. */
  lemma ScoreOkMeaning(x: real)
    ensures ScoreOk(None) && !ScoreOk(Some(NotFinite))
    ensures ScoreOk(Some(Finite(x))) <==> 0.0 <= x && x <= 1.0
  {
  }

  const ALLOWED_STATES: set<string> := {"complete", "partial", "failed", "timed-out", "truncated", "missing-tool"}

  /** The ingesting validator, in the order of its checks; `None` is acceptance. */
  method ValidateSummary(s: Summary) returns (r: Option<Rejection>)
    ensures r.None? <==> Accepted(s)
  {
    if s.schemaVersion != 1 { return Some(UnsupportedSchema); }
    if s.verdict.Some? && s.verdict.value != "undetermined" { return Some(UnsupportedVerdict); }
    if s.analysisKind != "BinaryDiff" { return None; }
    if s.status !in {"complete", "partial"} || !s.resultFinalized { return Some(InvalidCompletion); }
    if s.primaryComparison != "structural-graph" { return Some(InvalidPrimary); }
    if s.execution != "not-run" { return Some(WasExecuted); }
    if !Sha256(s.baselineSha256) || !Sha256(s.candidateSha256) { return Some(InvalidHash); }
    if !ScoreOk(s.similarity) || !ScoreOk(s.confidence) { return Some(InvalidScore); }
    if s.matched < 0 || s.changed < 0 || s.added < 0 || s.removed < 0 || s.ambiguous < 0 { return Some(InvalidCount); }
    if s.changed > s.matched || s.ambiguous > s.matched { return Some(InconsistentCounts); }
    if s.status == "complete" && (s.similarity.None? || s.confidence.None?) { return Some(MissingScores); }
    for i := 0 to |s.toolStatus|
      invariant forall k :: 0 <= k < i ==> s.toolStatus[k].state in ALLOWED_STATES
    {
      if s.toolStatus[i].state !in ALLOWED_STATES { return Some(InvalidToolState); }
    }
    return None;
  }

  ghost predicate Accepted(s: Summary) {
    && s.schemaVersion == 1 && s.verdict in {None, Some("undetermined")}
    && (s.analysisKind == "BinaryDiff" ==>
          && s.status in {"complete", "partial"} && s.resultFinalized
          && s.primaryComparison == "structural-graph" && s.execution == "not-run"
          && Sha256(s.baselineSha256) && Sha256(s.candidateSha256)
          && ScoreOk(s.similarity) && ScoreOk(s.confidence)
          && 0 <= s.changed <= s.matched && 0 <= s.ambiguous <= s.matched && 0 <= s.added && 0 <= s.removed
          && (s.status == "complete" ==> s.similarity.Some? && s.confidence.Some?)
          && forall i :: 0 <= i < |s.toolStatus| ==> s.toolStatus[i].state in ALLOWED_STATES)
  }

  // ------------------------------------------------------------------ runner

  predicate AllComplete(statuses: seq<ToolStatus>) {
    forall i :: 0 <= i < |statuses| ==> statuses[i].state == "complete"
  }

  function Failures(statuses: seq<ToolStatus>): (r: seq<string>)
    ensures r == [] <==> AllComplete(statuses)
  {
    if statuses == [] then []
    else
      var s := statuses[0];
      var rest := Failures(statuses[1..]);
      assert statuses == [s] + statuses[1..];
      if s.state == "complete" then rest
      else [s.tool + ":" + (if s.role.Some? then s.role.value else "Comparison") + ":" + s.state] + rest
  }

  /** What one status contributes to the failures: nothing if complete, and else its tool, its role and its state. */
  lemma {:induction false} FailuresMeaning(statuses: seq<ToolStatus>, s: ToolStatus)
    ensures Failures(statuses + [s]) == Failures(statuses) +
      if s.state == "complete" then []
      else [s.tool + ":" + (match s.role case Some(role) => role case None => "Comparison") + ":" + s.state]
  {
    if statuses != [] {
      FailuresMeaning(statuses[1..], s);
      assert (statuses + [s])[1..] == statuses[1..] + [s];
    } else {
      assert [] + [s] == [s];
    }
  }

  /** The validator allows exactly the states that a tool can end in. */
  lemma AllowedStatesMeaning(state: string)
    ensures state in ALLOWED_STATES <==> state == "missing-tool" || exists c :: CommandState(c) == state
  {
    assert CommandState(NotStarted) == "failed" && CommandState(Finished(0, true, false)) == "timed-out";
    assert CommandState(Finished(0, false, true)) == "truncated" && CommandState(Finished(0, false, false)) == "complete";
    assert CommandState(Finished(1, false, false)) == "partial";
  }

  ghost predicate AllowedStatuses(statuses: seq<ToolStatus>) {
    forall i :: 0 <= i < |statuses| ==> statuses[i].state in ALLOWED_STATES
  }

  lemma GhidraStatusesAllowed(role: string, run: RoleRun)
    ensures |GhidraStatuses(role, run)| == 2 && AllowedStatuses(GhidraStatuses(role, run))
  {
    assert CommandState(run.analysis) in ALLOWED_STATES && CommandState(run.export_) in ALLOWED_STATES;
  }

  /** A match database was produced and is read. */
  predicate DatabaseRead(c: Comparison, graphsExist: bool) { c.bindiffPresent && graphsExist && c.databaseExists }

  /** The match database was read successfully. */
  predicate Measured(c: Comparison, graphsExist: bool) { DatabaseRead(c, graphsExist) && c.projection.Projected? }

  /** Everything went well for one input. */
  predicate FullyExported(run: RoleRun) {
    && run.toolsPresent && run.jsonl.Some? && RanWell(run.analysis)
    && run.scriptFound && run.graphExists && RanWell(run.export_)
  }

  /** The two statuses of an input are both complete exactly when everything went well for it. */
  lemma ExportedIffComplete(role: string, run: RoleRun)
    ensures AllComplete(GhidraStatuses(role, run)) <==> FullyExported(run)
  {
    var statuses := GhidraStatuses(role, run);
    assert AllComplete(statuses) <==> statuses[0].state == "complete" && statuses[1].state == "complete";
  }

  /** Every step succeeded, and everything the exporters wrote was read and kept. What they did not write does not show. */
  ghost predicate FlawlessRun(first: RoleRun, second: RoleRun, c: Comparison, sidecar: Sidecar, b: Bounds) {
    && FullyExported(first) && FullyExported(second)
    && Measured(c, true) && RanWell(c.command) && !c.projection.truncated
    && sidecar.Stored? && ReadThrough(first, b) && ReadThrough(second, b)
  }

  /** The counts add up: every function of either input is matched, or added, or removed. */
  ghost predicate CountsOf(s: Summary, p: Projection)
    requires p.Projected?
  {
    && s.matched == |p.rows| && s.changed == Changed(p.rows) && s.ambiguous == Ambiguous(p.rows)
    && s.matched + s.added == (if p.candidateFunctions > |p.rows| then p.candidateFunctions else |p.rows|)
    && s.matched + s.removed == (if p.baselineFunctions > |p.rows| then p.baselineFunctions else |p.rows|)
    && s.similarity == Some(p.similarity) && s.confidence == Some(p.confidence)
  }

  ghost predicate NoCounts(s: Summary) {
    && s.matched == 0 && s.changed == 0 && s.ambiguous == 0 && s.added == 0 && s.removed == 0
    && s.similarity == None && s.confidence == None
  }

  /** The statuses of a run, in the order they are recorded. */
  function Gathered(first: RoleRun, second: RoleRun, bindiff: ToolStatus, sidecarState: string): (r: seq<ToolStatus>)
    ensures |r| == 6
  {
    GhidraStatuses("Baseline", first) + GhidraStatuses("Candidate", second) + [bindiff] + [ToolStatus("sqlite-sidecar", None, sidecarState)]
  }

  /** All of them are complete exactly when both inputs, the comparison and the sidecar went well. */
  lemma GatheredComplete(first: RoleRun, second: RoleRun, bindiff: ToolStatus, sidecarState: string)
    requires bindiff.state in ALLOWED_STATES && sidecarState in ALLOWED_STATES
    ensures AllowedStatuses(Gathered(first, second, bindiff, sidecarState))
    ensures AllComplete(Gathered(first, second, bindiff, sidecarState))
      <==> FullyExported(first) && FullyExported(second) && bindiff.state == "complete" && sidecarState == "complete"
  {
    var a, b, all := GhidraStatuses("Baseline", first), GhidraStatuses("Candidate", second), Gathered(first, second, bindiff, sidecarState);
    GhidraStatusesAllowed("Baseline", first);
    GhidraStatusesAllowed("Candidate", second);
    ExportedIffComplete("Baseline", first);
    ExportedIffComplete("Candidate", second);
    assert all[0] == a[0] && all[1] == a[1] && all[2] == b[0] && all[3] == b[1] && all[4] == bindiff && all[5].state == sidecarState;
  }

  /** The comparison is complete only if the tool was and its database could be read; without that there are no metrics. */
  ghost predicate Compared(c: Comparison, graphsExist: bool, status: ToolStatus, m: Metrics, truncated: bool) {
    && status.tool == "bindiff" && status.role == None && status.state in ALLOWED_STATES
    && (status.state == "complete" <==> Measured(c, graphsExist) && RanWell(c.command))
    && (m == if Measured(c, graphsExist) then MetricsOf(c.projection) else NO_METRICS)
    && (truncated <==> Measured(c, graphsExist) && c.projection.truncated)
  }

  /** The comparison step: its status, the metrics, and whether the projection was cut; `None` is an exception. */
  method Compare(c: Comparison, graphsExist: bool) returns (r: Option<(ToolStatus, Metrics, bool)>)
    ensures r.None? <==> DatabaseRead(c, graphsExist) && c.projection.Crashed?
    ensures r.Some? ==> Compared(c, graphsExist, r.value.0, r.value.1, r.value.2)
  {
    if !c.bindiffPresent { return Some((ToolStatus("bindiff", None, "missing-tool"), NO_METRICS, false)); }
    if !graphsExist { return Some((ToolStatus("bindiff", None, "partial"), NO_METRICS, false)); }
    var status := ToolStatus("bindiff", None, if c.databaseExists then CommandState(c.command) else "partial");
    if !c.databaseExists { return Some((status, NO_METRICS, false)); }
    match c.projection
    case Projected(_, _, _, _, _, truncated) => return Some((status, MetricsOf(c.projection), truncated));
    case Unsupported => return Some((status.(state := "partial"), NO_METRICS, false));
    case Crashed => return None;
  }

  /** Any score read from the match database is finite and lies in [0, 1]. */
  predicate ReadScoresOk(p: Projection) {
    p.Projected? ==> ScoreOk(Some(p.similarity)) && ScoreOk(Some(p.confidence))
  }

  function NonNegative(n: int): int { if n < 0 then 0 else n }

  /** Two tools for each input, then the comparison, then the sidecar, each with an allowed state. */
  ghost predicate RecordsTools(statuses: seq<ToolStatus>, first: RoleRun, second: RoleRun) {
    && AllowedStatuses(statuses)
    && exists bindiff: ToolStatus, sidecarState: string ::
         statuses == Gathered(first, second, bindiff, sidecarState) && bindiff.tool == "bindiff" && bindiff.role == None
  }

  function SummaryOf(baseline: string, candidate: string, m: Metrics, projectionTruncated: bool, sidecarState: string,
                     statuses: seq<ToolStatus>): Summary
  {
    Summary(1, "BinaryDiff", if Failures(statuses) == [] then "complete" else "partial", true,
            "structural-graph", baseline, candidate, m.similarity, m.confidence, m.matched, m.changed,
            NonNegative(m.candidateFunctions - m.matched), NonNegative(m.baselineFunctions - m.matched), m.ambiguous,
            projectionTruncated || sidecarState == "truncated", statuses, Failures(statuses), "not-run", Some("undetermined"))
  }

  /** Both inputs produced a graph. */
  predicate GraphsExist(first: RoleRun, second: RoleRun) { first.graphExists && second.graphExists }

  /** What a finished summary says about the run behind it. */
  ghost predicate Reports(s: Summary, first: RoleRun, second: RoleRun, c: Comparison, sidecar: Sidecar, b: Bounds) {
    && RecordsTools(s.toolStatus, first, second) && s.failures == Failures(s.toolStatus)
    && (s.status == "complete" <==> AllComplete(s.toolStatus))
    && (s.status == "complete" <==> FlawlessRun(first, second, c, sidecar, b))
    && (if Measured(c, GraphsExist(first, second)) then CountsOf(s, c.projection) else NoCounts(s))
    && (s.projectionTruncated <==>
          (Measured(c, GraphsExist(first, second)) && c.projection.truncated) || s.toolStatus[5].state == "truncated")
  }

  /** The summary assembled at the end is accepted exactly when its scores are, and reports the run truly. */
  lemma SummaryReports(baseline: string, candidate: string, first: RoleRun, second: RoleRun, c: Comparison, sidecar: Sidecar, b: Bounds,
                       status: ToolStatus, m: Metrics, truncated: bool, outcome: string)
    requires Sha256(baseline) && Sha256(candidate) && Compared(c, GraphsExist(first, second), status, m, truncated)
    requires outcome in ALLOWED_STATES
    requires outcome == "complete" <==>
      && sidecar.Stored? && first.jsonl.Some? && second.jsonl.Some? && !truncated
      && ReadThrough(first, b) && ReadThrough(second, b)
    ensures var s := SummaryOf(baseline, candidate, m, truncated, outcome, Gathered(first, second, status, outcome));
      (Accepted(s) <==> ScoreOk(m.similarity) && ScoreOk(m.confidence)) && Reports(s, first, second, c, sidecar, b)
  {
    GatheredComplete(first, second, status, outcome);
    if c.projection.Projected? { CountsWithinMatches(c.projection.rows); }
  }

  /** The whole run; `None` means that it ended with an exception and no summary. */
  method RunBinaryDiff(baseline: Input, candidate: Input, maxSample: nat, first: RoleRun, second: RoleRun,
                       comparison: Comparison, sidecar: Sidecar, b: Bounds) returns (r: Option<Summary>)
    requires Sha256(baseline.digest) && Sha256(candidate.digest)
    ensures r.Some? ==> (Accepted(r.value) <==> ScoreOk(r.value.similarity) && ScoreOk(r.value.confidence))
    ensures r.Some? && ReadScoresOk(comparison.projection) ==> Accepted(r.value)
    ensures r.Some? ==> Reports(r.value, first, second, comparison, sidecar, b)
    ensures r.Some? ==> r.value.baselineSha256 == baseline.digest && r.value.candidateSha256 == candidate.digest
    ensures r.None? <==>
      || !AcceptedInput(baseline, maxSample) || !AcceptedInput(candidate, maxSample) || sidecar.StoreCrashed?
      || (DatabaseRead(comparison, GraphsExist(first, second)) && comparison.projection.Crashed?)
  {
    if !AcceptedInput(baseline, maxSample) || !AcceptedInput(candidate, maxSample) { return None; }
    var statuses := GhidraStatuses("Baseline", first);
    statuses := statuses + GhidraStatuses("Candidate", second);
    var compared := Compare(comparison, GraphsExist(first, second));
    if compared.None? { return None; }
    var (status, metrics, truncated) := compared.value;
    statuses := statuses + [status];
    var sidecarState := BuildSidecar(first, second, sidecar, truncated, b);
    if sidecarState.None? { return None; }
    statuses := statuses + [ToolStatus("sqlite-sidecar", None, sidecarState.value)];
    assert statuses == Gathered(first, second, status, sidecarState.value);
    SummaryReports(baseline.digest, candidate.digest, first, second, comparison, sidecar, b, status, metrics, truncated, sidecarState.value);
    r := Some(SummaryOf(baseline.digest, candidate.digest, metrics, truncated, sidecarState.value, statuses));
  }

  // --------------------------------------------------------- what complete means

  /** The record file of a run is a bounded export of this program. */
  ghost predicate Exports(run: RoleRun, fs: seq<Exporter.FunctionNode>, b: Bounds) {
    run.jsonl == Some(Exporter.FileText(Exporter.Take(Exporter.AllRecords(fs), b.maxRecords), b.maxString))
  }

  /** Reading the record file gives every record of the program. */
  ghost predicate HoldsAll(run: RoleRun, fs: seq<Exporter.FunctionNode>, b: Bounds) {
    && run.jsonl.Some?
    && forall r :: ReadOf(RawLines(run.jsonl.value), b.maxRecords, b.maxString, r)
         ==> r == Read(ObjectsOf(Exporter.AllRecords(fs), b.maxString), false)
  }

  /** A record file that is read through holds all records exactly when there were no more than the bound. */
  lemma ReadThroughHoldsAll(run: RoleRun, fs: seq<Exporter.FunctionNode>, b: Bounds)
    requires Exports(run, fs, b) && ReadThrough(run, b)
    ensures HoldsAll(run, fs, b) <==> |Exporter.AllRecords(fs)| <= b.maxRecords
  {
    var kept := Exporter.Take(Exporter.AllRecords(fs), b.maxRecords);
    var seen := Read(ObjectsOf(kept, b.maxString), false);
    var text := run.jsonl.value;
    ExportReadsBack(kept, b.maxRecords, b.maxString, LineTooLong);
    if ReadOf(RawLines(text), b.maxRecords, b.maxString, LineTooLong) { WhollyReadMeans(text, b.maxRecords, b.maxString, LineTooLong); }
    ExportReadsBack(kept, b.maxRecords, b.maxString, seen);
    forall r | ReadOf(RawLines(text), b.maxRecords, b.maxString, r) ensures r == seen {
      ReadIsDetermined(RawLines(text), b.maxRecords, b.maxString, r, seen);
    }
  }

  /** A complete summary over two bounded exports stands for all their records exactly when neither program exceeds the bound. */
  lemma CompleteHoldsAllRecords(s: Summary, first: RoleRun, second: RoleRun, c: Comparison, sidecar: Sidecar, b: Bounds,
                                fs: seq<Exporter.FunctionNode>, gs: seq<Exporter.FunctionNode>)
    requires Reports(s, first, second, c, sidecar, b) && s.status == "complete"
    requires Exports(first, fs, b) && Exports(second, gs, b)
    ensures HoldsAll(first, fs, b) && HoldsAll(second, gs, b)
      <==> |Exporter.AllRecords(fs)| <= b.maxRecords && |Exporter.AllRecords(gs)| <= b.maxRecords
  {
    ReadThroughHoldsAll(first, fs, b);
    ReadThroughHoldsAll(second, gs, b);
  }

  /** For every record bound there is a complete, untruncated run over exports that each dropped a record. */
  lemma CompleteRunCanDropRecords(maxRecords: nat)
    returns (run: RoleRun, c: Comparison, b: Bounds, fs: seq<Exporter.FunctionNode>)
    ensures b.maxRecords == maxRecords && Exports(run, fs, b) && |Exporter.AllRecords(fs)| == maxRecords + 1
    ensures FlawlessRun(run, run, c, Stored, b) && !HoldsAll(run, fs, b)
  {
    var maxString;
    fs, maxString := ExportCanDrop(maxRecords);
    b := Bounds(maxRecords, maxString);
    var kept := Exporter.Take(Exporter.AllRecords(fs), maxRecords);
    var text := Exporter.FileText(kept, maxString);
    run := RoleRun(true, true, Finished(0, false, false), Some(text), Finished(0, false, false), true);
    c := Comparison(true, Finished(0, false, false), true, Projected(Finite(1.0), Finite(1.0), 1, 1, [], false));
    WhollyReadMeans(text, maxRecords, maxString, Read(ObjectsOf(kept, maxString), false));
    ReadThroughHoldsAll(run, fs, b);
  }

  // ----------------------------------------------------------------- addresses

  const TWO_TO_64: int := 0x1_0000_0000_0000_0000

  /** Masking to 64 bits. */
  function UnsignedAddress(v: int): int { v % TWO_TO_64 }

  /** A 64-bit address prints the same whether it was stored signed or unsigned. */
  lemma AddressesJoin(unsigned: int, signed: int)
    requires 0 <= unsigned < 0x1_0000_0000_0000_0000 && -0x8000_0000_0000_0000 <= signed < 0x8000_0000_0000_0000
    ensures UnsignedAddress(unsigned) == unsigned
    ensures UnsignedAddress(unsigned) == UnsignedAddress(signed)
      <==> signed == if unsigned < 0x8000_0000_0000_0000 then unsigned else unsigned - 0x1_0000_0000_0000_0000
  {
    if signed < 0 {
      assert (signed + TWO_TO_64) % TWO_TO_64 == signed + TWO_TO_64;
      assert signed % TWO_TO_64 == signed + TWO_TO_64;
    }
  }
}
