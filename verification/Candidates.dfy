/** Which application may be terminated, and the loops that inspect and select it. */
module Candidates {
  import opened Options
  import opened Pressure
  import opened Text

  /** Text is case-folded; `imagePath` is a full path. */
  datatype Facts = Facts(pid: int, created: int, imagePath: string, ownerSid: string,
                         session: nat, critical: bool, privateBytes: nat)

  datatype Reason =
    | Unqueryable | SystemOrSelf | ServiceSession | CriticalProcess
    | ServiceAccount | WindowsImage | ExcludedExecutable | BelowMinimum

  /** The machine facts the rule consults besides the candidate. */
  datatype Host = Host(ownPid: int, windowsDirectory: string)

  predicate ServiceSid(sid: string) {
    || sid in {"S-1-5-18", "S-1-5-19", "S-1-5-20"}
    || "S-1-5-80-" <= sid || "S-1-5-90-" <= sid || "S-1-5-96-" <= sid
  }

  function TrimSeparator(path: string): string {
    if path != "" && path[|path| - 1] == '\\' then TrimSeparator(path[..|path| - 1]) else path
  }

  /** The text after the last directory separator. */
  function FileName(path: string): string {
    if path == "" || Separator(path[|path| - 1]) then ""
    else FileName(path[..|path| - 1]) + [path[|path| - 1]]
  }

  predicate Separator(c: char) { c in {'\\', '/', ':'} }

  /** The file name is the longest tail of the path without a separator. */
  lemma {:induction false} FileNameIsTail(path: string)
    ensures |FileName(path)| <= |path|
    ensures var n := |path| - |FileName(path)|; FileName(path) == path[n..] && (n > 0 ==> Separator(path[n - 1]))
    ensures forall i :: 0 <= i < |FileName(path)| ==> !Separator(FileName(path)[i])
  {
    if path != "" && !Separator(path[|path| - 1]) { FileNameIsTail(path[..|path| - 1]); }
  }

  function ExclusionReason(p: Policy, facts: Option<Facts>, host: Host): (r: Option<Reason>)
  {
    match facts
    case None => Some(Unqueryable)
    case Some(f) =>
      if f.pid < 5 || f.pid == host.ownPid then Some(SystemOrSelf)
      else if f.session == 0 then Some(ServiceSession)
      else if f.critical then Some(CriticalProcess)
      else if AllWhite(f.ownerSid) || f.created <= 0 || AllWhite(f.imagePath) || AllWhite(host.windowsDirectory) then Some(Unqueryable)
      else if ServiceSid(f.ownerSid) then Some(ServiceAccount)
      else if TrimSeparator(host.windowsDirectory) + "\\" <= f.imagePath then Some(WindowsImage)
      else if FileName(f.imagePath) in p.excluded then Some(ExcludedExecutable)
      else if f.privateBytes < p.minimumMiB * 1024 * 1024 then Some(BelowMinimum)
      else None
  }

  predicate Eligible(p: Policy, f: Facts, host: Host) { ExclusionReason(p, Some(f), host).None? }

  /** The path names a file of this name, in whatever directory. */
  ghost predicate IsFileNamed(path: string, name: string) {
    && |name| <= |path| && path[|path| - |name|..] == name
    && (forall i :: 0 <= i < |name| ==> !Separator(name[i]))
    && (|name| < |path| ==> Separator(path[|path| - |name| - 1]))
  }

  lemma FileNameIff(path: string, name: string)
    ensures IsFileNamed(path, name) <==> FileName(path) == name
  {
    FileNameIsTail(path);
    var f := FileName(path);
    var m, n := |path| - |f|, |path| - |name|;
    if 0 <= n && path[n..] == name {
      if n > m { assert path[n - 1] == f[n - 1 - m]; }
      if m > n { assert path[m - 1] == name[m - 1 - n]; }
    }
  }

  /** The path lies below the directory, with whatever separators that is written at its end. */
  ghost predicate Below(path: string, directory: string) {
    exists k :: 0 <= k <= |directory| && Trimmed(directory, k) && k < |path| && path[..k] == directory[..k] && path[k] == '\\'
  }

  /** Only separators follow position `k`, and none precedes it. */
  ghost predicate Trimmed(directory: string, k: nat) {
    && k <= |directory| && (forall i :: k <= i < |directory| ==> directory[i] == '\\')
    && (k > 0 ==> directory[k - 1] != '\\')
  }

  lemma {:induction false} TrimmedLength(directory: string, k: nat)
    requires k <= |directory|
    ensures Trimmed(directory, k) <==> k == |TrimSeparator(directory)|
    ensures TrimSeparator(directory) <= directory
  {
    if directory != "" && directory[|directory| - 1] == '\\' {
      var n := |directory| - 1;
      if k <= n {
        TrimmedLength(directory[..n], k);
        assert forall i :: 0 <= i < n ==> directory[..n][i] == directory[i];
      } else {
        TrimmedLength(directory[..n], n);
      }
    }
  }

  lemma BelowIff(path: string, directory: string)
    ensures Below(path, directory) <==> TrimSeparator(directory) + "\\" <= path
  {
    var trimmed := TrimSeparator(directory);
    TrimmedLength(directory, |directory|);
    var n := |trimmed|;
    if Below(path, directory) {
      var k :| 0 <= k <= |directory| && Trimmed(directory, k) && k < |path| && path[..k] == directory[..k] && path[k] == '\\';
      TrimmedLength(directory, k);
      assert path[..n + 1] == trimmed + "\\";
    }
    if trimmed + "\\" <= path {
      TrimmedLength(directory, n);
      assert path[..n] == (trimmed + "\\")[..n] == trimmed;
      assert path[n] == (trimmed + "\\")[n];
    }
  }

  /** What a caller may count on: an eligible process is a big enough application of a user, not below the Windows
      directory however that is written, and not a file of any excluded name in any directory; and every such process is. */
  lemma EligibleMeaning(p: Policy, f: Facts, host: Host)
    ensures Eligible(p, f, host) <==>
      && f.pid >= 5 && f.pid != host.ownPid && f.session > 0 && !f.critical && f.created > 0
      && !AllWhite(f.ownerSid) && !AllWhite(f.imagePath) && !AllWhite(host.windowsDirectory)
      && !ServiceAccountId(f.ownerSid) && !Below(f.imagePath, host.windowsDirectory)
      && (forall name :: name in p.excluded ==> !IsFileNamed(f.imagePath, name))
      && p.minimumMiB * 1024 * 1024 <= f.privateBytes
  {
    ServiceSidIff(f.ownerSid);
    BelowIff(f.imagePath, host.windowsDirectory);
    forall name ensures IsFileNamed(f.imagePath, name) <==> FileName(f.imagePath) == name { FileNameIff(f.imagePath, name); }
  }

  /** A service account: one of three well-known identifiers, or any identifier of three families. */
  ghost predicate ServiceAccountId(sid: string) {
    || sid in {"S-1-5-18", "S-1-5-19", "S-1-5-20"}
    || exists rest :: sid == "S-1-5-80-" + rest || sid == "S-1-5-90-" + rest || sid == "S-1-5-96-" + rest
  }

  lemma ServiceSidIff(sid: string)
    ensures ServiceSid(sid) <==> ServiceAccountId(sid)
  {
    if "S-1-5-80-" <= sid { assert sid == "S-1-5-80-" + sid[9..]; }
    if "S-1-5-90-" <= sid { assert sid == "S-1-5-90-" + sid[9..]; }
    if "S-1-5-96-" <= sid { assert sid == "S-1-5-96-" + sid[9..]; }
    if rest :| sid == "S-1-5-80-" + rest || sid == "S-1-5-90-" + rest || sid == "S-1-5-96-" + rest { assert sid[..9] + rest == sid; }
  }

  /** Whether a reason holds for a process, taken by itself. */
  ghost predicate Applies(reason: Reason, p: Policy, f: Facts, host: Host) {
    match reason
    case SystemOrSelf => f.pid <= 4 || f.pid == host.ownPid
    case ServiceSession => f.session == 0
    case CriticalProcess => f.critical
    case Unqueryable => AllWhite(f.ownerSid) || f.created <= 0 || AllWhite(f.imagePath) || AllWhite(host.windowsDirectory)
    case ServiceAccount => ServiceAccountId(f.ownerSid)
    case WindowsImage => Below(f.imagePath, host.windowsDirectory)
    case ExcludedExecutable => exists name :: name in p.excluded && IsFileNamed(f.imagePath, name)
    case BelowMinimum => f.privateBytes < 1_048_576 * p.minimumMiB
  }

  /** Reasons in the order of their precedence. */
  ghost function Precedence(reason: Reason): nat {
    match reason
    case SystemOrSelf => 0 case ServiceSession => 1 case CriticalProcess => 2 case Unqueryable => 3
    case ServiceAccount => 4 case WindowsImage => 5 case ExcludedExecutable => 6 case BelowMinimum => 7
  }

  /** The reason given is the first that applies; a process that could not be queried is reported as that. */
  lemma ReasonMeaning(p: Policy, f: Facts, host: Host, reason: Reason)
    ensures ExclusionReason(p, None, host) == Some(Unqueryable)
    ensures ExclusionReason(p, Some(f), host) == Some(reason)
      <==> Applies(reason, p, f, host) && forall r :: Precedence(r) < Precedence(reason) ==> !Applies(r, p, f, host)
    ensures Eligible(p, f, host) <==> forall r :: !Applies(r, p, f, host)
  {
    FirstReason(p, f, host);
    var given := ExclusionReason(p, Some(f), host);
    if given.Some? && Applies(reason, p, f, host) && (forall r :: Precedence(r) < Precedence(reason) ==> !Applies(r, p, f, host)) {
      assert Precedence(reason) == Precedence(given.value);
      SamePrecedence(reason, given.value);
    }
  }

  lemma SamePrecedence(a: Reason, b: Reason)
    ensures Precedence(a) == Precedence(b) ==> a == b
  {
  }

  lemma FirstReason(p: Policy, f: Facts, host: Host)
    ensures var given := ExclusionReason(p, Some(f), host);
      && (given.Some? ==> Applies(given.value, p, f, host))
      && (forall r :: (given.Some? ==> Precedence(r) < Precedence(given.value)) ==> !Applies(r, p, f, host))
  {
    ServiceSidIff(f.ownerSid);
    BelowIff(f.imagePath, host.windowsDirectory);
    forall name ensures IsFileNamed(f.imagePath, name) <==> FileName(f.imagePath) == name { FileNameIff(f.imagePath, name); }
    var given := ExclusionReason(p, Some(f), host);
    forall r | given.Some? ==> Precedence(r) < Precedence(given.value) ensures !Applies(r, p, f, host) {
      match r
      case SystemOrSelf => case ServiceSession => case CriticalProcess => case Unqueryable =>
      case ServiceAccount => case WindowsImage => case ExcludedExecutable => case BelowMinimum =>
    }
  }

  /** Excluding more names or raising the minimum never makes another process eligible. */
  lemma StricterPolicyShrinks(p: Policy, q: Policy, f: Facts, host: Host)
    requires (forall name :: name in p.excluded ==> name in q.excluded) && p.minimumMiB <= q.minimumMiB
    ensures Eligible(q, f, host) ==> Eligible(p, f, host)
  {
  }

  // ------------------------------------------------------------- one reading

  /** What opening and querying one snapshot entry produced. */
  datatype Reading = OpenFailed | Queried(facts: Option<Facts>) | QueryThrew

  datatype Entry = Entry(pid: int, reading: Reading)

  /** A successful query reports the process id it was asked about. */
  predicate Faithful(e: Entry) {
    e.reading.Queried? && e.reading.facts.Some? ==> e.reading.facts.value.pid == e.pid
  }

  function ReadFacts(e: Entry): Option<Facts> {
    if e.reading.Queried? then e.reading.facts else None
  }

  function ReasonFor(p: Policy, e: Entry, host: Host): Option<Reason> { ExclusionReason(p, ReadFacts(e), host) }

  function EligibleFacts(p: Policy, entries: seq<Entry>, host: Host): seq<Facts> {
    if entries == [] then []
    else
      var last := entries[|entries| - 1];
      EligibleFacts(p, entries[..|entries| - 1], host)
      + if ReasonFor(p, last, host).None? then [ReadFacts(last).value] else []
  }

  function Excluded(p: Policy, entries: seq<Entry>, host: Host, reason: Reason): nat {
    if entries == [] then 0
    else
      var last := entries[|entries| - 1];
      Excluded(p, entries[..|entries| - 1], host, reason) + if ReasonFor(p, last, host) == Some(reason) then 1 else 0
  }

  /** Every snapshot entry is counted once, as eligible or under one reason. */
  lemma {:induction false} CountsAddUp(p: Policy, entries: seq<Entry>, host: Host)
    ensures |entries| == |EligibleFacts(p, entries, host)|
      + Excluded(p, entries, host, Unqueryable) + Excluded(p, entries, host, SystemOrSelf)
      + Excluded(p, entries, host, ServiceSession) + Excluded(p, entries, host, CriticalProcess)
      + Excluded(p, entries, host, ServiceAccount) + Excluded(p, entries, host, WindowsImage)
      + Excluded(p, entries, host, ExcludedExecutable) + Excluded(p, entries, host, BelowMinimum)
  {
    if entries != [] { CountsAddUp(p, entries[..|entries| - 1], host); }
  }

  // ----------------------------------------------------------------- ranking

  /** Stable insertion: after every earlier element with at least as many private bytes. */
  function InsertRanked(x: Facts, ranked: seq<Facts>): seq<Facts> {
    if ranked == [] || x.privateBytes > ranked[0].privateBytes then [x] + ranked
    else [ranked[0]] + InsertRanked(x, ranked[1..])
  }

  /** The inspection order: private bytes descending, snapshot order on ties. */
  function Ranking(xs: seq<Facts>): seq<Facts> {
    if xs == [] then [] else InsertRanked(xs[|xs| - 1], Ranking(xs[..|xs| - 1]))
  }

  function WithBytes(xs: seq<Facts>, bytes: nat): seq<Facts> {
    if xs == [] then []
    else (if xs[0].privateBytes == bytes then [xs[0]] else []) + WithBytes(xs[1..], bytes)
  }

  lemma {:induction false} WithBytesAppend(xs: seq<Facts>, x: Facts, bytes: nat)
    ensures WithBytes(xs + [x], bytes) == WithBytes(xs, bytes) + if x.privateBytes == bytes then [x] else []
  {
    if xs != [] {
      WithBytesAppend(xs[1..], x, bytes);
      assert (xs + [x])[1..] == xs[1..] + [x];
    }
  }

  ghost predicate Descending(xs: seq<Facts>) {
    forall i, j :: 0 <= i < j < |xs| ==> xs[i].privateBytes >= xs[j].privateBytes
  }

  lemma {:induction false} InsertRankedDescends(x: Facts, ranked: seq<Facts>)
    requires Descending(ranked)
    ensures Descending(InsertRanked(x, ranked)) && |InsertRanked(x, ranked)| == |ranked| + 1
    ensures forall y :: y in InsertRanked(x, ranked) ==> y == x || y in ranked
  {
    if ranked != [] && x.privateBytes <= ranked[0].privateBytes {
      InsertRankedDescends(x, ranked[1..]);
      var rest := InsertRanked(x, ranked[1..]);
      assert ranked == [ranked[0]] + ranked[1..];
      forall i | 0 <= i < |rest| ensures ranked[0].privateBytes >= rest[i].privateBytes {
        assert rest[i] in rest;
      }
    }
  }

  lemma {:induction false} InsertRankedStable(x: Facts, ranked: seq<Facts>, bytes: nat)
    requires Descending(ranked)
    ensures WithBytes(InsertRanked(x, ranked), bytes) == WithBytes(ranked, bytes) + if x.privateBytes == bytes then [x] else []
  {
    if ranked == [] || x.privateBytes > ranked[0].privateBytes {
      assert ([x] + ranked)[1..] == ranked;
      if x.privateBytes == bytes { NoneWithBytes(ranked, bytes); }
    } else {
      InsertRankedStable(x, ranked[1..], bytes);
      assert InsertRanked(x, ranked)[1..] == InsertRanked(x, ranked[1..]);
    }
  }

  lemma {:induction false} NoneWithBytes(xs: seq<Facts>, bytes: nat)
    requires forall i :: 0 <= i < |xs| ==> xs[i].privateBytes < bytes
    ensures WithBytes(xs, bytes) == []
  {
    if xs != [] { NoneWithBytes(xs[1..], bytes); }
  }

  /** The ranking is a stable descending sort: ordered, nothing lost, ties in snapshot order. */
  lemma {:induction false} RankingIsStableSort(xs: seq<Facts>, bytes: nat)
    ensures Descending(Ranking(xs)) && |Ranking(xs)| == |xs|
    ensures WithBytes(Ranking(xs), bytes) == WithBytes(xs, bytes)
  {
    if xs != [] {
      var shorter := xs[..|xs| - 1];
      RankingIsStableSort(shorter, bytes);
      InsertRankedDescends(xs[|xs| - 1], Ranking(shorter));
      InsertRankedStable(xs[|xs| - 1], Ranking(shorter), bytes);
      WithBytesAppend(shorter, xs[|xs| - 1], bytes);
      assert xs == shorter + [xs[|xs| - 1]];
    }
  }

  /** The running maximum kept by the selection loop. */
  function Better(best: Option<Facts>, f: Facts): Option<Facts> {
    if best.Some? && f.privateBytes <= best.value.privateBytes then best else Some(f)
  }

  function FirstRanked(xs: seq<Facts>): Option<Facts> {
    if Ranking(xs) == [] then None else Some(Ranking(xs)[0])
  }

  lemma FirstRankedStep(xs: seq<Facts>, f: Facts)
    ensures FirstRanked(xs + [f]) == Better(FirstRanked(xs), f)
  {
    assert (xs + [f])[..|xs + [f]| - 1] == xs;
  }

  // ----------------------------------------------------------------- handles

  /** Process handles handed out by the kernel; numbers are never reused here. */
  class HandleTable {
    ghost var next: nat
    ghost var closes: multiset<nat>

    ghost predicate Valid()
      reads this
    {
      forall h :: closes[h] > 0 ==> h < next
    }

    ghost method Open() returns (handle: nat)
      requires Valid()
      modifies this
      ensures Valid() && handle == old(next) && next == old(next) + 1 && closes == old(closes)
    {
      handle := next;
      next := next + 1;
    }

    ghost method Close(handle: nat)
      requires Valid() && handle < next
      modifies this
      ensures Valid() && next == old(next) && closes == old(closes)[handle := old(closes)[handle] + 1]
    {
      closes := closes[handle := closes[handle] + 1];
    }
  }

  /** All handles opened since `start` are closed exactly once, except the ones kept. */
  ghost predicate Balanced(start: nat, next: nat, closes: multiset<nat>, kept: set<nat>) {
    && (forall h :: h in kept ==> start <= h < next)
    && forall h :: start <= h < next ==> closes[h] == if h in kept then 0 else 1
  }

  lemma EligibleNext(p: Policy, entries: seq<Entry>, host: Host, i: nat)
    requires i < |entries|
    ensures EligibleFacts(p, entries[..i + 1], host) == EligibleFacts(p, entries[..i], host)
      + if ReasonFor(p, entries[i], host).None? then [ReadFacts(entries[i]).value] else []
    ensures forall reason ::
      Excluded(p, entries[..i + 1], host, reason)
        == Excluded(p, entries[..i], host, reason) + if ReasonFor(p, entries[i], host) == Some(reason) then 1 else 0
  {
    assert entries[..i + 1][..i] == entries[..i];
  }

  /** The best eligible candidate among the entries, as a running maximum. */
  function Best(p: Policy, entries: seq<Entry>, host: Host): Option<Facts> {
    if entries == [] then None
    else
      var last := entries[|entries| - 1];
      var before := Best(p, entries[..|entries| - 1], host);
      if ReasonFor(p, last, host).None? then Better(before, ReadFacts(last).value) else before
  }

  /** The running maximum is the head of the ranking. */
  lemma {:induction false} BestIsFirstRanked(p: Policy, entries: seq<Entry>, host: Host)
    ensures Best(p, entries, host) == FirstRanked(EligibleFacts(p, entries, host))
  {
    if entries != [] {
      var last := entries[|entries| - 1];
      var before := EligibleFacts(p, entries[..|entries| - 1], host);
      BestIsFirstRanked(p, entries[..|entries| - 1], host);
      if ReasonFor(p, last, host).None? {
        FirstRankedStep(before, ReadFacts(last).value);
      } else {
        assert EligibleFacts(p, entries, host) == before;
      }
    }
  }

  /** One entry of the selection loop; on an exception both its handle and the best one are closed. */
  method Consider(p: Policy, e: Entry, host: Host, handles: HandleTable, best: Option<Facts>, ghost owned: nat, ghost start: nat)
    returns (threw: bool, best': Option<Facts>, ghost owned': nat)
    requires handles.Valid() && start <= handles.next
    requires Balanced(start, handles.next, handles.closes, if best.Some? then {owned} else {})
    modifies handles
    ensures handles.Valid() && start <= handles.next
    ensures threw <==> Throws(e, host)
    ensures threw ==> Balanced(start, handles.next, handles.closes, {})
    ensures !threw ==> Balanced(start, handles.next, handles.closes, if best'.Some? then {owned'} else {})
    ensures !threw && Faithful(e) ==>
      best' == if ReasonFor(p, e, host).None? then Better(best, ReadFacts(e).value) else best
  {
    threw, best', owned' := false, best, owned;
    if e.pid < 5 || e.pid == host.ownPid { return; }
    if e.reading.OpenFailed? { return; }
    ghost var handle := handles.Open();
    if e.reading.QueryThrew? {
      handles.Close(handle);
      if best.Some? { handles.Close(owned); }
      threw := true;
      return;
    }
    if ExclusionReason(p, e.reading.facts, host).Some? {
      handles.Close(handle);
      return;
    }
    var facts := e.reading.facts.value;
    if best.Some? && facts.privateBytes <= best.value.privateBytes {
      handles.Close(handle);
      return;
    }
    if best.Some? { handles.Close(owned); }
    best', owned' := Some(facts), handle;
  }

  /** Selection: the entry owned by the result is the only one left open; `None` outside is an exception. */
  method FindCandidate(p: Policy, entries: seq<Entry>, host: Host, handles: HandleTable)
    returns (r: Option<Option<Facts>>, ghost owned: nat)
    requires handles.Valid() && forall e :: e in entries ==> Faithful(e)
    modifies handles
    ensures handles.Valid()
    ensures r.None? <==> exists e :: e in entries && Throws(e, host)
    ensures r.Some? ==> r.value == FirstRanked(EligibleFacts(p, entries, host))
    ensures Balanced(old(handles.next), handles.next, handles.closes, if r.Some? && r.value.Some? then {owned} else {})
  {
    ghost var start := handles.next;
    var best: Option<Facts> := None;
    owned := 0;
    for i := 0 to |entries|
      invariant handles.Valid() && start <= handles.next
      invariant forall k :: 0 <= k < i ==> !Throws(entries[k], host)
      invariant best == Best(p, entries[..i], host)
      invariant Balanced(start, handles.next, handles.closes, if best.Some? then {owned} else {})
    {
      assert entries[i] in entries;
      var threw, next, kept := Consider(p, entries[i], host, handles, best, owned, start);
      if threw { return None, owned; }
      assert entries[..i + 1][..i] == entries[..i];
      best, owned := next, kept;
    }
    assert entries[..|entries|] == entries;
    BestIsFirstRanked(p, entries, host);
    return Some(best), owned;
  }

  /** An entry whose query raises an exception that is not swallowed. */
  predicate Throws(e: Entry, host: Host) {
    e.pid >= 5 && e.pid != host.ownPid && e.reading.QueryThrew?
  }

  /** One entry of the inspection loop; its handle is closed on every path. */
  method ReadEntry(e: Entry, handles: HandleTable, ghost start: nat) returns (threw: bool, facts: Option<Facts>)
    requires handles.Valid() && start <= handles.next && Balanced(start, handles.next, handles.closes, {})
    modifies handles
    ensures handles.Valid() && start <= handles.next && Balanced(start, handles.next, handles.closes, {})
    ensures (threw <==> e.reading.QueryThrew?) && (!threw ==> facts == ReadFacts(e))
  {
    if e.reading.OpenFailed? { return false, None; }
    ghost var handle := handles.Open();
    handles.Close(handle);
    if e.reading.QueryThrew? { return true, None; }
    return false, e.reading.facts;
  }

  /** The read-only inspection; `None` is the exception of a query that raised. */
  method InspectCandidates(p: Policy, entries: seq<Entry>, host: Host, handles: HandleTable)
    returns (r: Option<(seq<Facts>, map<Reason, nat>)>)
    requires handles.Valid()
    modifies handles
    ensures handles.Valid() && Balanced(old(handles.next), handles.next, handles.closes, {})
    ensures r.None? <==> exists e :: e in entries && e.reading.QueryThrew?
    ensures r.Some? ==> r.value.0 == Ranking(EligibleFacts(p, entries, host))
    ensures r.Some? ==> forall reason :: CountOf(r.value.1, reason) == Excluded(p, entries, host, reason)
  {
    ghost var start := handles.next;
    var eligible: seq<Facts> := [];
    var excluded: map<Reason, nat> := map[];
    for i := 0 to |entries|
      invariant handles.Valid() && start <= handles.next && Balanced(start, handles.next, handles.closes, {})
      invariant forall k :: 0 <= k < i ==> !entries[k].reading.QueryThrew?
      invariant eligible == EligibleFacts(p, entries[..i], host)
      invariant forall reason :: CountOf(excluded, reason) == Excluded(p, entries[..i], host, reason)
    {
      assert entries[i] in entries;
      var threw, facts := ReadEntry(entries[i], handles, start);
      if threw { return None; }
      EligibleNext(p, entries, host, i);
      var reason := ExclusionReason(p, facts, host);
      if reason.None? {
        eligible := eligible + [facts.value];
      } else {
        if reason.value !in excluded { excluded := excluded[reason.value := 0]; }
        excluded := excluded[reason.value := excluded[reason.value] + 1];
      }
    }
    assert entries[..|entries|] == entries;
    return Some((Ranking(eligible), excluded));
  }

  function CountOf(counts: map<Reason, nat>, reason: Reason): nat {
    if reason in counts then counts[reason] else 0
  }

  /** Selecting and inspecting the same readings agree: the victim heads the ranking, or both are empty. */
  lemma VictimHeadsRanking(p: Policy, entries: seq<Entry>, host: Host)
    ensures var found := FirstRanked(EligibleFacts(p, entries, host));
      var ranked := Ranking(EligibleFacts(p, entries, host));
      && (found.None? <==> EligibleFacts(p, entries, host) == [])
      && (found.Some? ==> forall f :: f in ranked ==> f.privateBytes <= found.value.privateBytes)
      && (found.Some? ==> [found.value] <= WithBytes(EligibleFacts(p, entries, host), found.value.privateBytes))
  {
    var xs := EligibleFacts(p, entries, host);
    RankingIsStableSort(xs, 0);
    if xs != [] {
      var top := Ranking(xs)[0];
      RankingIsStableSort(xs, top.privateBytes);
      assert [top] <= WithBytes(Ranking(xs), top.privateBytes);
    }
  }
}
