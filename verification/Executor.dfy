/** Running a plan with failure propagation; each module's own outcome is an input. */
module Executor {
  import opened Catalogs
  import opened Planner

  datatype Status = Succeeded | Failed | Skipped

  /** Invoking a module adds zero or more failures, or throws and ends the script. */
  datatype Invocation = Completes(added: nat) | Aborts

  datatype Report =
    | BlockedByStages(name: Name, stages: seq<Name>)
    | BlockedByDependencies(name: Name, dependencies: seq<Name>)
    | ModuleFailure(name: Name)

  // -------------------------------------------------------- declarative run

  /** A module of a strictly earlier stage failed before entry `k` was reached. */
  ghost predicate StageBlocked(ix: Index, plan: seq<Name>, st: seq<Status>, k: nat)
    requires SoundPlan(ix, plan) && k < |plan| && k <= |st|
  {
    exists j :: 0 <= j < k && st[j] == Failed && Level(ix, plan[j]) < Level(ix, plan[k])
  }

  ghost predicate DependencyBlocked(ix: Index, plan: seq<Name>, st: seq<Status>, k: nat)
    requires SoundPlan(ix, plan) && k < |plan| && k <= |st|
  {
    exists j :: 0 <= j < k && plan[j] in ix.modules[plan[k]].dependsOn && st[j] != Succeeded
  }

  ghost predicate Admitted(ix: Index, plan: seq<Name>, st: seq<Status>, k: nat)
    requires SoundPlan(ix, plan) && k < |plan| && k <= |st|
  {
    !StageBlocked(ix, plan, st, k) && !DependencyBlocked(ix, plan, st, k)
  }

  /** `st` lists the statuses of the entries reached, each decided from the ones before it. */
  ghost predicate RunOf(ix: Index, plan: seq<Name>, invocations: seq<Invocation>, st: seq<Status>)
    requires SoundPlan(ix, plan) && |invocations| == |plan|
  {
    |st| <= |plan| && forall k :: 0 <= k < |st| ==> StatusRule(ix, plan, invocations, st, k)
  }

  ghost predicate StatusRule(ix: Index, plan: seq<Name>, invocations: seq<Invocation>, st: seq<Status>, k: nat)
    requires SoundPlan(ix, plan) && |invocations| == |plan| && k < |st| <= |plan|
  {
    if Admitted(ix, plan, st, k) then
      invocations[k].Completes? && st[k] == if invocations[k].added == 0 then Succeeded else Failed
    else st[k] == Skipped
  }

  ghost predicate Reaches(ix: Index, plan: seq<Name>, a: Name, b: Name) {
    exists p :: Walk(ix, Elems(plan), p) && |p| >= 2 && p[0] == a && p[|p| - 1] == b
  }

  /** A failed module of an earlier stage, or one that entry `k` depends on directly or indirectly. */
  ghost predicate RootCause(ix: Index, plan: seq<Name>, st: seq<Status>, k: nat, j: nat)
    requires SoundPlan(ix, plan) && k < |plan| && j < |st| <= |plan|
  {
    st[j] == Failed && (Level(ix, plan[j]) < Level(ix, plan[k]) || Reaches(ix, plan, plan[k], plan[j]))
  }

  /** An entry is skipped exactly when some failure is its root cause. */
  lemma {:induction false} SkippedIffRootCause(ix: Index, plan: seq<Name>, invocations: seq<Invocation>, st: seq<Status>, k: nat)
    requires SoundPlan(ix, plan) && |invocations| == |plan| && RunOf(ix, plan, invocations, st) && k < |st|
    ensures st[k] == Skipped <==> exists j :: 0 <= j < |st| && RootCause(ix, plan, st, k, j)
    decreases k
  {
    assert StatusRule(ix, plan, invocations, st, k);
    if st[k] == Skipped { SkippedHasRootCause(ix, plan, invocations, st, k); }
    if j :| 0 <= j < |st| && RootCause(ix, plan, st, k, j) {
      if Level(ix, plan[j]) < Level(ix, plan[k]) {
        assert j < k;
        assert StageBlocked(ix, plan, st, k);
      } else {
        var p :| Walk(ix, Elems(plan), p) && |p| >= 2 && p[0] == plan[k] && p[|p| - 1] == plan[j];
        RootCauseSkips(ix, plan, invocations, st, k, j, p);
      }
    }
  }

  lemma {:induction false} SkippedHasRootCause(ix: Index, plan: seq<Name>, invocations: seq<Invocation>, st: seq<Status>, k: nat)
    requires SoundPlan(ix, plan) && |invocations| == |plan| && RunOf(ix, plan, invocations, st) && k < |st|
    requires st[k] == Skipped
    ensures exists j :: 0 <= j < k && RootCause(ix, plan, st, k, j)
    decreases k
  {
    assert StatusRule(ix, plan, invocations, st, k);
    if StageBlocked(ix, plan, st, k) {
      var j :| 0 <= j < k && st[j] == Failed && Level(ix, plan[j]) < Level(ix, plan[k]);
      assert RootCause(ix, plan, st, k, j);
    } else {
      var d :| 0 <= d < k && plan[d] in ix.modules[plan[k]].dependsOn && st[d] != Succeeded;
      EdgeInPlan(ix, plan, k, d);
      if st[d] == Failed {
        assert Walk(ix, Elems(plan), [plan[k], plan[d]]);
        assert RootCause(ix, plan, st, k, d);
      } else {
        SkippedHasRootCause(ix, plan, invocations, st, d);
        var j :| 0 <= j < d && RootCause(ix, plan, st, d, j);
        if Level(ix, plan[j]) >= Level(ix, plan[k]) {
          var p :| Walk(ix, Elems(plan), p) && |p| >= 2 && p[0] == plan[d] && p[|p| - 1] == plan[j];
          WalkPrepends(ix, Elems(plan), plan[k], p);
        }
        assert RootCause(ix, plan, st, k, j);
      }
    }
  }

  lemma EdgeInPlan(ix: Index, plan: seq<Name>, k: nat, d: nat)
    requires SoundPlan(ix, plan) && k < |plan| && d < |plan| && plan[d] in ix.modules[plan[k]].dependsOn
    ensures DependsOn(ix, Elems(plan), plan[k], plan[d])
  {
    assert plan[k] in Elems(plan) && plan[d] in Elems(plan);
  }

  lemma WalkPrepends(ix: Index, s: set<Name>, n: Name, p: seq<Name>)
    requires Walk(ix, s, p) && DependsOn(ix, s, n, p[0])
    ensures Walk(ix, s, [n] + p)
  {
    var longer := [n] + p;
    forall i | 0 <= i < |longer| - 1 ensures DependsOn(ix, s, longer[i], longer[i + 1]) {
      if i > 0 { assert DependsOn(ix, s, p[i - 1], p[i]); }
    }
  }

  lemma {:induction false} RootCauseSkips(ix: Index, plan: seq<Name>, invocations: seq<Invocation>, st: seq<Status>,
                                          k: nat, j: nat, p: seq<Name>)
    requires SoundPlan(ix, plan) && |invocations| == |plan| && RunOf(ix, plan, invocations, st) && k < |st|
    requires j < |st| && st[j] == Failed
    requires Walk(ix, Elems(plan), p) && |p| >= 2 && p[0] == plan[k] && p[|p| - 1] == plan[j]
    ensures st[k] == Skipped
    decreases |p|
  {
    assert DependsOn(ix, Elems(plan), p[0], p[1]);
    assert Preceded(ix, plan, k);
    var d :| 0 <= d < |plan[..k]| && plan[..k][d] == p[1];
    if |p| > 2 {
      WalkSuffix(ix, Elems(plan), p, 1);
      RootCauseSkips(ix, plan, invocations, st, d, j, p[1..]);
    } else {
      assert d == j;
    }
    assert st[d] != Succeeded;
    assert StatusRule(ix, plan, invocations, st, k);
    assert DependencyBlocked(ix, plan, st, k);
  }

  lemma {:induction false} ReachedLevels(ix: Index, plan: seq<Name>, p: seq<Name>)
    requires ValidIndex(ix) && SoundPlan(ix, plan) && Walk(ix, Elems(plan), p)
    requires p[0] in ix.modules
    ensures p[|p| - 1] in ix.modules && Level(ix, p[|p| - 1]) <= Level(ix, p[0])
    decreases |p|
  {
    if |p| > 1 {
      assert DependsOn(ix, Elems(plan), p[0], p[1]);
      assert NoLater(ix, p[1], Level(ix, p[0]));
      WalkSuffix(ix, Elems(plan), p, 1);
      ReachedLevels(ix, plan, p[1..]);
    }
  }

  /** Every skipped module has a failed root cause in a stage no later than its own. */
  lemma SkippedCauseIsNoLater(ix: Index, plan: seq<Name>, invocations: seq<Invocation>, st: seq<Status>, k: nat)
    requires ValidIndex(ix) && SoundPlan(ix, plan) && |invocations| == |plan| && RunOf(ix, plan, invocations, st)
    requires k < |st| && st[k] == Skipped
    ensures exists j :: 0 <= j < k && st[j] == Failed && Level(ix, plan[j]) <= Level(ix, plan[k])
  {
    SkippedHasRootCause(ix, plan, invocations, st, k);
    var j :| 0 <= j < k && RootCause(ix, plan, st, k, j);
    if Reaches(ix, plan, plan[k], plan[j]) {
      var p :| Walk(ix, Elems(plan), p) && |p| >= 2 && p[0] == plan[k] && p[|p| - 1] == plan[j];
      ReachedLevels(ix, plan, p);
    }
  }

  /** At the moment a module is invoked its dependencies, its earlier-stage gates and every earlier-stage module have succeeded. */
  lemma InvokedOnlyWhenSafe(ix: Index, plan: seq<Name>, invocations: seq<Invocation>, st: seq<Status>, k: nat)
    requires ValidIndex(ix) && SoundPlan(ix, plan) && |invocations| == |plan| && RunOf(ix, plan, invocations, st)
    requires k < |plan| && k <= |st| && Admitted(ix, plan, st, k)
    ensures forall d :: d in ix.modules[plan[k]].dependsOn ==> exists j :: 0 <= j < k && plan[j] == d && st[j] == Succeeded
    ensures forall j :: 0 <= j < |plan| && Level(ix, plan[j]) < Level(ix, plan[k]) ==> j < k && st[j] == Succeeded
    ensures forall g :: g in Needs(ix, plan[k]) && g in ix.modules && Level(ix, g) < Level(ix, plan[k])
              ==> exists j :: 0 <= j < k && plan[j] == g && st[j] == Succeeded
  {
    assert Preceded(ix, plan, k);
    forall d | d in ix.modules[plan[k]].dependsOn ensures exists j :: 0 <= j < k && plan[j] == d && st[j] == Succeeded {
      var j :| 0 <= j < |plan[..k]| && plan[..k][j] == d;
      assert plan[j] == d;
    }
    forall j | 0 <= j < |plan| && Level(ix, plan[j]) < Level(ix, plan[k]) ensures j < k && st[j] == Succeeded {
      if j < k && st[j] == Skipped { SkippedCauseIsNoLater(ix, plan, invocations, st, j); }
    }
    forall g | g in Needs(ix, plan[k]) && g in ix.modules && Level(ix, g) < Level(ix, plan[k])
      ensures exists j :: 0 <= j < k && plan[j] == g && st[j] == Succeeded
    {
      var j :| 0 <= j < |plan[..k]| && plan[..k][j] == g;
      assert plan[j] == g;
    }
  }

  // -------------------------------------------------------------- execution

  function InvokedNames(plan: seq<Name>, st: seq<Status>): seq<Name>
    requires |st| <= |plan|
  {
    if st == [] then []
    else
      var n := |st| - 1;
      InvokedNames(plan, st[..n]) + if st[n] == Skipped then [] else [plan[n]]
  }

  ghost predicate StatusAgrees(plan: seq<Name>, st: seq<Status>, status: map<Name, Status>)
    requires |st| <= |plan|
  {
    && status.Keys == Elems(plan[..|st|])
    && forall k :: 0 <= k < |st| ==> plan[k] in status && status[plan[k]] == st[k]
  }

  ghost predicate AllSucceeded(st: seq<Status>) {
    forall k :: 0 <= k < |st| ==> st[k] == Succeeded
  }

  function StagesBefore(ix: Index, failedStages: seq<Name>, level: int): (r: seq<Name>)
    ensures forall s :: s in r <==> s in failedStages && StageOrder(ix, s) < level
  {
    if failedStages == [] then []
    else
      assert failedStages == [failedStages[0]] + failedStages[1..];
      var rest := StagesBefore(ix, failedStages[1..], level);
      if StageOrder(ix, failedStages[0]) < level then [failedStages[0]] + rest else rest
  }

  function Unsucceeded(status: map<Name, Status>, names: seq<Name>): (r: seq<Name>)
    ensures forall n :: n in r <==> n in names && n in status && status[n] != Succeeded
  {
    if names == [] then []
    else
      assert names == [names[0]] + names[1..];
      var rest := Unsucceeded(status, names[1..]);
      if names[0] in status && status[names[0]] != Succeeded then [names[0]] + rest else rest
  }

  /** How the failed stages relate to the statuses so far. */
  ghost predicate TracksFailures(ix: Index, plan: seq<Name>, st: seq<Status>, failedStages: seq<Name>)
    requires SoundPlan(ix, plan) && |st| <= |plan|
  {
    && (forall s :: s in failedStages ==> exists j :: 0 <= j < |st| && st[j] == Failed && ix.modules[plan[j]].stage == s)
    && (forall j :: 0 <= j < |st| && st[j] == Failed ==> ix.modules[plan[j]].stage in failedStages)
  }

  lemma StagesMatch(ix: Index, plan: seq<Name>, st: seq<Status>, failedStages: seq<Name>)
    requires SoundPlan(ix, plan) && |st| < |plan| && TracksFailures(ix, plan, st, failedStages)
    ensures StagesBefore(ix, failedStages, Level(ix, plan[|st|])) != [] <==> StageBlocked(ix, plan, st, |st|)
  {
    var early := StagesBefore(ix, failedStages, Level(ix, plan[|st|]));
    if early != [] { assert early[0] in early; }
    if j :| 0 <= j < |st| && st[j] == Failed && Level(ix, plan[j]) < Level(ix, plan[|st|]) {
      assert ix.modules[plan[j]].stage in early;
    }
  }

  lemma DependenciesMatch(ix: Index, plan: seq<Name>, st: seq<Status>, status: map<Name, Status>)
    requires SoundPlan(ix, plan) && |st| < |plan| && StatusAgrees(plan, st, status)
    ensures Unsucceeded(status, ix.modules[plan[|st|]].dependsOn) != [] <==> DependencyBlocked(ix, plan, st, |st|)
  {
    var unmet := Unsucceeded(status, ix.modules[plan[|st|]].dependsOn);
    if unmet != [] {
      assert unmet[0] in unmet && unmet[0] in Elems(plan[..|st|]);
      var j :| 0 <= j < |plan[..|st|]| && plan[..|st|][j] == unmet[0];
      assert plan[j] == unmet[0];
    }
    if j :| 0 <= j < |st| && plan[j] in ix.modules[plan[|st|]].dependsOn && st[j] != Succeeded {
      assert plan[j] in unmet;
    }
  }

  /** What entry `k` contributes to the failure list. */
  ghost predicate ReportsFor(ix: Index, plan: seq<Name>, invocations: seq<Invocation>, st: seq<Status>, k: nat, g: seq<Report>)
    requires SoundPlan(ix, plan) && |invocations| == |plan| && k < |st| <= |plan|
  {
    if StageBlocked(ix, plan, st, k) then
      && |g| == 1 && g[0].BlockedByStages? && g[0].name == plan[k]
      && forall s :: s in g[0].stages <==> FailedEarlier(ix, plan, st, k, s)
    else if DependencyBlocked(ix, plan, st, k) then
      && |g| == 1 && g[0].BlockedByDependencies? && g[0].name == plan[k]
      && forall d :: d in g[0].dependencies <==> Unmet(ix, plan, st, k, d)
    else invocations[k].Completes? && g == seq(invocations[k].added, i => ModuleFailure(plan[k]))
  }

  /** A stage before that of entry `k` in which a module failed. */
  ghost predicate FailedEarlier(ix: Index, plan: seq<Name>, st: seq<Status>, k: nat, stage: Name)
    requires SoundPlan(ix, plan) && k < |plan| && k <= |st|
  {
    exists j :: 0 <= j < k && st[j] == Failed && ix.modules[plan[j]].stage == stage && Level(ix, plan[j]) < Level(ix, plan[k])
  }

  ghost predicate Unmet(ix: Index, plan: seq<Name>, st: seq<Status>, k: nat, d: Name)
    requires SoundPlan(ix, plan) && k < |plan| && k <= |st|
  {
    d in ix.modules[plan[k]].dependsOn && exists j :: 0 <= j < k && plan[j] == d && st[j] != Succeeded
  }

  function Flatten(groups: seq<seq<Report>>): seq<Report> {
    if groups == [] then [] else Flatten(groups[..|groups| - 1]) + groups[|groups| - 1]
  }

  /** The failure list is the concatenation of the entries' contributions, in plan order. */
  ghost predicate Reported(ix: Index, plan: seq<Name>, invocations: seq<Invocation>, st: seq<Status>, groups: seq<seq<Report>>, reports: seq<Report>)
    requires SoundPlan(ix, plan) && |invocations| == |plan| && |st| <= |plan|
  {
    && |groups| == |st| && reports == Flatten(groups)
    && forall k :: 0 <= k < |st| ==> ReportsFor(ix, plan, invocations, st, k, groups[k])
  }

  lemma StageReport(ix: Index, plan: seq<Name>, st: seq<Status>, failedStages: seq<Name>, s: Name)
    requires SoundPlan(ix, plan) && |st| < |plan| && TracksFailures(ix, plan, st, failedStages)
    ensures s in StagesBefore(ix, failedStages, Level(ix, plan[|st|])) <==> FailedEarlier(ix, plan, st, |st|, s)
  {
  }

  lemma DependencyReport(ix: Index, plan: seq<Name>, st: seq<Status>, status: map<Name, Status>, d: Name)
    requires SoundPlan(ix, plan) && |st| < |plan| && StatusAgrees(plan, st, status)
    ensures d in Unsucceeded(status, ix.modules[plan[|st|]].dependsOn) <==> Unmet(ix, plan, st, |st|, d)
  {
    if d in status {
      assert d in Elems(plan[..|st|]);
      var j :| 0 <= j < |plan[..|st|]| && plan[..|st|][j] == d;
      assert plan[j] == d;
    }
  }

  lemma BlocksExtend(ix: Index, plan: seq<Name>, st: seq<Status>, s: Status, k: nat)
    requires SoundPlan(ix, plan) && |st| < |plan| && k <= |st|
    ensures StageBlocked(ix, plan, st + [s], k) <==> StageBlocked(ix, plan, st, k)
    ensures DependencyBlocked(ix, plan, st + [s], k) <==> DependencyBlocked(ix, plan, st, k)
    ensures forall n :: FailedEarlier(ix, plan, st + [s], k, n) <==> FailedEarlier(ix, plan, st, k, n)
    ensures forall d :: Unmet(ix, plan, st + [s], k, d) <==> Unmet(ix, plan, st, k, d)
  {
    var st' := st + [s];
    assert forall j :: 0 <= j < |st| ==> st'[j] == st[j];
  }

  lemma ReportedNext(ix: Index, plan: seq<Name>, invocations: seq<Invocation>, st: seq<Status>, groups: seq<seq<Report>>,
                     reports: seq<Report>, s: Status, g: seq<Report>)
    requires SoundPlan(ix, plan) && |invocations| == |plan| && |st| < |plan| && Reported(ix, plan, invocations, st, groups, reports)
    requires ReportsFor(ix, plan, invocations, st + [s], |st|, g)
    ensures Reported(ix, plan, invocations, st + [s], groups + [g], reports + g)
  {
    var groups' := groups + [g];
    assert groups'[..|groups|] == groups;
    forall k | 0 <= k < |st| ensures ReportsFor(ix, plan, invocations, st + [s], k, groups'[k]) {
      BlocksExtend(ix, plan, st, s, k);
      assert ReportsFor(ix, plan, invocations, st, k, groups[k]);
    }
  }

  lemma StatusNext(plan: seq<Name>, st: seq<Status>, status: map<Name, Status>, s: Status)
    requires Distinct(plan) && |st| < |plan| && StatusAgrees(plan, st, status)
    ensures StatusAgrees(plan, st + [s], status[plan[|st|] := s])
    ensures InvokedNames(plan, st + [s]) == InvokedNames(plan, st) + if s == Skipped then [] else [plan[|st|]]
    ensures AllSucceeded(st + [s]) <==> AllSucceeded(st) && s == Succeeded
  {
    var st' := st + [s];
    assert st'[..|st|] == st;
    assert plan[..|st'|] == plan[..|st|] + [plan[|st|]];
    assert Elems(plan[..|st'|]) == Elems(plan[..|st|]) + {plan[|st|]};
    assert st'[|st|] == s;
    assert forall i :: 0 <= i < |st| ==> st[i] == st'[i];
  }

  lemma RunExtends(ix: Index, plan: seq<Name>, invocations: seq<Invocation>, st: seq<Status>, s: Status)
    requires SoundPlan(ix, plan) && |invocations| == |plan| && RunOf(ix, plan, invocations, st) && |st| < |plan|
    requires if Admitted(ix, plan, st, |st|) then
               invocations[|st|].Completes? && s == if invocations[|st|].added == 0 then Succeeded else Failed
             else s == Skipped
    ensures RunOf(ix, plan, invocations, st + [s])
  {
    var st' := st + [s];
    forall k | 0 <= k < |st'| ensures StatusRule(ix, plan, invocations, st', k) {
      if k < |st| { assert StatusRule(ix, plan, invocations, st, k); }
      assert StageBlocked(ix, plan, st', k) <==> StageBlocked(ix, plan, st, k);
      assert DependencyBlocked(ix, plan, st', k) <==> DependencyBlocked(ix, plan, st, k);
    }
  }

  /** Decide one entry: whether it is blocked and by what, or what its invocation reports; an abort ends the script. */
  method Attempt(ix: Index, plan: seq<Name>, invocations: seq<Invocation>, status: map<Name, Status>, failedStages: seq<Name>,
                 k: nat, ghost st: seq<Status>) returns (next: Status, added: seq<Report>, aborted: bool)
    requires SoundPlan(ix, plan) && |invocations| == |plan| && k == |st| < |plan|
    requires StatusAgrees(plan, st, status) && TracksFailures(ix, plan, st, failedStages)
    ensures aborted <==> Admitted(ix, plan, st, k) && invocations[k] == Aborts
    ensures !aborted && Admitted(ix, plan, st, k) ==> next == if invocations[k].added == 0 then Succeeded else Failed
    ensures !Admitted(ix, plan, st, k) ==> next == Skipped
    ensures !aborted ==> ReportsFor(ix, plan, invocations, st + [next], k, added) && (added == [] <==> next == Succeeded)
  {
    var name := plan[k];
    StagesMatch(ix, plan, st, failedStages);
    DependenciesMatch(ix, plan, st, status);
    BlocksExtend(ix, plan, st, Skipped, k);
    var blockedStages := StagesBefore(ix, failedStages, Level(ix, name));
    var blockedDependencies := Unsucceeded(status, ix.modules[name].dependsOn);
    if |blockedStages| > 0 {
      forall s ensures s in blockedStages <==> FailedEarlier(ix, plan, st, k, s) { StageReport(ix, plan, st, failedStages, s); }
      return Skipped, [BlockedByStages(name, blockedStages)], false;
    }
    if |blockedDependencies| > 0 {
      forall d ensures d in blockedDependencies <==> Unmet(ix, plan, st, k, d) { DependencyReport(ix, plan, st, status, d); }
      return Skipped, [BlockedByDependencies(name, blockedDependencies)], false;
    }
    if invocations[k].Aborts? { return Failed, [], true; }
    added := seq(invocations[k].added, i => ModuleFailure(name));
    next := if |added| == 0 then Succeeded else Failed;
    BlocksExtend(ix, plan, st, next, k);
    return next, added, false;
  }

  /** The script's variables between two entries. */
  datatype Progress = Progress(status: map<Name, Status>, reports: seq<Report>, invoked: seq<Name>, failedStages: seq<Name>)

  ghost predicate InStep(ix: Index, plan: seq<Name>, invocations: seq<Invocation>, st: seq<Status>, groups: seq<seq<Report>>, p: Progress)
    requires SoundPlan(ix, plan) && |invocations| == |plan|
  {
    && RunOf(ix, plan, invocations, st) && StatusAgrees(plan, st, p.status)
    && Reported(ix, plan, invocations, st, groups, p.reports) && (p.reports == [] <==> AllSucceeded(st))
    && p.invoked == InvokedNames(plan, st)
    && TracksFailures(ix, plan, st, p.failedStages)
  }

  /** One round of the loop; `aborted` means that the invocation threw. */
  method RunEntry(ix: Index, plan: seq<Name>, invocations: seq<Invocation>, k: nat, p: Progress,
                  ghost st: seq<Status>, ghost groups: seq<seq<Report>>)
    returns (q: Progress, aborted: bool, ghost st': seq<Status>, ghost groups': seq<seq<Report>>)
    requires SoundPlan(ix, plan) && |invocations| == |plan| && k == |st| < |plan| && InStep(ix, plan, invocations, st, groups, p)
    ensures !aborted ==> |st'| == k + 1 && InStep(ix, plan, invocations, st', groups', q)
    ensures aborted ==> Admitted(ix, plan, st, k) && invocations[k] == Aborts && q == p.(invoked := p.invoked + [plan[k]])
  {
    var next, added;
    next, added, aborted := Attempt(ix, plan, invocations, p.status, p.failedStages, k, st);
    if aborted { return p.(invoked := p.invoked + [plan[k]]), true, st, groups; }
    var failedStages := NoteFailure(ix, next, plan[k], p.failedStages);
    EntryDone(ix, plan, invocations, st, groups, p.status, p.reports, failedStages, next, added);
    q := Progress(p.status[plan[k] := next], p.reports + added,
                  if next == Skipped then p.invoked else p.invoked + [plan[k]], failedStages);
    return q, false, st + [next], groups + [added];
  }

  /** What the script's variables say at the end: the statuses `st` follow the rules, and everything reported follows from them. */
  ghost predicate Tells(ix: Index, plan: seq<Name>, invocations: seq<Invocation>, r: Progress, aborted: bool,
                        st: seq<Status>, groups: seq<seq<Report>>)
    requires SoundPlan(ix, plan) && |invocations| == |plan|
  {
    && RunOf(ix, plan, invocations, st) && StatusAgrees(plan, st, r.status)
    && Reported(ix, plan, invocations, st, groups, r.reports) && (r.reports == [] <==> AllSucceeded(st))
    && if aborted then |st| < |plan| && Admitted(ix, plan, st, |st|) && invocations[|st|] == Aborts
                       && r.invoked == InvokedNames(plan, st) + [plan[|st|]]
       else |st| == |plan| && r.invoked == InvokedNames(plan, st)
  }

  /** The execution loop; `aborted` means that an invocation threw. */
  method Execute(ix: Index, plan: seq<Name>, invocations: seq<Invocation>) returns (r: Progress, aborted: bool)
    requires SoundPlan(ix, plan) && |invocations| == |plan|
    ensures exists st, groups :: Tells(ix, plan, invocations, r, aborted, st, groups)
  {
    r, aborted := Progress(map[], [], [], []), false;
    ghost var st, groups := [], [];
    for k := 0 to |plan|
      invariant |st| == k && !aborted && InStep(ix, plan, invocations, st, groups, r)
    {
      ghost var st', groups';
      r, aborted, st', groups' := RunEntry(ix, plan, invocations, k, r, st, groups);
      if aborted {
        assert Tells(ix, plan, invocations, r, aborted, st, groups);
        return;
      }
      st, groups := st', groups';
    }
    assert Tells(ix, plan, invocations, r, aborted, st, groups);
  }

  /** There is only one way the statuses can have come out. */
  lemma {:induction false} RunIsDetermined(ix: Index, plan: seq<Name>, invocations: seq<Invocation>, a: seq<Status>, b: seq<Status>, n: nat)
    requires SoundPlan(ix, plan) && |invocations| == |plan| && RunOf(ix, plan, invocations, a) && RunOf(ix, plan, invocations, b)
    requires n <= |a| && n <= |b|
    ensures a[..n] == b[..n]
  {
    if n > 0 {
      RunIsDetermined(ix, plan, invocations, a, b, n - 1);
      var k := n - 1;
      assert forall j :: 0 <= j < k ==> a[j] == a[..k][j] == b[..k][j] == b[j];
      assert StatusRule(ix, plan, invocations, a, k) && StatusRule(ix, plan, invocations, b, k);
      assert StageBlocked(ix, plan, a, k) <==> StageBlocked(ix, plan, b, k);
      assert DependencyBlocked(ix, plan, a, k) <==> DependencyBlocked(ix, plan, b, k);
    }
  }

  lemma EntryDone(ix: Index, plan: seq<Name>, invocations: seq<Invocation>, st: seq<Status>, groups: seq<seq<Report>>,
                  status: map<Name, Status>, reports: seq<Report>, failedStages: seq<Name>, next: Status, added: seq<Report>)
    requires SoundPlan(ix, plan) && |invocations| == |plan| && |st| < |plan| && RunOf(ix, plan, invocations, st)
    requires StatusAgrees(plan, st, status) && Reported(ix, plan, invocations, st, groups, reports)
    requires reports == [] <==> AllSucceeded(st)
    requires added == [] <==> next == Succeeded
    requires ReportsFor(ix, plan, invocations, st + [next], |st|, added)
    requires if Admitted(ix, plan, st, |st|) then
               invocations[|st|].Completes? && next == if invocations[|st|].added == 0 then Succeeded else Failed
             else next == Skipped
    requires forall n :: n in failedStages ==>
      (next == Failed && n == ix.modules[plan[|st|]].stage) || exists j :: 0 <= j < |st| && st[j] == Failed && ix.modules[plan[j]].stage == n
    requires forall j :: 0 <= j < |st| && st[j] == Failed ==> ix.modules[plan[j]].stage in failedStages
    requires next == Failed ==> ix.modules[plan[|st|]].stage in failedStages
    ensures RunOf(ix, plan, invocations, st + [next]) && StatusAgrees(plan, st + [next], status[plan[|st|] := next])
    ensures InvokedNames(plan, st + [next]) == InvokedNames(plan, st) + if next == Skipped then [] else [plan[|st|]]
    ensures Reported(ix, plan, invocations, st + [next], groups + [added], reports + added)
    ensures reports + added == [] <==> AllSucceeded(st + [next])
    ensures TracksFailures(ix, plan, st + [next], failedStages)
  {
    StatusNext(plan, st, status, next);
    RunExtends(ix, plan, invocations, st, next);
    TracksNext(ix, plan, st, next, failedStages);
    ReportedNext(ix, plan, invocations, st, groups, reports, next, added);
  }

  /** The failed stages after a module of the given status; stages are recorded once. */
  function NoteFailure(ix: Index, s: Status, name: Name, failedStages: seq<Name>): (r: seq<Name>)
    requires name in ix.modules
    ensures forall n :: n in r <==> n in failedStages || (s == Failed && n == ix.modules[name].stage)
  {
    var stage := ix.modules[name].stage;
    if s == Failed && stage !in failedStages then failedStages + [stage] else failedStages
  }

  lemma TracksNext(ix: Index, plan: seq<Name>, st: seq<Status>, s: Status, failedStages: seq<Name>)
    requires SoundPlan(ix, plan) && |st| < |plan|
    requires forall n :: n in failedStages ==>
      (s == Failed && n == ix.modules[plan[|st|]].stage) || exists j :: 0 <= j < |st| && st[j] == Failed && ix.modules[plan[j]].stage == n
    requires forall j :: 0 <= j < |st| && st[j] == Failed ==> ix.modules[plan[j]].stage in failedStages
    requires s == Failed ==> ix.modules[plan[|st|]].stage in failedStages
    ensures TracksFailures(ix, plan, st + [s], failedStages)
  {
    var st' := st + [s];
    forall n | n in failedStages ensures exists j :: 0 <= j < |st'| && st'[j] == Failed && ix.modules[plan[j]].stage == n {
      if s == Failed && n == ix.modules[plan[|st|]].stage {
        assert st'[|st|] == Failed;
      } else {
        var j :| 0 <= j < |st| && st[j] == Failed && ix.modules[plan[j]].stage == n;
        assert st'[j] == Failed;
      }
    }
  }
}
