/** What the job limiter keeps true: who owns handles, who is settled, what a scan may assign, and why errors are recorded. */
module JobRules {
  import opened Options
  import opened ParentLinks
  import opened Kernels

  datatype Problem =
    | CannotAttachDescendant | CriticalDescendant | DescendantAssignmentFailed
    | CannotOpenTarget | CriticalTarget | Raised

  datatype Policy = Policy(executables: set<string>, runtimeExecutables: set<string>, processOnly: set<string>, ownPid: int)

  predicate Matches(p: Policy, e: Entry) {
    e.pid != p.ownPid && e.pid >= 5 && (e.exe in p.executables || e.exe in p.runtimeExecutables)
  }

  // ------------------------------------------------------ what scans maintain

  /** Job names map one-to-one to open handles, and no open handle is left unowned but the lost ones. */
  ghost predicate OwnsHandles(jobs: map<JobName, Handle>, os: Os, lost: set<Handle>) {
    && (forall n :: n in jobs ==> jobs[n] in os.handles && os.handles[jobs[n]] == n && jobs[n] !in lost)
    && (forall h :: h in os.handles ==> h in lost || (os.handles[h] in jobs && jobs[os.handles[h]] == h))
    && (forall h :: h in lost ==> h in os.handles)
  }

  /** A job's own process is in it, unless it has exited. */
  ghost predicate Rooted(n: JobName, os: Os) { Member(os, n, RootOf(n)) || RootOf(n) in os.gone }

  ghost predicate AllRooted(jobs: map<JobName, Handle>, os: Os) { forall n :: n in jobs ==> Rooted(n, os) }

  /** No query about a live process and its own job has failed. */
  ghost predicate Answered(os: Os) { forall m :: m in os.unanswered ==> m.1 != RootOf(m.0) }

  /** If all jobs were rooted and every query about a process's own job was answered, no open handle was lost. */
  ghost predicate LosesNothing(jobs: map<JobName, Handle>, lost: set<Handle>, a: Os, jobs': map<JobName, Handle>, lost': set<Handle>, b: Os) {
    AllRooted(jobs, a) && Answered(b) ==>
      AllRooted(jobs', b) && lost' == lost
  }

  /** There is no own job, or the process has exited, or the query about the two has failed. */
  ghost predicate Unclaimed(jobs: map<JobName, Handle>, os: Os, p: Process) {
    NameOf(p) in jobs ==> p in os.gone || (NameOf(p), p) in os.unanswered
  }

  ghost predicate Managed(jobs: map<JobName, Handle>, os: Os, p: Process) { exists n :: n in jobs && Member(os, n, p) }

  /** Managed, judged no target at its creation time, or already gone. */
  ghost predicate Settled(jobs: map<JobName, Handle>, judged: map<Process, Entry>, os: Os, p: Process) {
    Managed(jobs, os, p) || p in judged || p in os.gone
  }

  ghost predicate CacheHonest(inspected: map<int, int>, jobs: map<JobName, Handle>, judged: map<Process, Entry>, os: Os) {
    forall pid :: pid in inspected ==> Settled(jobs, judged, os, Process(pid, inspected[pid]))
  }

  /** Only an interpreter-like executable without a marker on its command line, as far as that could be read, is judged no target. */
  ghost predicate JudgedFairly(p: Policy, judged: map<Process, Entry>, os: Os) {
    forall q :: q in judged ==>
      && judged[q].pid == q.pid && judged[q].exe in p.runtimeExecutables && judged[q].exe !in p.executables
      && (q !in os.marked || q.pid in os.unread)
  }

  // ------------------------------------------------------- what one scan does

  predicate Live(all: seq<Entry>, pid: int) { exists i :: 0 <= i < |all| && all[i].pid == pid }

  /** Limited by name, or an interpreter whose command line carries a marker. */
  ghost predicate TargetOf(p: Policy, e: Entry, q: Process, os: Os) {
    Matches(p, e) && e.pid == q.pid && (e.exe in p.executables || q in os.marked)
  }

  /** The snapshot shows this process id below the other one. */
  ghost predicate BelowIn(all: seq<Entry>, byPid: Table, pid: int, root: int) {
    exists e :: e in all && e.pid == pid && DescendsFrom(byPid, e, root)
  }

  /** An uncritical target in its own job. */
  ghost predicate OwnJob(p: Policy, all: seq<Entry>, os: Os, m: (JobName, Process)) {
    m.1 == RootOf(m.0) && m.1 !in os.critical && exists e :: e in all && TargetOf(p, e, m.1, os)
  }

  /** A process below another one. A critical one only if the job is that of a newly limited tree and it is not older than the root. */
  ghost predicate Inherited(p: Policy, all: seq<Entry>, byPid: Table, os: Os, m: (JobName, Process)) {
    exists root :: BelowIn(all, byPid, m.1.pid, root) && (m.1 !in os.critical || (root == m.0.pid && TreeRoot(p, all, root) && m.1.born >= m.0.born))
  }

  /** The snapshot shows a target of this id whose limit is for its whole tree. */
  ghost predicate TreeRoot(p: Policy, all: seq<Entry>, pid: int) {
    exists e :: e in all && e.pid == pid && Matches(p, e) && e.exe !in p.processOnly
  }

  ghost predicate Warranted(p: Policy, all: seq<Entry>, byPid: Table, os: Os, m: (JobName, Process)) {
    OwnJob(p, all, os, m) || Inherited(p, all, byPid, os, m)
  }

  ghost predicate CriticalId(os: Os, pid: int) {
    exists q :: q in os.critical && q.pid == pid && (q in os.alive || q in os.gone)
  }

  ghost predicate FailedBelow(all: seq<Entry>, byPid: Table, os: Os, pid: int) {
    exists x :: x in os.failed && BelowIn(all, byPid, x, pid)
  }

  /** An error has a cause: a critical process, or a failed call about the process or about one below it. */
  ghost predicate Excused(all: seq<Entry>, byPid: Table, os: Os, pid: int) {
    pid in os.failed || CriticalId(os, pid) || FailedBelow(all, byPid, os, pid)
  }

  /** Every assignment of the scan was warranted, every error not left over from before has a cause, and records are about listed ids. */
  ghost predicate Fair(p: Policy, all: seq<Entry>, byPid: Table, stale: set<int>, inspected: map<int, int>, errors: map<int, Problem>, os: Os) {
    && (forall m :: m in os.placed ==> Warranted(p, all, byPid, os, m))
    && (forall pid :: pid in errors ==> Live(all, pid) && (pid in stale || Excused(all, byPid, os, pid)))
    && (forall pid :: pid in inspected ==> Live(all, pid))
  }

  lemma WarrantedOnward(p: Policy, all: seq<Entry>, byPid: Table, a: Os, b: Os, m: (JobName, Process))
    requires Onward(a, b) && Warranted(p, all, byPid, a, m)
    ensures Warranted(p, all, byPid, b, m)
  {
    if OwnJob(p, all, a, m) {
      var e :| e in all && TargetOf(p, e, m.1, a);
      assert TargetOf(p, e, m.1, b);
    }
  }

  lemma ExcusedOnward(all: seq<Entry>, byPid: Table, a: Os, b: Os, pid: int)
    requires Onward(a, b) && Excused(all, byPid, a, pid)
    ensures Excused(all, byPid, b, pid)
  {
    if CriticalId(a, pid) {
      var q :| q in a.critical && q.pid == pid && (q in a.alive || q in a.gone);
      assert q in b.critical && (q in b.alive || q in b.gone);
    }
    if FailedBelow(all, byPid, a, pid) {
      var x :| x in a.failed && BelowIn(all, byPid, x, pid);
      assert x in b.failed;
    }
  }

  /** Fairness is kept by warranted assignments and excused errors about listed ids. */
  lemma FairNext(p: Policy, all: seq<Entry>, byPid: Table, stale: set<int>, inspected: map<int, int>, errors: map<int, Problem>, a: Os,
                 inspected': map<int, int>, errors': map<int, Problem>, b: Os)
    requires Fair(p, all, byPid, stale, inspected, errors, a) && Onward(a, b)
    requires forall m :: m in b.placed && m !in a.placed ==> Warranted(p, all, byPid, b, m)
    requires forall pid :: pid in errors' && pid !in errors ==> Live(all, pid) && Excused(all, byPid, b, pid)
    requires forall pid :: pid in inspected' && pid !in inspected ==> Live(all, pid)
    ensures Fair(p, all, byPid, stale, inspected', errors', b)
  {
    forall m | m in b.placed ensures Warranted(p, all, byPid, b, m) {
      if m in a.placed { WarrantedOnward(p, all, byPid, a, b, m); }
    }
    forall pid | pid in errors' ensures Live(all, pid) && (pid in stale || Excused(all, byPid, b, pid)) {
      if pid in errors && pid !in stale { ExcusedOnward(all, byPid, a, b, pid); }
    }
  }

  /** Jobs and verdicts only grow. */
  ghost predicate Grows(jobs: map<JobName, Handle>, jobs': map<JobName, Handle>, judged: map<Process, Entry>, judged': map<Process, Entry>) {
    && jobs.Keys <= jobs'.Keys
    && judged.Keys <= judged'.Keys
  }

  // ------------------------------------------- how the survivors of a scan fare

  /** A survivor that is left alone is critical, or a call about it has failed, and its id has an error recorded. */
  ghost predicate RefusedBy(p: Process, errors: map<int, Problem>, os: Os) {
    p.pid in errors && (p in os.critical || p.pid in os.failed)
  }

  /** The survivors with this process id are in a managed job, or are refused. */
  ghost predicate AccountedBy(stay: set<Process>, pid: int, jobs: map<JobName, Handle>, errors: map<int, Problem>, os: Os) {
    forall p :: p in stay && p.pid == pid ==> Managed(jobs, os, p) || RefusedBy(p, errors, os)
  }

  /** The survivors with this process id are managed, or judged no target, or refused. */
  ghost predicate CoveredBy(stay: set<Process>, pid: int, jobs: map<JobName, Handle>, judged: map<Process, Entry>, errors: map<int, Problem>, os: Os) {
    forall p :: p in stay && p.pid == pid ==> Managed(jobs, os, p) || p in judged || RefusedBy(p, errors, os)
  }

  lemma StillManaged(jobs: map<JobName, Handle>, jobs': map<JobName, Handle>, a: Os, b: Os, p: Process)
    requires Onward(a, b) && jobs.Keys <= jobs'.Keys && Managed(jobs, a, p) && p !in b.gone
    ensures Managed(jobs', b, p)
  {
    var n :| n in jobs && Member(a, n, p);
    assert (n, p) in a.members;
    assert n in jobs' && Member(b, n, p);
  }

  lemma AccountedLater(stay: set<Process>, pid: int, jobs: map<JobName, Handle>, errors: map<int, Problem>, a: Os,
                       jobs': map<JobName, Handle>, errors': map<int, Problem>, b: Os)
    requires AccountedBy(stay, pid, jobs, errors, a) && Onward(a, b) && jobs.Keys <= jobs'.Keys && stay !! b.gone
    requires pid in errors ==> pid in errors'
    ensures AccountedBy(stay, pid, jobs', errors', b)
  {
    forall p | p in stay && p.pid == pid && Managed(jobs, a, p) ensures Managed(jobs', b, p) {
      StillManaged(jobs, jobs', a, b, p);
    }
  }

  lemma CoveredLater(stay: set<Process>, pid: int, jobs: map<JobName, Handle>, judged: map<Process, Entry>, errors: map<int, Problem>, a: Os,
                     jobs': map<JobName, Handle>, judged': map<Process, Entry>, errors': map<int, Problem>, b: Os)
    requires CoveredBy(stay, pid, jobs, judged, errors, a) && Onward(a, b) && Grows(jobs, jobs', judged, judged') && stay !! b.gone
    requires pid in errors ==> pid in errors'
    ensures CoveredBy(stay, pid, jobs', judged', errors', b)
  {
    forall p | p in stay && p.pid == pid && Managed(jobs, a, p) ensures Managed(jobs', b, p) {
      StillManaged(jobs, jobs', a, b, p);
    }
  }

  lemma JudgedKeeps(inspected: map<int, int>, jobs: map<JobName, Handle>, judged: map<Process, Entry>, p: Process, e: Entry, os: Os)
    requires CacheHonest(inspected, jobs, judged, os)
    ensures CacheHonest(inspected[p.pid := p.born], jobs, judged[p := e], os)
  {
    forall pid | pid in inspected ensures Settled(jobs, judged[p := e], os, Process(pid, inspected[pid])) {
      assert Settled(jobs, judged, os, Process(pid, inspected[pid]));
    }
  }

  lemma FocusKeeps(jobs: map<JobName, Handle>, inspected: map<int, int>, judged: map<Process, Entry>, a: Os)
    ensures AllRooted(jobs, a) ==> AllRooted(jobs, Fresh(a))
    ensures CacheHonest(inspected, jobs, judged, a) ==> CacheHonest(inspected, jobs, judged, Fresh(a))
  {
    forall p ensures Settled(jobs, judged, a, p) ==> Settled(jobs, judged, Fresh(a), p) {
      if Managed(jobs, a, p) {
        var n :| n in jobs && Member(a, n, p);
        assert Member(Fresh(a), n, p);
      }
    }
    forall n | n in jobs && Rooted(n, a) ensures Rooted(n, Fresh(a)) {}
  }

  lemma GrowthKeepsSettled(jobs: map<JobName, Handle>, jobs': map<JobName, Handle>, judged: map<Process, Entry>, judged': map<Process, Entry>,
                           a: Os, b: Os, p: Process)
    requires Grows(jobs, jobs', judged, judged') && Onward(a, b) && Settled(jobs, judged, a, p)
    ensures Settled(jobs', judged', b, p)
  {
    SettledOnward(jobs, judged, a, b, p);
    if Managed(jobs, b, p) {
      var n :| n in jobs && Member(b, n, p);
      assert n in jobs' && Member(b, n, p);
    }
  }

  lemma OnwardKeeps(jobs: map<JobName, Handle>, inspected: map<int, int>, judged: map<Process, Entry>, a: Os, b: Os)
    requires Onward(a, b)
    ensures AllRooted(jobs, a) ==> AllRooted(jobs, b)
    ensures CacheHonest(inspected, jobs, judged, a) ==> CacheHonest(inspected, jobs, judged, b)
    ensures forall p :: Settled(jobs, judged, a, p) ==> Settled(jobs, judged, b, p)
    ensures forall policy :: JudgedFairly(policy, judged, a) ==> JudgedFairly(policy, judged, b)
  {
    forall p | Settled(jobs, judged, a, p) ensures Settled(jobs, judged, b, p) {
      SettledOnward(jobs, judged, a, b, p);
    }
    forall n | n in jobs && Rooted(n, a) ensures Rooted(n, b) {
      if Member(a, n, RootOf(n)) { assert (n, RootOf(n)) in a.members; }
    }
  }

  lemma SettledOnward(jobs: map<JobName, Handle>, judged: map<Process, Entry>, a: Os, b: Os, p: Process)
    requires Onward(a, b) && Settled(jobs, judged, a, p)
    ensures Settled(jobs, judged, b, p)
  {
    if Managed(jobs, a, p) {
      var n :| n in jobs && Member(a, n, p);
      assert (n, p) in a.members;
      assert Member(b, n, p) || p in b.gone;
    }
  }

  /** Only empty jobs have been dropped, and the kept ones outside `rest` had a process at the start. */
  ghost predicate Pruned(jobs0: map<JobName, Handle>, a: Os, jobs: map<JobName, Handle>, b: Os, rest: set<JobName>) {
    && Onward(a, b) && StaysEmpty(a, b)
    && (forall n :: n in jobs ==> n in jobs0 && jobs[n] == jobs0[n])
    && (forall n :: n in jobs0 && n !in jobs ==> !Occupied(b, n))
    && (forall n :: n in jobs && n !in rest ==> Occupied(a, n))
  }

  /** Pruning counted from an earlier state. */
  lemma PrunedLater(jobs0: map<JobName, Handle>, a: Os, b: Os, jobs: map<JobName, Handle>, c: Os)
    requires Onward(a, b) && StaysEmpty(a, b) && Pruned(jobs0, b, jobs, c, {})
    ensures Pruned(jobs0, a, jobs, c, {})
  {
    forall k | Occupied(c, k) ensures Occupied(b, k) {
      var m :| m in c.members && m.0 == k;
    }
    forall k | Occupied(b, k) ensures Occupied(a, k) {
      var m :| m in b.members && m.0 == k;
    }
  }

  lemma PrunedNext(jobs0: map<JobName, Handle>, a: Os, jobs1: map<JobName, Handle>, b: Os, jobs2: map<JobName, Handle>, c: Os,
                   rest: set<JobName>, n: JobName, raised: bool)
    requires Pruned(jobs0, a, jobs1, b, rest) && n in jobs1 && Onward(b, c) && StaysEmpty(b, c)
    requires jobs2 == jobs1 || (jobs2 == jobs1 - {n} && !Occupied(c, n))
    requires raised ==> jobs2 == jobs1
    requires !raised && n in jobs2 ==> Occupied(b, n)
    ensures Pruned(jobs0, a, jobs2, c, if raised then jobs2.Keys else rest - {n})
  {
    forall k | Occupied(c, k) ensures Occupied(b, k) {
      var m :| m in c.members && m.0 == k;
    }
    forall k | Occupied(b, k) ensures Occupied(a, k) {
      var m :| m in b.members && m.0 == k;
    }
  }

  /** The handle that a new one for the same job pushes out. */
  function LostBy(jobs: map<JobName, Handle>, n: JobName): set<Handle> {
    if n in jobs then {jobs[n]} else {}
  }

  lemma AdoptHandle(jobs: map<JobName, Handle>, os: Os, lost: set<Handle>, n: JobName, h: Handle)
    requires h in os.handles && os.handles[h] == n && h !in lost
    requires OwnsHandles(jobs, Without(os, h), lost) && forall m :: m in jobs ==> jobs[m] != h
    ensures OwnsHandles(jobs[n := h], os, lost + LostBy(jobs, n))
  {
    var jobs', lost' := jobs[n := h], lost + LostBy(jobs, n);
    forall k | k in os.handles ensures k in lost' || (os.handles[k] in jobs' && jobs'[os.handles[k]] == k) {
      if k != h { assert k in Without(os, h).handles; }
    }
    forall m | m in jobs' ensures jobs'[m] in os.handles && os.handles[jobs'[m]] == m && jobs'[m] !in lost' {
      if m != n { assert jobs[m] in Without(os, h).handles; }
      if n in jobs { assert jobs[n] in Without(os, h).handles; }
    }
  }

  function Without(os: Os, h: Handle): Os { os.(handles := os.handles - {h}) }

  lemma NamesGrowKeeps(jobs: map<JobName, Handle>, jobs': map<JobName, Handle>, inspected: map<int, int>, judged: map<Process, Entry>, os: Os)
    requires Grows(jobs, jobs', judged, judged) && CacheHonest(inspected, jobs, judged, os)
    ensures CacheHonest(inspected, jobs', judged, os)
  {
    forall pid | pid in inspected ensures Settled(jobs', judged, os, Process(pid, inspected[pid])) {
      GrowthKeepsSettled(jobs, jobs', judged, judged, os, os, Process(pid, inspected[pid]));
    }
  }

  lemma RootOnward(n: JobName, a: Os, b: Os)
    requires Onward(a, b)
    ensures Rooted(n, a) ==> Rooted(n, b)
  {
    if Member(a, n, RootOf(n)) { assert (n, RootOf(n)) in a.members; }
  }

  /** After a stop or a crash, the names of the jobs in use then are rooted whenever the service starts again. */
  lemma RestartIsRooted(jobs: map<JobName, Handle>, a: Os, names: seq<JobName>, b: Os)
    requires AllRooted(jobs, a) && Onward(a, b) && forall n :: n in names ==> n in jobs
    ensures forall k :: 0 <= k < |names| ==> Rooted(names[k], b)
  {
    forall k | 0 <= k < |names| ensures Rooted(names[k], b) {
      assert names[k] in names;
      RootOnward(names[k], a, b);
    }
  }

  /** A job replaces another entry only if the negative answer before it was wrong. */
  lemma ConfinedLosesNothing(jobs: map<JobName, Handle>, lost: set<Handle>, a: Os, b: Os, c: Os,
                             jobs': map<JobName, Handle>, lost': set<Handle>, p: Process, h: Handle, raised: bool)
    requires Onward(a, b) && Onward(b, c) && Consistent(c)
    requires raised ==> jobs' == jobs && lost' == lost
    requires !raised ==> jobs' == jobs[NameOf(p) := h] && Member(c, NameOf(p), p) && p in c.alive
    requires !raised ==> lost' == lost + LostBy(jobs, NameOf(p))
    ensures Unclaimed(jobs, a, p) ==> LosesNothing(jobs, lost, a, jobs', lost', c)
  {
    OnwardKeeps(jobs, map[], map[], a, b);
    OnwardKeeps(jobs, map[], map[], b, c);
    if Unclaimed(jobs, a, p) && AllRooted(jobs, a) && Answered(c) {
      assert RootOf(NameOf(p)) == p;
      assert Unclaimed(jobs, c, p);
      assert !raised ==> NameOf(p) !in jobs;
    }
  }

  lemma EnclosedLosesNothing(jobs: map<JobName, Handle>, lost: set<Handle>, a: Os, b: Os, jobs': map<JobName, Handle>, lost': set<Handle>, c: Os,
                             p: Process)
    requires Onward(a, b) && (AllRooted(jobs, a) ==> Unclaimed(jobs, b, p))
    requires Unclaimed(jobs, b, p) ==> LosesNothing(jobs, lost, b, jobs', lost', c)
    ensures LosesNothing(jobs, lost, a, jobs', lost', c)
  {
    OnwardKeeps(jobs, map[], map[], a, b);
  }

  lemma KeptLosesNothing(jobs: map<JobName, Handle>, jobs': map<JobName, Handle>, lost: set<Handle>, a: Os, b: Os)
    requires Onward(a, b) && jobs'.Keys <= jobs.Keys
    ensures LosesNothing(jobs, lost, a, jobs', lost, b)
  {
    OnwardKeeps(jobs, map[], map[], a, b);
  }

  lemma LosesNothingThen(jobs0: map<JobName, Handle>, lost0: set<Handle>, a: Os, jobs1: map<JobName, Handle>, lost1: set<Handle>, b: Os,
                         jobs2: map<JobName, Handle>, lost2: set<Handle>, c: Os)
    requires LosesNothing(jobs0, lost0, a, jobs1, lost1, b) && LosesNothing(jobs1, lost1, b, jobs2, lost2, c)
    requires b.unanswered <= c.unanswered
    ensures LosesNothing(jobs0, lost0, a, jobs2, lost2, c)
  {
  }

  lemma JobAdded(jobs: map<JobName, Handle>, inspected: map<int, int>, judged: map<Process, Entry>, os: Os, lost: set<Handle>, p: Process, h: Handle)
    requires h in os.handles && os.handles[h] == NameOf(p) && h !in lost
    requires OwnsHandles(jobs, Without(os, h), lost) && (forall n :: n in jobs ==> jobs[n] != h)
    requires CacheHonest(inspected, jobs, judged, os) && Member(os, NameOf(p), p)
    ensures OwnsHandles(jobs[NameOf(p) := h], os, lost + LostBy(jobs, NameOf(p)))
    ensures CacheHonest(inspected[p.pid := p.born], jobs[NameOf(p) := h], judged, os)
    ensures Settled(jobs[NameOf(p) := h], judged, os, p)
  {
    AdoptHandle(jobs, os, lost, NameOf(p), h);
    var jobs' := jobs[NameOf(p) := h];
    assert NameOf(p) in jobs';
    var inspected' := inspected[p.pid := p.born];
    forall pid | pid in inspected' ensures Settled(jobs', judged, os, Process(pid, inspected'[pid])) {
      if pid != p.pid {
        GrowthKeepsSettled(jobs, jobs', judged, judged, os, os, Process(pid, inspected[pid]));
      }
    }
  }

  /** A job whose member list is not empty has a member. */
  lemma SomeMember(pids: seq<int>, os: Os, n: JobName)
    requires Lists(pids, os, n) && pids != []
    ensures Occupied(os, n)
  {
    var pid := pids[0];
    var m :| m in os.members && m.0 == n && m.1.pid == pid;
  }

  lemma DroppingEmptyJob(jobs: map<JobName, Handle>, inspected: map<int, int>, judged: map<Process, Entry>, a: Os, b: Os, n: JobName)
    requires CacheHonest(inspected, jobs, judged, b)
    requires !Occupied(a, n) && StaysEmpty(a, b)
    ensures CacheHonest(inspected, jobs - {n}, judged, b)
  {
    forall pid | pid in inspected ensures Settled(jobs - {n}, judged, b, Process(pid, inspected[pid])) {
      var p := Process(pid, inspected[pid]);
      if Managed(jobs, b, p) {
        var k :| k in jobs && Member(b, k, p);
        assert (k, p) in b.members;
        assert k in jobs - {n};
      }
    }
  }
}
