/** The repeated scan that keeps matching processes inside memory-limited job objects. */
module JobLimiter {
  import opened Options
  import opened ParentLinks
  import opened Kernels
  import opened JobRules

  /** What a finished scan saw: the snapshot, the jobs it kept and the state then, and the members it read of each tree-limited job. */
  datatype Seen = Seen(all: seq<Entry>, byPid: Table, kept: map<JobName, Handle>, pruned: Os, members: map<JobName, seq<int>>)

  class MemoryLimits {
    const policy: Policy
    const kernel: Kernel
    var jobs: map<JobName, Handle>
    var inspected: map<int, int>
    var errors: map<int, Problem>
    ghost var judged: map<Process, Entry>   // judged no target, with the entry they were judged by
    ghost var lost: set<Handle>             // open handles that `jobs` no longer refers to
    ghost var stale: set<int>               // process ids that had an error when the scan began

    ghost predicate Valid()
      reads this, kernel
    {
      && kernel.Valid()
      && OwnsHandles(jobs, kernel.os, lost)
      && CacheHonest(inspected, jobs, judged, kernel.os)
      && JudgedFairly(policy, judged, kernel.os)
    }

    /** The scan over this snapshot has been fair so far. */
    ghost predicate InScan(all: seq<Entry>, byPid: Table)
      reads this, kernel
    {
      Fair(policy, all, byPid, stale, inspected, errors, kernel.os)
    }

    constructor (settings: Policy, machine: Kernel)
      requires machine.Valid() && machine.os.handles == map[]
      ensures Valid() && policy == settings && kernel == machine && jobs == map[] && inspected == map[] && lost == {}
    {
      policy, kernel := settings, machine;
      jobs, inspected, errors, judged, lost, stale := map[], map[], map[], map[], {}, {};
    }

    /** Is the process in any managed job? A failed query counts as no. */
    method InManagedJob(p: Process) returns (r: bool)
      requires Valid() && (p in kernel.os.alive || p in kernel.os.gone)
      modifies kernel`os
      ensures Valid() && Onward(old(kernel.os), kernel.os) && SameObjects(old(kernel.os), kernel.os)
      ensures r ==> Managed(jobs, kernel.os, p)
      ensures !r && AllRooted(jobs, old(kernel.os)) ==> Unclaimed(jobs, kernel.os, p)
      ensures !r ==> forall n :: n in jobs && Member(old(kernel.os), n, p) ==> p in kernel.os.gone || (n, p) in kernel.os.unanswered
      ensures kernel.os.placed == old(kernel.os.placed)
    {
      var rest := jobs.Keys;
      while rest != {}
        invariant rest <= jobs.Keys && Valid()
        invariant Onward(old(kernel.os), kernel.os) && SameObjects(old(kernel.os), kernel.os)
        invariant p in kernel.os.alive || p in kernel.os.gone
        invariant AllRooted(jobs, old(kernel.os)) ==> AllRooted(jobs, kernel.os)
        invariant forall n :: n in jobs && n !in rest && Member(old(kernel.os), n, p) ==> p in kernel.os.gone || (n, p) in kernel.os.unanswered
        invariant kernel.os.placed == old(kernel.os.placed)
        invariant AllRooted(jobs, old(kernel.os)) && NameOf(p) !in rest ==> Unclaimed(jobs, kernel.os, p)
        decreases rest
      {
        var n :| n in rest;
        ghost var before := kernel.os;
        var member := kernel.IsProcessInJob(p, jobs[n]);
        OnwardKeeps(jobs, inspected, judged, before, kernel.os);
        if member == Some(true) { return true; }
        if Member(old(kernel.os), n, p) { assert (n, p) in old(kernel.os).members; }
        rest := rest - {n};
      }
      return false;
    }

    /** Drop and close the jobs that no process is left in; `true` is an exception. */
    method PruneJobs() returns (raised: bool)
      requires Valid()
      modifies this`jobs, kernel`os
      ensures Valid()
      ensures raised ==> kernel.os.aborts > 0
      ensures Pruned(old(jobs), old(kernel.os), jobs, kernel.os, if raised then jobs.Keys else {}) && kernel.os.placed == old(kernel.os.placed)
    {
      var rest := jobs.Keys;
      while rest != {}
        invariant rest <= jobs.Keys && Valid() && Pruned(old(jobs), old(kernel.os), jobs, kernel.os, rest)
        invariant kernel.os.placed == old(kernel.os.placed)
        decreases rest
      {
        var n :| n in rest;
        ghost var jobs0, os0 := jobs, kernel.os;
        raised := PruneJob(n);
        PrunedNext(old(jobs), old(kernel.os), jobs0, os0, jobs, kernel.os, rest, n, raised);
        if raised { return; }
        rest := rest - {n};
      }
      return false;
    }

    method PruneJob(n: JobName) returns (raised: bool)
      requires Valid() && n in jobs
      modifies this`jobs, kernel`os
      ensures Valid() && Onward(old(kernel.os), kernel.os) && StaysEmpty(old(kernel.os), kernel.os) && kernel.os.placed == old(kernel.os.placed)
      ensures jobs == old(jobs) || (jobs == old(jobs) - {n} && !Occupied(kernel.os, n))
      ensures raised ==> jobs == old(jobs) && kernel.os.aborts > 0
      ensures !raised && n in jobs ==> Occupied(old(kernel.os), n)
    {
      ghost var before := kernel.os;
      var pids := kernel.JobPids(jobs[n]);
      OnwardKeeps(jobs, inspected, judged, before, kernel.os);
      if pids.None? { return true; }
      if |pids.value| == 0 {
        ghost var empty := kernel.os;
        assert pids.value == [];
        kernel.CloseHandle(jobs[n]);
        OnwardKeeps(jobs, inspected, judged, empty, kernel.os);
        DroppingEmptyJob(jobs, inspected, judged, empty, kernel.os, n);
        jobs := jobs - {n};
      } else {
        SomeMember(pids.value, kernel.os, n);
      }
      return false;
    }

    /** Forget what is recorded about process ids that are no longer in the snapshot. */
    method PruneCaches(all: seq<Entry>)
      requires Valid()
      modifies this`inspected, this`errors
      ensures Valid()
      ensures inspected == map pid | pid in old(inspected) && Live(all, pid) :: old(inspected)[pid]
      ensures errors == map pid | pid in old(errors) && Live(all, pid) :: old(errors)[pid]
    {
      inspected := map pid | pid in inspected && Live(all, pid) :: inspected[pid];
      errors := map pid | pid in errors && Live(all, pid) :: errors[pid];
    }

    /** Limited by name, or an interpreter whose command line carries a marker; `None` is an exception. */
    method Target(e: Entry, p: Process) returns (answer: Option<bool>)
      requires Valid() && p.pid == e.pid
      modifies kernel`os
      ensures Valid() && Onward(old(kernel.os), kernel.os) && SameObjects(old(kernel.os), kernel.os)
      ensures kernel.os.placed == old(kernel.os.placed)
      ensures e.exe in policy.executables ==> answer == Some(true)
      ensures answer == Some(true) ==> e.exe in policy.executables || (e.exe in policy.runtimeExecutables && p in kernel.os.marked)
      ensures answer == Some(false) ==> e.exe !in policy.runtimeExecutables || p !in kernel.os.marked || p.pid in kernel.os.unread * kernel.os.failed
      ensures answer == None ==> p.pid in kernel.os.failed
    {
      if e.exe in policy.executables { return Some(true); }
      if e.exe !in policy.runtimeExecutables { return Some(false); }
      ghost var before := kernel.os;
      var line := kernel.CommandLine(p);
      OnwardKeeps(jobs, inspected, judged, before, kernel.os);
      match line
      case Marked(marked) => return Some(marked);
      case Unavailable => return Some(false);
      case Threw => return None;
    }

    /** The survivors with this entry's process id are in a managed job, or are refused. */
    ghost predicate Accounted(e: Entry)
      reads this, kernel
    {
      AccountedBy(kernel.stay, e.pid, jobs, errors, kernel.os)
    }

    /** Try to bring one existing descendant into a job. */
    method AttachDescendant(child: Entry, n: JobName, all: seq<Entry>, byPid: Table, ghost root: int)
      requires Valid() && n in jobs && child in all && DescendsFrom(byPid, child, root) && InScan(all, byPid)
      modifies this`errors, kernel`os
      ensures Valid() && Onward(old(kernel.os), kernel.os) && SameObjects(old(kernel.os), kernel.os)
      ensures Accounted(child) && InScan(all, byPid)
      ensures forall pid :: pid != child.pid ==> (pid in errors <==> pid in old(errors))
    {
      ghost var start := kernel.os;
      var problem := TryDescendant(child, n, all, byPid, root);
      if problem.None? { errors := errors - {child.pid}; }
      else { errors := errors[child.pid := problem.value]; }
      FairNext(policy, all, byPid, stale, inspected, old(errors), start, inspected, errors, kernel.os);
    }

    /** The attempt itself: the problem met, if any, always with a cause. */
    method TryDescendant(child: Entry, n: JobName, all: seq<Entry>, byPid: Table, ghost root: int) returns (problem: Option<Problem>)
      requires Valid() && n in jobs && child in all && DescendsFrom(byPid, child, root)
      modifies kernel`os
      ensures Valid() && Onward(old(kernel.os), kernel.os) && SameObjects(old(kernel.os), kernel.os)
      ensures problem.None? ==> forall p :: p in kernel.stay && p.pid == child.pid ==> Managed(jobs, kernel.os, p)
      ensures problem.Some? ==> Live(all, child.pid) && (child.pid in kernel.os.failed || CriticalId(kernel.os, child.pid))
      ensures problem.Some? ==> forall p :: p in kernel.stay && p.pid == child.pid ==> p in kernel.os.critical || p.pid in kernel.os.failed
      ensures forall m :: m in kernel.os.placed && m !in old(kernel.os.placed) ==> Warranted(policy, all, byPid, kernel.os, m)
    {
      ghost var before := kernel.os;
      var p := kernel.OpenProcess(child.pid);
      OnwardKeeps(jobs, inspected, judged, before, kernel.os);
      if p.None? { return Some(CannotAttachDescendant); }
      before := kernel.os;
      var critical := kernel.IsCritical(p.value);
      OnwardKeeps(jobs, inspected, judged, before, kernel.os);
      if critical != Some(false) { return Some(CriticalDescendant); }
      before := kernel.os;
      var member := kernel.IsProcessInJob(p.value, jobs[n]);
      OnwardKeeps(jobs, inspected, judged, before, kernel.os);
      if member == Some(true) { return None; }
      if member.None? { return Some(DescendantAssignmentFailed); }
      before := kernel.os;
      var attached := kernel.Assign(jobs[n], p.value);
      OnwardKeeps(jobs, inspected, judged, before, kernel.os);
      assert BelowIn(all, byPid, child.pid, root);
      return if attached then None else Some(DescendantAssignmentFailed);
    }

    /** A snapshot entry below some listed member, but not itself listed. */
    ghost predicate Exposed(e: Entry, members: seq<int>, byPid: Table)
      requires ByPid(byPid)
    {
      e.pid != policy.ownPid && e.pid !in members && exists i :: 0 <= i < |members| && DescendsFrom(byPid, e, members[i])
    }

    /** Retry the existing descendants of one tree-limited job. */
    method RetryJob(n: JobName, members: seq<int>, all: seq<Entry>, byPid: Table)
      requires Valid() && n in jobs && ByPid(byPid) && (forall e :: e in all ==> Listed(byPid, e)) && InScan(all, byPid)
      modifies this`errors, kernel`os
      ensures InScan(all, byPid)
      ensures Valid() && Onward(old(kernel.os), kernel.os) && SameObjects(old(kernel.os), kernel.os)
      ensures forall e :: e in all && Exposed(e, members, byPid) ==> Accounted(e)
      ensures forall e: Entry :: old(Accounted(e)) ==> Accounted(e)
    {
      for i := 0 to |all|
        invariant Valid() && Onward(old(kernel.os), kernel.os) && SameObjects(old(kernel.os), kernel.os)
        invariant InScan(all, byPid)
        invariant forall k :: 0 <= k < i && Exposed(all[k], members, byPid) ==> Accounted(all[k])
        invariant forall e: Entry :: old(Accounted(e)) ==> Accounted(e)
      {
        assert all[i] in all;
        var below := DescendsFromAny(all[i], members, byPid);
        if all[i].pid != policy.ownPid && all[i].pid !in members && below {
          label before:
          ghost var os, errors0 := kernel.os, errors;
          ghost var j :| 0 <= j < |members| && DescendsFrom(byPid, all[i], members[j]);
          AttachDescendant(all[i], n, all, byPid, members[j]);
          forall e: Entry | old@before(Accounted(e)) ensures Accounted(e) {
            if e.pid != all[i].pid { AccountedLater(kernel.stay, e.pid, jobs, errors0, os, jobs, errors, kernel.os); }
          }
        }
      }
    }

    /** Every snapshot entry exposed below these members is accounted for. */
    ghost predicate Rejoined(members: seq<int>, all: seq<Entry>, byPid: Table)
      requires ByPid(byPid)
      reads this, kernel
    {
      forall e :: e in all && Exposed(e, members, byPid) ==> Accounted(e)
    }

    /** Retry one job; `true` is an exception, and `None` a job that limits single processes. */
    method RetryOne(n: JobName, all: seq<Entry>, byPid: Table) returns (raised: bool, members: Option<seq<int>>)
      requires Valid() && n in jobs && ByPid(byPid) && (forall e :: e in all ==> Listed(byPid, e)) && InScan(all, byPid)
      modifies this`errors, kernel`os
      ensures Valid() && Onward(old(kernel.os), kernel.os)
      ensures !raised ==> (members.None? <==> n in kernel.os.single)
      ensures SameObjects(old(kernel.os), kernel.os) && InScan(all, byPid)
      ensures raised ==> kernel.os.aborts > 0
      ensures !raised && members.Some? ==> Rejoined(members.value, all, byPid)
      ensures forall ms: seq<int> :: old(Rejoined(ms, all, byPid)) ==> Rejoined(ms, all, byPid)
    {
      ghost var start := kernel.os;
      raised, members := MembersToRetry(n);
      FairNext(policy, all, byPid, stale, inspected, errors, start, inspected, errors, kernel.os);
      if !raised && members.Some? { RetryJob(n, members.value, all, byPid); }
      assert forall e: Entry :: old(Accounted(e)) ==> Accounted(e);
    }

    /** Retry every job; `true` is an exception. `listed` are the members read of each tree-limited job. */
    method RetryDescendants(all: seq<Entry>, byPid: Table) returns (raised: bool, ghost listed: map<JobName, seq<int>>)
      requires Valid() && ByPid(byPid) && (forall e :: e in all ==> Listed(byPid, e)) && InScan(all, byPid)
      modifies this`errors, kernel`os
      ensures Valid() && Onward(old(kernel.os), kernel.os) && SameObjects(old(kernel.os), kernel.os) && InScan(all, byPid)
      ensures raised ==> kernel.os.aborts > 0
      ensures !raised ==> forall n :: n in jobs && n !in kernel.os.single ==> n in listed && Rejoined(listed[n], all, byPid)
    {
      var rest := jobs.Keys;
      listed := map[];
      while rest != {}
        invariant rest <= jobs.Keys && Valid()
        invariant Onward(old(kernel.os), kernel.os) && SameObjects(old(kernel.os), kernel.os) && InScan(all, byPid)
        invariant forall n :: n in jobs && n !in rest && n !in kernel.os.single ==> n in listed && Rejoined(listed[n], all, byPid)
        decreases rest
      {
        var n :| n in rest;
        rest := rest - {n};
        var members;
        raised, members := RetryOne(n, all, byPid);
        if raised { return; }
        if members.Some? { listed := listed[n := members.value]; }
      }
      return false, listed;
    }

    /** The members of a tree-limited job, or nothing for a process-limited one. */
    method MembersToRetry(n: JobName) returns (raised: bool, members: Option<seq<int>>)
      requires Valid() && n in jobs
      modifies kernel`os
      ensures Valid() && Onward(old(kernel.os), kernel.os) && SameObjects(old(kernel.os), kernel.os)
      ensures !raised ==> (members.None? <==> n in kernel.os.single)
      ensures members.Some? ==> Lists(members.value, kernel.os, n)
      ensures raised ==> kernel.os.aborts > 0
      ensures kernel.os.placed == old(kernel.os.placed)
      ensures forall e: Entry :: old(Accounted(e)) ==> Accounted(e)
    {
      ghost var before := kernel.os;
      raised, members := false, None;
      var processOnly := kernel.ProcessOnly(jobs[n]);
      OnwardKeeps(jobs, inspected, judged, before, kernel.os);
      if processOnly.None? {
        raised := true;
      } else if !processOnly.value {
        ghost var middle := kernel.os;
        members := kernel.JobPids(jobs[n]);
        OnwardKeeps(jobs, inspected, judged, middle, kernel.os);
        raised := members.None?;
      }
      assert Onward(before, kernel.os);
      forall e: Entry | old(Accounted(e)) ensures Accounted(e) { AccountedLater(kernel.stay, e.pid, jobs, errors, before, jobs, errors, kernel.os); }
    }

    /** The survivors with this process id, critical ones included, are in the job, are older than its root, or a call about
        them has failed; then the id has a recorded error, except after a failed membership query, which records none. */
    ghost predicate Joined(e: Entry, n: JobName)
      reads this, kernel
    {
      forall p :: p in kernel.stay && p.pid == e.pid ==> JoinedBy(p, n, kernel.os, errors)
    }

    ghost predicate JoinedBy(p: Process, n: JobName, os: Os, errors0: map<int, Problem>) {
      Member(os, n, p) || p.born < n.born || (p.pid in os.failed && (p.pid in errors0 || (n, p) in os.unanswered))
    }

    lemma StaysJoined(e: Entry, n: JobName, os: Os, errors0: map<int, Problem>)
      requires Valid() && Onward(os, kernel.os) && errors0.Keys <= errors.Keys
      requires forall p :: p in kernel.stay && p.pid == e.pid ==> JoinedBy(p, n, os, errors0)
      ensures Joined(e, n)
    {
      forall p | p in kernel.stay && p.pid == e.pid ensures JoinedBy(p, n, kernel.os, errors) {
        if Member(os, n, p) {
          assert (n, p) in os.members;
          assert p in kernel.os.alive;
        }
      }
    }

    /** Bring the children that were already present into a freshly created job; `true` is an exception. */
    method AttachChildren(root: Entry, n: JobName, all: seq<Entry>, byPid: Table) returns (raised: bool)
      requires Valid() && n in jobs && n.pid == root.pid && ByPid(byPid) && (forall e :: e in all ==> Listed(byPid, e)) && InScan(all, byPid)
      requires TreeRoot(policy, all, root.pid)
      modifies this`errors, kernel`os
      ensures Valid() && Onward(old(kernel.os), kernel.os) && SameObjects(old(kernel.os), kernel.os)
      ensures old(errors).Keys <= errors.Keys && InScan(all, byPid)
      ensures raised ==> FailedBelow(all, byPid, kernel.os, root.pid)
      ensures !raised ==> forall e :: e in all && DescendsFrom(byPid, e, root.pid) ==> Joined(e, n)
    {
      for i := 0 to |all|
        invariant Valid() && Onward(old(kernel.os), kernel.os) && SameObjects(old(kernel.os), kernel.os)
        invariant old(errors).Keys <= errors.Keys && InScan(all, byPid)
        invariant forall k :: 0 <= k < i && DescendsFrom(byPid, all[k], root.pid) ==> Joined(all[k], n)
      {
        assert all[i] in all;
        var below := Descendant(all[i], root.pid, byPid);
        if below {
          label before:
          ghost var os, errors0 := kernel.os, errors;
          raised := AttachChild(all[i], n, all, byPid);
          if raised {
            assert BelowIn(all, byPid, all[i].pid, root.pid);
            return true;
          }
          forall k | 0 <= k < i && old@before(Joined(all[k], n)) ensures Joined(all[k], n) { StaysJoined(all[k], n, os, errors0); }
        }
      }
      return false;
    }

    /** One child; a process created before the root merely reuses a parent id. `true` is an exception. */
    method AttachChild(child: Entry, n: JobName, all: seq<Entry>, byPid: Table) returns (raised: bool)
      requires Valid() && n in jobs && child in all && DescendsFrom(byPid, child, n.pid) && TreeRoot(policy, all, n.pid) && InScan(all, byPid)
      modifies this`errors, kernel`os
      ensures Valid() && Onward(old(kernel.os), kernel.os) && SameObjects(old(kernel.os), kernel.os)
      ensures old(errors).Keys <= errors.Keys && InScan(all, byPid)
      ensures if raised then child.pid in kernel.os.failed else Joined(child, n)
    {
      ghost var start := kernel.os;
      var problem;
      raised, problem := TryChild(child, n, all, byPid);
      if problem.Some? { errors := errors[child.pid := problem.value]; }
      FairNext(policy, all, byPid, stale, inspected, old(errors), start, inspected, errors, kernel.os);
    }

    /** The attempt itself: whether it raised, and the problem to record, if any. Whether the child is critical is not asked. */
    method TryChild(child: Entry, n: JobName, all: seq<Entry>, byPid: Table) returns (raised: bool, problem: Option<Problem>)
      requires Valid() && n in jobs && child in all && DescendsFrom(byPid, child, n.pid) && TreeRoot(policy, all, n.pid)
      modifies kernel`os
      ensures Valid() && Onward(old(kernel.os), kernel.os) && SameObjects(old(kernel.os), kernel.os)
      ensures raised ==> child.pid in kernel.os.failed && problem == None
      ensures problem.Some? ==> Live(all, child.pid) && child.pid in kernel.os.failed
      ensures !raised ==> forall p :: p in kernel.stay && p.pid == child.pid ==>
        || Member(kernel.os, n, p) || p.born < n.born
        || (p.pid in kernel.os.failed && (problem.Some? || (n, p) in kernel.os.unanswered))
      ensures forall m :: m in kernel.os.placed && m !in old(kernel.os.placed) ==> Warranted(policy, all, byPid, kernel.os, m)
    {
      problem := None;
      ghost var before := kernel.os;
      var p := kernel.OpenProcess(child.pid);
      OnwardKeeps(jobs, inspected, judged, before, kernel.os);
      if p.None? { return false, Some(CannotAttachDescendant); }
      before := kernel.os;
      var created := kernel.Creation(p.value);
      OnwardKeeps(jobs, inspected, judged, before, kernel.os);
      if created.None? { return true, None; }
      if created.value < n.born { return false, None; }
      before := kernel.os;
      var member := kernel.IsProcessInJob(p.value, jobs[n]);
      OnwardKeeps(jobs, inspected, judged, before, kernel.os);
      if member != Some(false) { return false, None; }
      before := kernel.os;
      var attached := kernel.Assign(jobs[n], p.value);
      OnwardKeeps(jobs, inspected, judged, before, kernel.os);
      assert BelowIn(all, byPid, child.pid, n.pid);
      return false, if attached then None else Some(DescendantAssignmentFailed);
    }

    /** The survivors with this entry's process id are managed, or judged no target, or refused. */
    ghost predicate Covered(e: Entry)
      reads this, kernel
    {
      CoveredBy(kernel.stay, e.pid, jobs, judged, errors, kernel.os)
    }

    /** Create a job for an uncritical process that has none, attach it and its present children; `true` is an exception. */
    method Enclose(e: Entry, p: Process, all: seq<Entry>, byPid: Table) returns (raised: bool)
      requires Valid() && p.pid == e.pid && ByPid(byPid) && (forall x :: x in all ==> Listed(byPid, x)) && InScan(all, byPid)
      requires e in all && TargetOf(policy, e, p, kernel.os) && p !in kernel.os.critical
      modifies this`jobs, this`inspected, this`errors, this`lost, kernel`os
      ensures Valid() && Onward(old(kernel.os), kernel.os) && InScan(all, byPid)
      ensures Grows(old(jobs), jobs, old(judged), judged)
      ensures e.pid in old(errors) ==> e.pid in errors || Managed(jobs, kernel.os, p) || p in kernel.os.gone
      ensures old(errors).Keys - {e.pid} <= errors.Keys
      ensures Settled(jobs, judged, kernel.os, p) || (raised && e.pid in kernel.os.failed)
      ensures raised ==> Excused(all, byPid, kernel.os, e.pid)
      ensures old(Unclaimed(jobs, kernel.os, p)) ==> LosesNothing(old(jobs), old(lost), old(kernel.os), jobs, lost, kernel.os)
      ensures !raised ==> (NameOf(p) in kernel.os.single <==> e.exe in policy.processOnly)
      ensures !raised ==> if e.exe in policy.processOnly then kernel.os.placed == old(kernel.os.placed) + {(NameOf(p), p)}
                          else forall x :: x in all && DescendsFrom(byPid, x, e.pid) ==> Joined(x, NameOf(p))
    {
      raised := Establish(e, p, all, byPid);
      if raised || e.exe in policy.processOnly { return; }
      ghost var os, lost0 := kernel.os, lost;
      raised := AttachChildren(e, NameOf(p), all, byPid);
      OnwardKeeps(jobs, inspected, judged, os, kernel.os);
      KeptLosesNothing(jobs, jobs, lost, os, kernel.os);
      if Unclaimed(old(jobs), old(kernel.os), p) {
        LosesNothingThen(old(jobs), old(lost), old(kernel.os), jobs, lost0, os, jobs, lost, kernel.os);
      }
    }

    /** Create the job and put the process into it. */
    method Establish(e: Entry, p: Process, all: seq<Entry>, byPid: Table) returns (raised: bool)
      requires Valid() && p.pid == e.pid && InScan(all, byPid)
      requires e in all && TargetOf(policy, e, p, kernel.os) && p !in kernel.os.critical
      modifies this`jobs, this`inspected, this`errors, this`lost, kernel`os
      ensures Valid() && Onward(old(kernel.os), kernel.os) && InScan(all, byPid)
      ensures raised ==> e.pid in kernel.os.failed && jobs == old(jobs) && errors == old(errors)
      ensures !raised ==> jobs.Keys == old(jobs).Keys + {NameOf(p)} && errors == old(errors) - {e.pid} && Member(kernel.os, NameOf(p), p)
      ensures old(Unclaimed(jobs, kernel.os, p)) ==> LosesNothing(old(jobs), old(lost), old(kernel.os), jobs, lost, kernel.os)
      ensures !raised ==> (NameOf(p) in kernel.os.single <==> e.exe in policy.processOnly)
      ensures kernel.os.placed == old(kernel.os.placed) + if raised then {} else {(NameOf(p), p)}
    {
      var h := CreateOwn(p, all, byPid);
      if h.None? { return true; }
      ghost var open := kernel.os;
      raised := Confine(e, p, h.value, e.exe in policy.processOnly);
      ConfinedLosesNothing(old(jobs), old(lost), old(kernel.os), open, kernel.os, jobs, lost, p, h.value, raised);
      assert OwnJob(policy, all, kernel.os, (NameOf(p), p));
      FairNext(policy, all, byPid, stale, old(inspected), old(errors), open, inspected, errors, kernel.os);
    }

    /** A new handle to the process's own job, not yet in use. */
    method CreateOwn(p: Process, all: seq<Entry>, byPid: Table) returns (h: Option<Handle>)
      requires Valid() && InScan(all, byPid)
      modifies kernel`os
      ensures Onward(old(kernel.os), kernel.os) && InScan(all, byPid) && kernel.os.placed == old(kernel.os.placed)
      ensures if h.None? then Valid() && p.pid in kernel.os.failed else ValidExcept(h.value) && kernel.os.handles[h.value] == NameOf(p)
      ensures LosesNothing(jobs, lost, old(kernel.os), jobs, lost, kernel.os)
    {
      h := kernel.CreateJob(NameOf(p));
      OnwardKeeps(jobs, inspected, judged, old(kernel.os), kernel.os);
      FairNext(policy, all, byPid, stale, inspected, errors, old(kernel.os), inspected, errors, kernel.os);
      KeptLosesNothing(jobs, jobs, lost, old(kernel.os), kernel.os);
    }

    /** All invariants of `Valid`, for a moment at which one extra handle is open. */
    ghost predicate ValidExcept(h: Handle)
      reads this, kernel
    {
      && kernel.Valid() && h in kernel.os.handles
      && (forall n :: n in jobs ==> jobs[n] != h)
      && h !in lost && OwnsHandles(jobs, Without(kernel.os, h), lost)
      && CacheHonest(inspected, jobs, judged, kernel.os)
      && JudgedFairly(policy, judged, kernel.os)
    }

    /** Limit the new job and assign the process to it. */
    method Admit(p: Process, h: Handle, processOnly: bool) returns (attached: bool)
      requires ValidExcept(h) && kernel.os.handles[h] == NameOf(p)
      modifies kernel`os
      ensures ValidExcept(h) && Onward(old(kernel.os), kernel.os)
      ensures kernel.os.handles == old(kernel.os.handles)
      ensures attached ==> Member(kernel.os, NameOf(p), p) && p in kernel.os.alive
      ensures attached ==> (NameOf(p) in kernel.os.single <==> processOnly)
      ensures kernel.os.placed == old(kernel.os.placed) + if attached then {(NameOf(p), p)} else {}
      ensures !attached ==> p.pid in kernel.os.failed
    {
      ghost var before := kernel.os;
      var limited := kernel.SetLimit(h, processOnly);
      OnwardKeeps(jobs, inspected, judged, before, kernel.os);
      attached := false;
      if limited {
        ghost var middle := kernel.os;
        attached := kernel.Assign(h, p);
        OnwardKeeps(jobs, inspected, judged, middle, kernel.os);
      }
    }

    /** Limit and fill the new job; on failure its handle is closed again. */
    method Confine(e: Entry, p: Process, h: Handle, processOnly: bool) returns (raised: bool)
      requires ValidExcept(h) && kernel.os.handles[h] == NameOf(p) && p.pid == e.pid
      modifies this`jobs, this`inspected, this`errors, this`lost, kernel`os
      ensures Valid() && Onward(old(kernel.os), kernel.os)
      ensures raised ==> jobs == old(jobs) && inspected == old(inspected) && errors == old(errors) && lost == old(lost)
      ensures !raised ==> jobs == old(jobs)[NameOf(p) := h] && Member(kernel.os, NameOf(p), p) && p in kernel.os.alive
      ensures !raised ==> inspected == old(inspected)[e.pid := p.born] && errors == old(errors) - {e.pid}
      ensures !raised ==> lost == old(lost) + LostBy(old(jobs), NameOf(p))
      ensures kernel.os.placed == old(kernel.os.placed) + if raised then {} else {(NameOf(p), p)}
      ensures raised ==> p.pid in kernel.os.failed
      ensures !raised ==> (NameOf(p) in kernel.os.single <==> processOnly)
    {
      var attached := Admit(p, h, processOnly);
      if !attached {
        ghost var before := kernel.os;
        kernel.CloseHandle(h);
        OnwardKeeps(jobs, inspected, judged, before, kernel.os);
        return true;
      }
      JobAdded(jobs, inspected, judged, kernel.os, lost, p, h);
      lost := lost + LostBy(jobs, NameOf(p));
      jobs := jobs[NameOf(p) := h];
      inspected := inspected[e.pid := p.born];
      errors := errors - {e.pid};
      return false;
    }

    /** One entry of the main loop; an exception becomes a recorded error. */
    method Examine(e: Entry, all: seq<Entry>, byPid: Table)
      requires Valid() && ByPid(byPid) && (forall x :: x in all ==> Listed(byPid, x)) && e in all && InScan(all, byPid)
      modifies this`jobs, this`inspected, this`errors, this`lost, this`judged, kernel`os
      ensures Valid() && Onward(old(kernel.os), kernel.os) && InScan(all, byPid)
      ensures Grows(old(jobs), jobs, old(judged), judged)
      ensures old(errors).Keys - {e.pid} <= errors.Keys
      ensures LosesNothing(old(jobs), old(lost), old(kernel.os), jobs, lost, kernel.os)
      ensures Matches(policy, e) ==> Covered(e)
      ensures old(Accounted(e)) ==> Accounted(e)
    {
      if e.pid == policy.ownPid || e.pid < 5 { return; }
      if e.exe !in policy.executables && e.exe !in policy.runtimeExecutables { return; }
      ghost var before := kernel.os;
      var found := kernel.OpenProcess(e.pid);
      OnwardKeeps(jobs, inspected, judged, before, kernel.os);
      FairNext(policy, all, byPid, stale, inspected, errors, before, inspected, errors, kernel.os);
      if found.None? {
        errors := errors[e.pid := CannotOpenTarget];
        FairNext(policy, all, byPid, stale, inspected, old(errors), kernel.os, inspected, errors, kernel.os);
        return;
      }
      ghost var held := kernel.os;
      KeptLosesNothing(jobs, jobs, lost, before, held);
      if old(Accounted(e)) { AccountedLater(kernel.stay, e.pid, jobs, errors, before, jobs, errors, held); }
      ExamineHeld(e, found.value, all, byPid);
      LosesNothingThen(old(jobs), old(lost), before, old(jobs), old(lost), held, jobs, lost, kernel.os);
    }

    /** An opened process; an exception becomes a recorded error. */
    method ExamineHeld(e: Entry, p: Process, all: seq<Entry>, byPid: Table)
      requires Valid() && ByPid(byPid) && (forall x :: x in all ==> Listed(byPid, x)) && e in all && InScan(all, byPid)
      requires p.pid == e.pid && p in kernel.os.alive && Matches(policy, e)
      modifies this`jobs, this`inspected, this`errors, this`lost, this`judged, kernel`os
      ensures Valid() && Onward(old(kernel.os), kernel.os) && InScan(all, byPid)
      ensures Grows(old(jobs), jobs, old(judged), judged)
      ensures old(errors).Keys - {e.pid} <= errors.Keys
      ensures LosesNothing(old(jobs), old(lost), old(kernel.os), jobs, lost, kernel.os)
      ensures Covered(e) && (old(Accounted(e)) ==> Accounted(e))
    {
      assert forall s :: s in kernel.stay && s.pid == e.pid ==> s == p;
      var raised := Inspect(e, p, all, byPid);
      if raised {
        ghost var errors0 := errors;
        errors := errors[e.pid := Raised];
        FairNext(policy, all, byPid, stale, inspected, errors0, kernel.os, inspected, errors, kernel.os);
      }
      if old(Accounted(e)) && e.pid in errors { AccountedLater(kernel.stay, e.pid, old(jobs), old(errors), old(kernel.os), jobs, errors, kernel.os); }
    }

    /** The guarded part for a held process; `true` is an exception. */
    method Inspect(e: Entry, p: Process, all: seq<Entry>, byPid: Table) returns (raised: bool)
      requires Valid() && ByPid(byPid) && (forall x :: x in all ==> Listed(byPid, x)) && e in all && InScan(all, byPid)
      requires p.pid == e.pid && p in kernel.os.alive && Matches(policy, e)
      modifies this`jobs, this`inspected, this`errors, this`lost, this`judged, kernel`os
      ensures Valid() && Onward(old(kernel.os), kernel.os) && InScan(all, byPid)
      ensures Grows(old(jobs), jobs, old(judged), judged)
      ensures e.pid in old(errors) ==> e.pid in errors || Managed(jobs, kernel.os, p) || p in kernel.os.gone
      ensures old(errors).Keys - {e.pid} <= errors.Keys
      ensures LosesNothing(old(jobs), old(lost), old(kernel.os), jobs, lost, kernel.os)
      ensures Settled(jobs, judged, kernel.os, p) || (raised && e.pid in kernel.os.failed) || RefusedBy(p, errors, kernel.os)
      ensures raised ==> Excused(all, byPid, kernel.os, e.pid)
    {
      var created := kernel.Creation(p);
      OnwardKeeps(jobs, inspected, judged, old(kernel.os), kernel.os);
      FairNext(policy, all, byPid, stale, inspected, errors, old(kernel.os), inspected, errors, kernel.os);
      if created.None? { return true; }
      var born := created.value;
      if e.pid in inspected && inspected[e.pid] == born {
        assert p == Process(e.pid, born);
        return false;
      }
      ghost var known := kernel.os;
      KeptLosesNothing(jobs, jobs, lost, old(kernel.os), known);
      raised := Classify(e, p, all, byPid);
      LosesNothingThen(old(jobs), old(lost), old(kernel.os), old(jobs), old(lost), known, jobs, lost, kernel.os);
    }

    /** A process not seen before: nothing to do if it is in a managed job already. */
    method Classify(e: Entry, p: Process, all: seq<Entry>, byPid: Table) returns (raised: bool)
      requires Valid() && ByPid(byPid) && (forall x :: x in all ==> Listed(byPid, x)) && e in all && InScan(all, byPid)
      requires p.pid == e.pid && Matches(policy, e) && (p in kernel.os.alive || p in kernel.os.gone)
      modifies this`jobs, this`inspected, this`errors, this`lost, this`judged, kernel`os
      ensures Valid() && Onward(old(kernel.os), kernel.os) && InScan(all, byPid)
      ensures Grows(old(jobs), jobs, old(judged), judged)
      ensures e.pid in old(errors) ==> e.pid in errors || Managed(jobs, kernel.os, p) || p in kernel.os.gone
      ensures old(errors).Keys - {e.pid} <= errors.Keys
      ensures LosesNothing(old(jobs), old(lost), old(kernel.os), jobs, lost, kernel.os)
      ensures Settled(jobs, judged, kernel.os, p) || (raised && e.pid in kernel.os.failed) || RefusedBy(p, errors, kernel.os)
      ensures raised ==> Excused(all, byPid, kernel.os, e.pid)
    {
      var managed := InManagedJob(p);
      if managed {
        inspected := inspected[e.pid := p.born];
        errors := errors - {e.pid};
        FairNext(policy, all, byPid, stale, old(inspected), old(errors), old(kernel.os), inspected, errors, kernel.os);
        KeptLosesNothing(jobs, jobs, lost, old(kernel.os), kernel.os);
        return false;
      }
      FairNext(policy, all, byPid, stale, inspected, errors, old(kernel.os), inspected, errors, kernel.os);
      ghost var negative := kernel.os;
      raised := Decide(e, p, all, byPid);
      EnclosedLosesNothing(old(jobs), old(lost), old(kernel.os), negative, jobs, lost, kernel.os, p);
    }

    /** A process in no managed job: judge it no target, or limit it. */
    method Decide(e: Entry, p: Process, all: seq<Entry>, byPid: Table) returns (raised: bool)
      requires Valid() && ByPid(byPid) && (forall x :: x in all ==> Listed(byPid, x)) && e in all && InScan(all, byPid)
      requires p.pid == e.pid && Matches(policy, e) && (p in kernel.os.alive || p in kernel.os.gone)
      modifies this`jobs, this`inspected, this`errors, this`lost, this`judged, kernel`os
      ensures Valid() && Onward(old(kernel.os), kernel.os) && InScan(all, byPid)
      ensures Grows(old(jobs), jobs, old(judged), judged)
      ensures e.pid in old(errors) ==> e.pid in errors || Managed(jobs, kernel.os, p) || p in kernel.os.gone
      ensures old(errors).Keys - {e.pid} <= errors.Keys
      ensures old(Unclaimed(jobs, kernel.os, p)) ==> LosesNothing(old(jobs), old(lost), old(kernel.os), jobs, lost, kernel.os)
      ensures Settled(jobs, judged, kernel.os, p) || (raised && e.pid in kernel.os.failed) || RefusedBy(p, errors, kernel.os)
      ensures raised ==> Excused(all, byPid, kernel.os, e.pid)
    {
      var target := Target(e, p);
      FairNext(policy, all, byPid, stale, inspected, errors, old(kernel.os), inspected, errors, kernel.os);
      KeptLosesNothing(jobs, jobs, lost, old(kernel.os), kernel.os);
      if target.None? { return true; }
      if !target.value {
        judged := judged[p := e];
        inspected := inspected[e.pid := p.born];
        FairNext(policy, all, byPid, stale, old(inspected), errors, kernel.os, inspected, errors, kernel.os);
        JudgedKeeps(old(inspected), jobs, old(judged), p, e, kernel.os);
        return false;
      }
      ghost var aimed := kernel.os;
      raised := Limit(e, p, all, byPid);
      if Unclaimed(old(jobs), old(kernel.os), p) {
        EnclosedLosesNothing(old(jobs), old(lost), old(kernel.os), aimed, jobs, lost, kernel.os, p);
      }
    }

    /** A target without a job: leave critical ones alone, give any other one a job. */
    method Limit(e: Entry, p: Process, all: seq<Entry>, byPid: Table) returns (raised: bool)
      requires Valid() && p.pid == e.pid && ByPid(byPid) && (forall x :: x in all ==> Listed(byPid, x)) && e in all && InScan(all, byPid)
      requires TargetOf(policy, e, p, kernel.os) && (p in kernel.os.alive || p in kernel.os.gone)
      modifies this`jobs, this`inspected, this`errors, this`lost, kernel`os
      ensures Valid() && Onward(old(kernel.os), kernel.os) && InScan(all, byPid)
      ensures Grows(old(jobs), jobs, old(judged), judged)
      ensures e.pid in old(errors) ==> e.pid in errors || Managed(jobs, kernel.os, p) || p in kernel.os.gone
      ensures old(errors).Keys - {e.pid} <= errors.Keys
      ensures old(Unclaimed(jobs, kernel.os, p)) ==> LosesNothing(old(jobs), old(lost), old(kernel.os), jobs, lost, kernel.os)
      ensures Settled(jobs, judged, kernel.os, p) || (raised && e.pid in kernel.os.failed) || RefusedBy(p, errors, kernel.os)
      ensures raised ==> Excused(all, byPid, kernel.os, e.pid)
    {
      var critical := kernel.IsCritical(p);
      OnwardKeeps(jobs, inspected, judged, old(kernel.os), kernel.os);
      FairNext(policy, all, byPid, stale, inspected, errors, old(kernel.os), inspected, errors, kernel.os);
      KeptLosesNothing(jobs, jobs, lost, old(kernel.os), kernel.os);
      if critical != Some(false) {
        errors := errors[e.pid := CriticalTarget];
        assert critical == Some(true) ==> CriticalId(kernel.os, e.pid);
        FairNext(policy, all, byPid, stale, inspected, old(errors), kernel.os, inspected, errors, kernel.os);
        return false;
      }
      ghost var uncritical := kernel.os;
      raised := Enclose(e, p, all, byPid);
      if Unclaimed(old(jobs), old(kernel.os), p) {
        EnclosedLosesNothing(old(jobs), old(lost), old(kernel.os), uncritical, jobs, lost, kernel.os, p);
      }
    }

    /** One scan, for any set of processes that outlive it; `true` is an exception that ends it early. */
    method Scan(survivors: set<Process>) returns (raised: bool, ghost seen: Seen)
      requires Valid() && survivors <= kernel.os.alive
      modifies this, kernel
      ensures Valid() && kernel.stay == survivors
      ensures Onward(Fresh(old(kernel.os)), kernel.os) && old(judged).Keys <= judged.Keys
      ensures LosesNothing(old(jobs), old(lost), Fresh(old(kernel.os)), jobs, lost, kernel.os)
      ensures raised ==> kernel.os.aborts > 0
      ensures !raised ==> DistinctPids(seen.all) && ByPid(seen.byPid) && (forall e :: e in seen.all ==> Listed(seen.byPid, e))
      ensures !raised ==> Pruned(old(jobs), Fresh(old(kernel.os)), seen.kept, seen.pruned, {})
      ensures !raised ==> Fair(policy, seen.all, seen.byPid, old(errors).Keys, inspected, errors, kernel.os)
      ensures !raised ==> forall e :: e in seen.all && Matches(policy, e) ==> Covered(e)
      ensures !raised ==> forall p, e :: p in survivors && e in seen.all && e.pid == p.pid && Matches(policy, e) ==>
        p in kernel.os.critical || p.pid in kernel.os.failed || Managed(jobs, kernel.os, p) || p in judged
      ensures !raised ==> forall n :: n in seen.kept && n !in seen.pruned.single ==> n in seen.members && Rejoined(seen.members[n], seen.all, seen.byPid)
    {
      kernel.Focus(survivors);
      stale := errors.Keys;
      ghost var before := kernel.os;
      FocusKeeps(jobs, inspected, judged, old(kernel.os));
      var snapshot := kernel.Snapshot();
      OnwardKeeps(jobs, inspected, judged, before, kernel.os);
      seen := Seen([], map[], map[], kernel.os, map[]);
      KeptLosesNothing(jobs, jobs, lost, before, kernel.os);
      if snapshot.None? { return true, seen; }
      var byPid := TableOf(snapshot.value);
      ghost var taken := kernel.os;
      raised, seen := Refresh(snapshot.value, byPid);
      LosesNothingThen(old(jobs), old(lost), before, old(jobs), old(lost), taken, jobs, lost, kernel.os);
      if raised { return; }
      PrunedLater(old(jobs), before, taken, seen.kept, seen.pruned);
      ghost var jobs1, refreshed := jobs, kernel.os;
      var order := SortByDepth(snapshot.value, byPid);
      ExamineAll(order, snapshot.value, byPid);
      LosesNothingThen(old(jobs), old(lost), before, jobs1, old(lost), refreshed, jobs, lost, kernel.os);
    }

    /** What precedes the main loop: drop empty jobs, forget old process ids, retry descendants. */
    method Refresh(all: seq<Entry>, byPid: Table) returns (raised: bool, ghost seen: Seen)
      requires Valid() && ByPid(byPid) && (forall e :: e in all ==> Listed(byPid, e))
      requires kernel.os.placed == {} && errors.Keys <= stale
      modifies this`jobs, this`inspected, this`errors, kernel`os
      ensures Valid() && Onward(old(kernel.os), kernel.os)
      ensures LosesNothing(old(jobs), old(lost), old(kernel.os), jobs, lost, kernel.os)
      ensures raised ==> kernel.os.aborts > 0
      ensures !raised ==> InScan(all, byPid) && seen.all == all && seen.byPid == byPid && seen.kept == jobs
      ensures !raised ==> Pruned(old(jobs), old(kernel.os), seen.kept, seen.pruned, {})
      ensures !raised ==> forall n :: n in seen.kept && n !in seen.pruned.single ==> n in seen.members && Rejoined(seen.members[n], all, byPid)
    {
      raised := PruneJobs();
      KeptLosesNothing(old(jobs), jobs, lost, old(kernel.os), kernel.os);
      seen := Seen(all, byPid, jobs, kernel.os, map[]);
      if raised { return; }
      PruneCaches(all);
      ghost var pruned, listed := kernel.os, map[];
      raised, listed := RetryDescendants(all, byPid);
      KeptLosesNothing(jobs, jobs, lost, pruned, kernel.os);
      seen := seen.(members := listed);
    }

    /** The matching ones among the first `i` entries are covered. */
    ghost predicate Done(order: seq<Entry>, i: nat)
      requires i <= |order|
      reads this, kernel
    {
      forall k :: 0 <= k < i && Matches(policy, order[k]) ==> Covered(order[k])
    }

    ghost predicate AllAccounted(those: set<Entry>)
      reads this, kernel
    {
      forall e :: e in those ==> Accounted(e)
    }

    /** The main loop: every entry in the given order. */
    method ExamineAll(order: seq<Entry>, all: seq<Entry>, byPid: Table)
      requires Valid() && ByPid(byPid) && (forall e :: e in all ==> Listed(byPid, e)) && InScan(all, byPid)
      requires DistinctPids(order) && forall e :: e in order <==> e in all
      modifies this`jobs, this`inspected, this`errors, this`lost, this`judged, kernel`os
      ensures Valid() && Onward(old(kernel.os), kernel.os) && Grows(old(jobs), jobs, old(judged), judged) && InScan(all, byPid)
      ensures LosesNothing(old(jobs), old(lost), old(kernel.os), jobs, lost, kernel.os)
      ensures forall e :: e in all && Matches(policy, e) ==> Covered(e)
      ensures forall e: Entry :: e in all && old(Accounted(e)) ==> Accounted(e)
    {
      ghost var were := set e | e in all && Accounted(e);
      for i := 0 to |order|
        invariant Valid() && Onward(old(kernel.os), kernel.os) && Grows(old(jobs), jobs, old(judged), judged) && InScan(all, byPid)
        invariant LosesNothing(old(jobs), old(lost), old(kernel.os), jobs, lost, kernel.os)
        invariant Done(order, i) && AllAccounted(were)
      {
        ghost var os, jobs0, lost0 := kernel.os, jobs, lost;
        ExamineNext(order, i, all, byPid, were);
        LosesNothingThen(old(jobs), old(lost), old(kernel.os), jobs0, lost0, os, jobs, lost, kernel.os);
      }
    }

    method ExamineNext(order: seq<Entry>, i: nat, all: seq<Entry>, byPid: Table, ghost were: set<Entry>)
      requires Valid() && ByPid(byPid) && (forall e :: e in all ==> Listed(byPid, e)) && InScan(all, byPid)
      requires i < |order| && DistinctPids(order) && forall e :: e in order <==> e in all
      requires Done(order, i) && AllAccounted(were) && forall e :: e in were ==> e in all
      modifies this`jobs, this`inspected, this`errors, this`lost, this`judged, kernel`os
      ensures Valid() && Onward(old(kernel.os), kernel.os) && Grows(old(jobs), jobs, old(judged), judged) && InScan(all, byPid)
      ensures LosesNothing(old(jobs), old(lost), old(kernel.os), jobs, lost, kernel.os)
      ensures Done(order, i + 1) && AllAccounted(were)
    {
      ghost var errors0, os, jobs0, judged0 := errors, kernel.os, jobs, judged;
      assert order[i] in order;
      assert forall k :: 0 <= k < i && Matches(policy, order[k]) ==> CoveredBy(kernel.stay, order[k].pid, jobs0, judged0, errors0, os);
      assert forall e :: e in were ==> AccountedBy(kernel.stay, e.pid, jobs0, errors0, os);
      Examine(order[i], all, byPid);
      CoverageLater(order, i, jobs0, judged0, errors0, os);
      AccountsLater(all, order[i], byPid, jobs0, errors0, os);
    }

    lemma CoverageLater(order: seq<Entry>, i: nat, jobs0: map<JobName, Handle>, judged0: map<Process, Entry>, errors0: map<int, Problem>, os: Os)
      requires Valid() && Onward(os, kernel.os) && Grows(jobs0, jobs, judged0, judged)
      requires i < |order| && DistinctPids(order) && errors0.Keys - {order[i].pid} <= errors.Keys
      ensures forall k :: 0 <= k < i && CoveredBy(kernel.stay, order[k].pid, jobs0, judged0, errors0, os) ==> Covered(order[k])
    {
      forall k | 0 <= k < i && CoveredBy(kernel.stay, order[k].pid, jobs0, judged0, errors0, os) ensures Covered(order[k]) {
        CoveredLater(kernel.stay, order[k].pid, jobs0, judged0, errors0, os, jobs, judged, errors, kernel.os);
      }
    }

    lemma AccountsLater(all: seq<Entry>, other: Entry, byPid: Table, jobs0: map<JobName, Handle>, errors0: map<int, Problem>, os: Os)
      requires Valid() && Onward(os, kernel.os) && jobs0.Keys <= jobs.Keys
      requires other in all && (forall e :: e in all ==> Listed(byPid, e)) && errors0.Keys - {other.pid} <= errors.Keys
      requires AccountedBy(kernel.stay, other.pid, jobs0, errors0, os) ==> Accounted(other)
      ensures forall e :: e in all && AccountedBy(kernel.stay, e.pid, jobs0, errors0, os) ==> Accounted(e)
    {
      forall e | e in all && AccountedBy(kernel.stay, e.pid, jobs0, errors0, os) ensures Accounted(e) {
        if e.pid != other.pid { AccountedLater(kernel.stay, e.pid, jobs0, errors0, os, jobs, errors, kernel.os); }
      }
    }

    /** At service start: reopen the jobs of an earlier run; `true` is an exception. */
    method RecoverJobs(names: seq<JobName>) returns (raised: bool)
      requires Valid() && jobs == map[]
      modifies this`jobs, this`lost, kernel`os
      ensures Valid() && Onward(old(kernel.os), kernel.os) && forall n :: n in jobs ==> n in names
      ensures (forall k :: 0 <= k < |names| ==> Rooted(names[k], old(kernel.os))) ==> AllRooted(jobs, kernel.os)
      ensures !raised && (forall i, j :: 0 <= i < j < |names| ==> names[i] != names[j]) ==> lost == old(lost)
    {
      for i := 0 to |names|
        invariant Valid() && Onward(old(kernel.os), kernel.os) && forall n :: n in jobs ==> n in names[..i]
        invariant (forall k :: 0 <= k < i ==> Rooted(names[k], old(kernel.os))) ==> AllRooted(jobs, kernel.os)
        invariant (forall k, l :: 0 <= k < l < i ==> names[k] != names[l]) ==> lost == old(lost)
      {
        ghost var before, jobs0 := kernel.os, jobs;
        ghost var found;
        raised, found := RecoverOne(names[i]);
        RootOnward(names[i], old(kernel.os), before);
        if raised { return; }
      }
      return false;
    }

    /** Reopen one job; its mode follows the executable that now has its process id, if there is one. */
    method RecoverOne(n: JobName) returns (raised: bool, ghost found: Lookup)
      requires Valid()
      modifies this`jobs, this`lost, kernel`os
      ensures Valid() && Onward(old(kernel.os), kernel.os)
      ensures old(jobs).Keys <= jobs.Keys <= old(jobs).Keys + {n}
      ensures AllRooted(old(jobs), old(kernel.os)) && Rooted(n, old(kernel.os)) ==> AllRooted(jobs, kernel.os)
      ensures AllRooted(old(jobs), old(kernel.os)) && raised ==> AllRooted(jobs, kernel.os)
      ensures !raised && n !in old(jobs) ==> lost == old(lost)
      ensures kernel.os.single - {n} == old(kernel.os.single) - {n}
      ensures !raised && n in jobs ==>
        (n in kernel.os.single <==> if found.Found? then found.exe in policy.processOnly else n in old(kernel.os.single))
    {
      found := Absent;
      ghost var start := kernel.os;
      var h := kernel.OpenJob(n);
      OnwardKeeps(jobs, inspected, judged, start, kernel.os);
      if h.None? { return false, found; }
      var restored;
      restored, found := RestoreLimit(n, h.value);
      OnwardKeeps(jobs, inspected, judged, start, kernel.os);
      RootOnward(n, start, kernel.os);
      if restored { Adopt(n, h.value); } else { lost := lost + {h.value}; }
      return !restored, found;
    }

    /** Take a reopened job into use. */
    method Adopt(n: JobName, h: Handle)
      requires ValidExcept(h) && kernel.os.handles[h] == n
      modifies this`jobs, this`lost
      ensures Valid() && jobs == old(jobs)[n := h] && lost == old(lost) + LostBy(old(jobs), n)
    {
      AdoptHandle(jobs, kernel.os, lost, n, h);
      lost := lost + LostBy(jobs, n);
      jobs := jobs[n := h];
      NamesGrowKeeps(old(jobs), jobs, inspected, judged, kernel.os);
    }

    /** Set the limit again, in the mode of the executable that now has the process id, or else in the mode it had. */
    method RestoreLimit(n: JobName, h: Handle) returns (restored: bool, ghost found: Lookup)
      requires ValidExcept(h) && kernel.os.handles[h] == n
      modifies kernel`os
      ensures ValidExcept(h) && Onward(old(kernel.os), kernel.os) && kernel.os.handles == old(kernel.os.handles)
      ensures kernel.os.single - {n} == old(kernel.os.single) - {n}
      ensures restored ==>
        (n in kernel.os.single <==> if found.Found? then found.exe in policy.processOnly else n in old(kernel.os.single))
    {
      ghost var start := kernel.os;
      found := Absent;
      var queried := kernel.ProcessOnly(h);
      OnwardKeeps(jobs, inspected, judged, start, kernel.os);
      if queried.None? { return false, found; }
      var current := kernel.ExecutableOf(n.pid);
      OnwardKeeps(jobs, inspected, judged, start, kernel.os);
      found := current;
      if current.Failed? { return false, found; }
      restored := kernel.SetLimit(h, if current.Found? then current.exe in policy.processOnly else queried.value);
      OnwardKeeps(jobs, inspected, judged, start, kernel.os);
    }

    /** At service stop: every job handle is closed; only lost ones stay open. */
    method CloseAll()
      requires Valid()
      modifies kernel`os
      ensures kernel.Valid() && kernel.os.handles.Keys == lost
      ensures forall h: Handle :: h < kernel.os.next && h !in lost ==> kernel.os.closes[h] == 1
    {
      var rest := jobs.Keys;
      while rest != {}
        invariant rest <= jobs.Keys && kernel.Valid() && lost <= kernel.os.handles.Keys
        invariant forall n :: n in rest ==> jobs[n] in kernel.os.handles && jobs[n] !in lost
        invariant forall h :: h in kernel.os.handles ==> h in lost || exists n :: n in rest && jobs[n] == h
        invariant forall m, n :: m in rest && n in rest && jobs[m] == jobs[n] ==> m == n
        decreases rest
      {
        var n :| n in rest;
        kernel.CloseHandle(jobs[n]);
        rest := rest - {n};
      }
    }
  }

  method TableOf(all: seq<Entry>) returns (byPid: Table)
    requires DistinctPids(all)
    ensures ByPid(byPid) && forall e :: e in all ==> Listed(byPid, e)
  {
    byPid := map[];
    for i := 0 to |all|
      invariant ByPid(byPid)
      invariant forall k :: 0 <= k < i ==> Listed(byPid, all[k])
      invariant forall p :: p in byPid ==> exists k :: 0 <= k < i && all[k].pid == p
    {
      byPid := byPid[all[i].pid := all[i]];
    }
  }

  ghost predicate ByDepth(order: seq<Entry>, byPid: Table)
    requires ByPid(byPid) && forall e :: e in order ==> Listed(byPid, e)
  {
    forall i, j :: 0 <= i < j < |order| ==> DepthOf(byPid, order[i]) <= DepthOf(byPid, order[j])
  }

  /** The visiting order: parents first, as far as the depth tells. */
  method SortByDepth(all: seq<Entry>, byPid: Table) returns (order: seq<Entry>)
    requires ByPid(byPid) && DistinctPids(all) && forall e :: e in all ==> Listed(byPid, e)
    ensures DistinctPids(order) && (forall e :: e in order <==> e in all) && ByDepth(order, byPid)
  {
    order := [];
    for i := 0 to |all|
      invariant DistinctPids(order) && forall e :: e in order <==> e in all[..i]
      invariant (forall e :: e in order ==> Listed(byPid, e)) && ByDepth(order, byPid)
    {
      order := InsertByDepth(all[i], order, byPid);
      assert all[..i + 1] == all[..i] + [all[i]];
    }
    assert all[..|all|] == all;
  }

  method InsertByDepth(e: Entry, order: seq<Entry>, byPid: Table) returns (longer: seq<Entry>)
    requires ByPid(byPid) && Listed(byPid, e) && DistinctPids(order) && forall x :: x in order ==> Listed(byPid, x)
    requires ByDepth(order, byPid) && forall x :: x in order ==> x.pid != e.pid
    ensures DistinctPids(longer) && (forall x :: x in longer <==> x == e || x in order) && ByDepth(longer, byPid)
  {
    var depth := Depth(e, byPid);
    var k := |order|;
    while k > 0
      invariant 0 <= k <= |order| && forall i :: k <= i < |order| ==> DepthOf(byPid, order[i]) > depth
    {
      assert order[k - 1] in order;
      var above := Depth(order[k - 1], byPid);
      if above <= depth { break; }
      k := k - 1;
    }
    longer := order[..k] + [e] + order[k..];
    assert order == order[..k] + order[k..];
    InsertedByDepth(e, order, byPid, k);
  }

  lemma InsertedByDepth(e: Entry, order: seq<Entry>, byPid: Table, k: nat)
    requires ByPid(byPid) && Listed(byPid, e) && DistinctPids(order) && forall x :: x in order ==> Listed(byPid, x)
    requires ByDepth(order, byPid) && (forall x :: x in order ==> x.pid != e.pid) && k <= |order|
    requires k > 0 ==> DepthOf(byPid, order[k - 1]) <= DepthOf(byPid, e)
    requires forall i :: k <= i < |order| ==> DepthOf(byPid, order[i]) > DepthOf(byPid, e)
    ensures var longer := order[..k] + [e] + order[k..];
      DistinctPids(longer) && (forall x :: x in longer ==> Listed(byPid, x)) && ByDepth(longer, byPid)
  {
    var longer := order[..k] + [e] + order[k..];
    var depths := seq(|order|, i requires 0 <= i < |order| => DepthOf(byPid, order[i]));
    forall i | 0 <= i < |longer| ensures longer[i] == if i < k then order[i] else if i == k then e else order[i - 1] {}
    forall i, j | 0 <= i < j < |longer|
      ensures DepthOf(byPid, longer[i]) <= DepthOf(byPid, longer[j]) && longer[i].pid != longer[j].pid
    {
      if i < k && k > 0 { assert depths[i] <= depths[k - 1]; }
    }
  }

  method DescendsFromAny(e: Entry, roots: seq<int>, byPid: Table) returns (r: bool)
    requires ByPid(byPid) && Listed(byPid, e)
    ensures r <==> exists i :: 0 <= i < |roots| && DescendsFrom(byPid, e, roots[i])
  {
    for i := 0 to |roots|
      invariant forall k :: 0 <= k < i ==> !DescendsFrom(byPid, e, roots[k])
    {
      var below := Descendant(e, roots[i], byPid);
      if below { return true; }
    }
    return false;
  }
}
