/** The part of the operating system that the limiter relies on: processes, job objects and job handles. */
module Kernels {
  import opened Options
  import opened ParentLinks

  /** A process is identified by its id together with its creation time. */
  datatype Process = Process(pid: int, born: int)

  /** A managed job is named after the process it was created for. */
  datatype JobName = JobName(pid: int, born: int)

  type Handle = nat

  datatype Lookup = Found(exe: string) | Absent | Failed

  datatype Reading = Marked(marked: bool) | Unavailable | Threw

  /** `members` relates job objects to live processes; `gone` are processes that have exited; `single` are the jobs
      whose limit applies to each process alone rather than to the whole tree; `critical` and `marked` are the processes
      that are critical to the system, and those whose command line carries a marker, both fixed for a process.
      The rest is bookkeeping: `unanswered` are the failed membership queries about live processes, `unread` the process
      ids whose command line could not be read; `failed` are the process ids about which a call of the present scan
      has failed, `placed` the assignments that the present scan has made, and `aborts` how many of its calls have failed
      that end a scan. */
  datatype Os = Os(alive: set<Process>, gone: set<Process>, members: set<(JobName, Process)>, single: set<JobName>,
                   handles: map<Handle, JobName>, closes: multiset<Handle>, next: Handle,
                   critical: set<Process>, marked: set<Process>,
                   unanswered: set<(JobName, Process)>, unread: set<int>, failed: set<int>, placed: set<(JobName, Process)>, aborts: nat)

  function RootOf(n: JobName): Process { Process(n.pid, n.born) }

  function NameOf(p: Process): JobName { JobName(p.pid, p.born) }

  predicate Member(os: Os, n: JobName, p: Process) { (n, p) in os.members }

  predicate Occupied(os: Os, n: JobName) { exists m :: m in os.members && m.0 == n }

  /** Consistency of one state, including the handle ledger. */
  predicate Consistent(os: Os) {
    && os.alive !! os.gone
    && (forall p :: p in os.alive ==> forall q :: q in os.alive ==> p.pid == q.pid ==> p == q)
    && (forall m :: m in os.members ==> m.1 in os.alive)
    && (forall h :: h in os.handles ==> h < os.next && os.closes[h] == 0)
  }

  /** Every handle ever given out is open, or was closed exactly once. */
  ghost predicate Ledger(os: Os) {
    forall h: Handle :: os.closes[h] == if h < os.next && h !in os.handles then 1 else 0
  }

  /** What every step keeps: exits are final, and a membership lasts until its process exits. */
  predicate Onward(a: Os, b: Os) {
    && a.gone <= b.gone
    && (forall p :: p in a.alive ==> p in b.alive || p in b.gone)
    && (forall m :: m in a.members ==> m in b.members || m.1 in b.gone)
    && b.critical == a.critical && b.marked == a.marked
    && a.unanswered <= b.unanswered && a.unread <= b.unread && a.failed <= b.failed && a.placed <= b.placed && a.aborts <= b.aborts
  }

  predicate SameObjects(a: Os, b: Os) {
    b.handles == a.handles && b.closes == a.closes && b.next == a.next && b.single == a.single
  }

  predicate SameNotes(a: Os, b: Os) {
    b.unanswered == a.unanswered && b.unread == a.unread && b.failed == a.failed && b.placed == a.placed && b.aborts == a.aborts
  }

  /** A call about this process id has failed, unless `ok`. */
  function Noted(os: Os, ok: bool, pid: int): Os { if ok then os else os.(failed := os.failed + {pid}) }

  /** The state at the start of a scan: nothing has failed and nothing was assigned in it. */
  function Fresh(os: Os): Os { os.(failed := {}, placed := {}, aborts := 0) }

  /** A call that ends a scan has failed, unless `ok`. */
  function Aborted(os: Os, ok: bool): Os { if ok then os else os.(aborts := os.aborts + 1) }

  /** No job without members gains one. */
  predicate StaysEmpty(a: Os, b: Os) { forall m :: m in b.members ==> Occupied(a, m.0) }

  /** What may happen on its own: processes start and exit, children join their parents' jobs; an empty job stays empty. */
  predicate Drifts(a: Os, b: Os) {
    Onward(a, b) && SameObjects(a, b) && StaysEmpty(a, b) && SameNotes(a, b)
  }

  predicate DistinctPids(entries: seq<Entry>) {
    forall i, j :: 0 <= i < j < |entries| ==> entries[i].pid != entries[j].pid
  }

  /** The list holds exactly the process ids of the job's members. */
  predicate Lists(pids: seq<int>, os: Os, n: JobName) {
    && (forall m :: m in os.members ==> m.0 == n ==> m.1.pid in pids)
    && (forall i :: 0 <= i < |pids| ==> exists m :: m in os.members && m.0 == n && m.1.pid == pids[i])
  }

  class Kernel {
    var os: Os
    var stay: set<Process>   // processes that live through the scan under consideration

    ghost predicate Valid()
      reads this
    {
      Consistent(os) && Ledger(os) && stay <= os.alive
    }

    constructor (start: Os, survivors: set<Process>)
      requires Consistent(start) && Ledger(start) && survivors <= start.alive
      ensures Valid() && os == start && stay == survivors
    {
      os := start;
      stay := survivors;
    }

    /** Consider the runs in which these processes outlive the coming scan, and start its bookkeeping. */
    method Focus(survivors: set<Process>)
      requires Valid() && survivors <= os.alive
      modifies this`stay, this`os
      ensures Valid() && stay == survivors && os == Fresh(old(os))
    {
      stay := survivors;
      os := Fresh(os);
    }

    method Drift()
      requires Valid()
      modifies this`os
      ensures Valid() && Drifts(old(os), os)
    {
      var after: Os := *;
      if Consistent(after) && stay <= after.alive && Drifts(os, after) { os := after; }
    }

    /** The toolhelp snapshot: at most one entry per process id. It may end early and so miss processes. */
    method Snapshot() returns (entries: Option<seq<Entry>>)
      requires Valid()
      modifies this`os
      ensures Valid() && Drifts(Aborted(old(os), entries.Some?), os)
      ensures entries.Some? ==> DistinctPids(entries.value)
    {
      Drift();
      entries := *;
      if entries.Some? && !DistinctPids(entries.value) { entries := None; }
      os := Aborted(os, entries.Some?);
    }

    /** The process ids in a job; `None` is the exception of a failed query. */
    method JobPids(h: Handle) returns (pids: Option<seq<int>>)
      requires Valid() && h in os.handles
      modifies this`os
      ensures Valid() && Drifts(Aborted(old(os), pids.Some?), os)
      ensures pids.Some? ==> Lists(pids.value, os, os.handles[h])
    {
      Drift();
      var listed: seq<int> := *;
      pids := if Lists(listed, os, os.handles[h]) then Some(listed) else None;
      os := Aborted(os, pids.Some?);
    }

    method ProcessOnly(h: Handle) returns (processOnly: Option<bool>)
      requires Valid() && h in os.handles
      modifies this`os
      ensures Valid() && Drifts(Aborted(old(os), processOnly.Some?), os)
      ensures processOnly.Some? ==> (processOnly.value <==> os.handles[h] in os.single)
    {
      Drift();
      var ok: bool := *;
      processOnly := if ok then Some(os.handles[h] in os.single) else None;
      os := Aborted(os, ok);
    }

    /** The executable of whatever process now has this id. */
    method ExecutableOf(pid: int) returns (found: Lookup)
      requires Valid()
      modifies this`os
      ensures Valid() && Drifts(old(os), os)
    {
      Drift();
      found := *;
    }

    /** Opening may fail; when it succeeds it yields the live process that holds the id. */
    method OpenProcess(pid: int) returns (p: Option<Process>)
      requires Valid()
      modifies this`os
      ensures Valid() && Drifts(Noted(old(os), p.Some?, pid), os)
      ensures p.Some? ==> p.value.pid == pid && p.value in os.alive
    {
      Drift();
      p := *;
      if p.Some? && !(p.value.pid == pid && p.value in os.alive) { p := None; }
      os := Noted(os, p.Some?, pid);
    }

    /** The creation time of a held process; `None` is the exception of a failed query. */
    method Creation(p: Process) returns (born: Option<int>)
      requires Valid()
      modifies this`os
      ensures Valid() && Drifts(Noted(old(os), born.Some?, p.pid), os)
      ensures born.Some? ==> born.value == p.born
    {
      Drift();
      var ok: bool := *;
      born := if ok then Some(p.born) else None;
      os := Noted(os, ok, p.pid);
    }

    /** Is the process critical to the system? */
    method IsCritical(p: Process) returns (critical: Option<bool>)
      requires Valid()
      modifies this`os
      ensures Valid() && Drifts(Noted(old(os), critical.Some?, p.pid), os)
      ensures critical.Some? ==> (critical.value <==> p in os.critical)
    {
      Drift();
      var ok: bool := *;
      critical := if ok then Some(p in os.critical) else None;
      os := Noted(os, ok, p.pid);
    }

    /** Does the command line of the held process carry a marker? It may be unavailable, or reading it may raise. */
    method CommandLine(p: Process) returns (answer: Reading)
      requires Valid()
      modifies this`os
      ensures Valid() && Onward(old(os), os) && SameObjects(old(os), os)
      ensures os.unanswered == old(os.unanswered) && os.placed == old(os.placed)
      ensures answer.Marked? ==> os.failed == old(os.failed) && os.unread == old(os.unread) && (answer.marked <==> p in os.marked)
      ensures !answer.Marked? ==> os.failed == old(os.failed) + {p.pid} && os.unread == old(os.unread) + {p.pid}
    {
      Drift();
      answer := *;
      if answer.Marked? { answer := Marked(p in os.marked); }
      else { os := os.(failed := os.failed + {p.pid}, unread := os.unread + {p.pid}); }
    }

    /** The membership query; a failure about a live process is noted. */
    method IsProcessInJob(p: Process, h: Handle) returns (member: Option<bool>)
      requires Valid() && h in os.handles
      modifies this`os
      ensures Valid() && Onward(old(os), os) && SameObjects(old(os), os)
      ensures member.Some? ==> member.value == Member(os, os.handles[h], p)
      ensures os.unanswered == old(os.unanswered) + if member.None? && p in os.alive then {(os.handles[h], p)} else {}
      ensures os.unread == old(os.unread) && os.placed == old(os.placed) && os.failed == Noted(old(os), member.Some?, p.pid).failed
    {
      Drift();
      var ok: bool := *;
      member := if ok then Some(Member(os, os.handles[h], p)) else None;
      if !ok && p in os.alive { os := os.(unanswered := os.unanswered + {(os.handles[h], p)}); }
      os := Noted(os, ok, p.pid);
    }

    /** Only a live process can be assigned; success is membership. */
    method Assign(h: Handle, p: Process) returns (ok: bool)
      requires Valid() && h in os.handles
      modifies this`os
      ensures Valid() && Onward(old(os), os) && SameObjects(old(os), os)
      ensures ok ==> p in os.alive && Member(os, os.handles[h], p)
      ensures os.failed == Noted(old(os), ok, p.pid).failed
      ensures os.placed == old(os.placed) + if ok then {(os.handles[h], p)} else {}
    {
      Drift();
      ok := *;
      ok := ok && p in os.alive;
      if ok { os := os.(members := os.members + {(os.handles[h], p)}, placed := os.placed + {(os.handles[h], p)}); }
      os := Noted(os, ok, p.pid);
    }

    /** Create a job object, or open the existing one of that name; either way a new handle. */
    method CreateJob(n: JobName) returns (h: Option<Handle>)
      requires Valid()
      modifies this`os
      ensures Valid() && Onward(old(os), os)
      ensures h.None? ==> SameObjects(old(os), os)
      ensures h.Some? ==> h.value == old(os.next) && os.handles == old(os.handles)[h.value := n] && os.closes == old(os.closes)
      ensures os.single == old(os.single) && os.placed == old(os.placed) && os.failed == Noted(old(os), h.Some?, n.pid).failed
    {
      Drift();
      var ok: bool := *;
      os := Noted(os, ok, n.pid);
      if !ok { return None; }
      h := Some(os.next);
      os := os.(handles := os.handles[os.next := n], next := os.next + 1);
    }

    /** Open an existing job object by name. */
    method OpenJob(n: JobName) returns (h: Option<Handle>)
      requires Valid()
      modifies this`os
      ensures Valid() && Onward(old(os), os)
      ensures h.None? ==> SameObjects(old(os), os)
      ensures h.Some? ==> h.value == old(os.next) && os.handles == old(os.handles)[h.value := n] && os.closes == old(os.closes)
      ensures os.single == old(os.single) && os.placed == old(os.placed)
    {
      h := CreateJob(n);
    }

    /** Set the limit of a job, for each process alone or for the tree. */
    method SetLimit(h: Handle, processOnly: bool) returns (ok: bool)
      requires Valid() && h in os.handles
      modifies this`os
      ensures Valid() && Onward(old(os), os)
      ensures os.handles == old(os.handles) && os.closes == old(os.closes) && os.next == old(os.next)
      ensures ok ==> os.single == if processOnly then old(os.single) + {os.handles[h]} else old(os.single) - {os.handles[h]}
      ensures !ok ==> os.single == old(os.single)
      ensures os.placed == old(os.placed) && os.failed == Noted(old(os), ok, os.handles[h].pid).failed
    {
      Drift();
      ok := *;
      os := Noted(os, ok, os.handles[h].pid);
      if ok { os := os.(single := if processOnly then os.single + {os.handles[h]} else os.single - {os.handles[h]}); }
    }

    method CloseHandle(h: Handle)
      requires Valid() && h in os.handles
      modifies this`os
      ensures Valid() && Onward(old(os), os) && os.handles == old(os.handles) - {h} && os.next == old(os.next)
      ensures os.single == old(os.single) && SameNotes(old(os), os)
      ensures os.closes == old(os.closes)[h := old(os.closes)[h] + 1]
      ensures StaysEmpty(old(os), os)
    {
      Drift();
      os := os.(handles := os.handles - {h}, closes := os.closes[h := os.closes[h] + 1]);
    }
  }
}
