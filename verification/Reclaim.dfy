/** The memory cleaner's cooldown, kept in a stamp file that survives crashes and restarts. */
module Reclaim {
  import opened Options
  import opened Pressure
  import opened Environments

  const TICKS_PER_MINUTE: nat := 600_000_000

  /** The stamp file. Replacing it leaves either the old or the new content; nobody else deletes it. */
  datatype Stamp = Absent | Unreadable | At(ticks: nat)

  /** A cleaner launch with the cooldown in force at the time. */
  datatype Launch = Launch(at: nat, cooldown: nat)

  datatype Disk = Disk(stamp: Stamp, launches: seq<Launch>)

  /** What a running process remembers; 0 stands for the earliest representable time. */
  datatype Memory = Memory(lastAttempt: nat, invalidStamp: bool)

  /** Outcome of writing and replacing the stamp: done, a handled error, or any other exception. */
  datatype Persist = Replaced | Refused(landed: bool) | Threw(landed: bool)

  function CooldownTicks(p: Policy): nat
    requires ValidPolicy(p)
  {
    if p.optimizeCooldownMinutes >= 0 then p.optimizeCooldownMinutes * TICKS_PER_MINUTE else 0
  }

  function Load(stamp: Stamp, readFails: bool): Memory {
    if stamp.Absent? then Memory(0, false)
    else if readFails || stamp.Unreadable? then Memory(0, true)
    else Memory(stamp.ticks, false)
  }

  predicate Active(p: Policy) { p.mode == Enforce && p.optimize }

  predicate Suppressed(p: Policy, m: Memory, now: nat)
    requires ValidPolicy(p)
  {
    m.invalidStamp || now - m.lastAttempt < CooldownTicks(p)
  }

  /** One call before a termination: what memory and disk become. */
  function Attempt(p: Policy, m: Memory, d: Disk, now: nat, audited: bool, persist: Persist): (Memory, Disk)
    requires ValidPolicy(p)
  {
    if !Active(p) || Suppressed(p, m, now) || !audited then (m, d)
    else
      match persist
      case Replaced => (Memory(now, false), Disk(At(now), d.launches + [Launch(now, CooldownTicks(p))]))
      case Refused(landed) => (m.(invalidStamp := true), if landed then d.(stamp := At(now)) else d)
      case Threw(landed) => (m, if landed then d.(stamp := At(now)) else d)
  }

  /** When a call launches the cleaner, and with which cooldown, in minutes of 600 million ticks of the policy. */
  lemma LaunchMeaning(p: Policy, m: Memory, d: Disk, now: nat, audited: bool, persist: Persist)
    requires ValidPolicy(p)
    ensures var enabled := p.mode == Enforce && p.optimize;
      var cooldown := p.optimizeCooldownMinutes * 600_000_000;
      var rested := !m.invalidStamp && m.lastAttempt + cooldown <= now;
      var (m', d') := Attempt(p, m, d, now, audited, persist);
      if enabled && rested && audited && persist == Replaced then
        d' == Disk(At(now), d.launches + [Launch(now, cooldown)]) && m' == Memory(now, false)
      else d'.launches == d.launches && m'.lastAttempt == m.lastAttempt
    ensures (p.mode == Enforce && p.optimize && m.lastAttempt + p.optimizeCooldownMinutes * 600_000_000 <= now && audited && persist.Refused?)
      ==> Attempt(p, m, d, now, audited, persist).0.invalidStamp
  {
  }

  // --------------------------------------------------------- runs and crashes

  datatype Process = Down | Up(policy: Policy, memory: Memory)

  datatype System = System(disk: Disk, process: Process)

  datatype Incident =
    | Start(policy: Policy, readFails: bool)
    | Call(now: nat, audited: bool, persist: Persist)
    | CrashWhileStamping(now: nat, landed: bool)   // after the guards and the audit, before the launch
    | Crash
    | Damage                                       // the stamp becomes unreadable

  ghost predicate Sane(s: System) { s.process.Up? ==> ValidPolicy(s.process.policy) }

  function Step(s: System, e: Incident): (r: System)
    requires Sane(s)
    ensures Sane(r)
  {
    match e
    case Start(p, readFails) =>
      if ValidPolicy(p) then s.(process := Up(p, Load(s.disk.stamp, readFails))) else s.(process := Down)
    case Call(now, audited, persist) =>
      if s.process.Down? then s
      else
        var (m, d) := Attempt(s.process.policy, s.process.memory, s.disk, now, audited, persist);
        System(d, Up(s.process.policy, m))
    case CrashWhileStamping(now, landed) =>
      if s.process.Up? && Active(s.process.policy) && !Suppressed(s.process.policy, s.process.memory, now) && landed
      then System(s.disk.(stamp := At(now)), Down)
      else s.(process := Down)
    case Crash => s.(process := Down)
    case Damage => if s.disk.stamp.Absent? then s else s.(disk := s.disk.(stamp := Unreadable))
  }

  function RunFrom(s: System, events: seq<Incident>): (r: System)
    requires Sane(s)
    ensures Sane(r)
  {
    if events == [] then s else Step(RunFrom(s, events[..|events| - 1]), events[|events| - 1])
  }

  ghost predicate Spaced(launches: seq<Launch>) {
    forall i, j :: 0 <= i < j < |launches| ==> launches[j].at - launches[i].at >= launches[j].cooldown
  }

  ghost predicate NoneAfter(launches: seq<Launch>, t: nat) {
    forall l :: l in launches ==> l.at <= t
  }

  /** Whatever the process may later trust lies at or after every launch so far. */
  ghost predicate Guarded(s: System) {
    && Spaced(s.disk.launches)
    && (s.disk.stamp.Absent? ==> s.disk.launches == [])
    && (s.disk.stamp.At? ==> NoneAfter(s.disk.launches, s.disk.stamp.ticks))
    && (s.process.Up? && !s.process.memory.invalidStamp ==> NoneAfter(s.disk.launches, s.process.memory.lastAttempt))
  }

  lemma StepKeepsGuarded(s: System, e: Incident)
    requires Sane(s) && Guarded(s)
    ensures Guarded(Step(s, e))
  {
  }

  /** Over every run, in any interleaving and for any clock readings, launches keep the cooldown. */
  lemma {:induction false} LaunchesAreSpaced(stamp: Stamp, events: seq<Incident>)
    ensures Guarded(RunFrom(System(Disk(stamp, []), Down), events))
    ensures Spaced(RunFrom(System(Disk(stamp, []), Down), events).disk.launches)
  {
    if events != [] {
      LaunchesAreSpaced(stamp, events[..|events| - 1]);
      StepKeepsGuarded(RunFrom(System(Disk(stamp, []), Down), events[..|events| - 1]), events[|events| - 1]);
    }
  }

  /** Every policy ever started has at least this many minutes of cooldown. */
  ghost predicate RestsFor(minutes: nat, events: seq<Incident>) {
    forall e :: e in events && e.Start? ==> e.policy.optimizeCooldownMinutes >= minutes
  }

  lemma {:induction false} CooldownsAreLong(stamp: Stamp, events: seq<Incident>, minutes: nat)
    requires RestsFor(minutes, events)
    ensures var r := RunFrom(System(Disk(stamp, []), Down), events);
      && (forall l :: l in r.disk.launches ==> l.cooldown >= minutes * 600_000_000)
      && (r.process.Up? ==> r.process.policy.optimizeCooldownMinutes >= minutes)
  {
    if events != [] {
      var n := |events| - 1;
      CooldownsAreLong(stamp, events[..n], minutes);
      var s, e := RunFrom(System(Disk(stamp, []), Down), events[..n]), events[n];
      if e.Call? && s.process.Up? {
        LaunchMeaning(s.process.policy, s.process.memory, s.disk, e.now, e.audited, e.persist);
        MoreTicks(s.process.policy.optimizeCooldownMinutes, minutes);
      }
    }
  }

  lemma MoreTicks(a: int, b: nat)
    ensures a >= b ==> a * 600_000_000 >= b * 600_000_000
  {
  }

  /** Two launches of any run are at least the configured minutes apart, at ten million ticks a second. */
  lemma LaunchesAreMinutesApart(stamp: Stamp, events: seq<Incident>, minutes: nat, i: nat, j: nat)
    requires RestsFor(minutes, events) && i < j < |RunFrom(System(Disk(stamp, []), Down), events).disk.launches|
    ensures var launches := RunFrom(System(Disk(stamp, []), Down), events).disk.launches;
      launches[j].at - launches[i].at >= minutes * 60 * 10_000_000
  {
    LaunchesAreSpaced(stamp, events);
    CooldownsAreLong(stamp, events, minutes);
    var launches := RunFrom(System(Disk(stamp, []), Down), events).disk.launches;
    assert launches[j] in launches;
  }

  /** An unreadable stamp suppresses every launch for ever: no call, crash, restart or later damage brings one back. */
  lemma {:induction false} UnreadableSuppresses(s: System, events: seq<Incident>)
    requires Sane(s) && s.disk.stamp.Unreadable? && (s.process.Up? ==> s.process.memory.invalidStamp)
    ensures var r := RunFrom(s, events);
      && r.disk == s.disk
      && (r.process.Up? ==> r.process.memory.invalidStamp)
  {
    if events != [] { UnreadableSuppresses(s, events[..|events| - 1]); }
  }

  /** A process that has lost trust in the stamp never launches again, whether or not the stamp itself is readable. */
  lemma {:induction false} DistrustLasts(s: System, events: seq<Incident>)
    requires Sane(s) && (s.process.Up? ==> s.process.memory.invalidStamp)
    requires forall e :: e in events ==> !e.Start?
    ensures var r := RunFrom(s, events);
      r.disk.launches == s.disk.launches && (r.process.Up? ==> r.process.memory.invalidStamp)
  {
    if events != [] { DistrustLasts(s, events[..|events| - 1]); }
  }

  /** A stamp that could not be read at start, or not be replaced later, silences the running process. */
  lemma FailureSilencesProcess(s: System, e: Incident, events: seq<Incident>)
    requires Sane(s) && forall x :: x in events ==> !x.Start?
    requires
      || (e.Start? && !s.disk.stamp.Absent? && (e.readFails || s.disk.stamp.Unreadable?))
      || (e.Call? && e.audited && e.persist.Refused? && s.process.Up? && Active(s.process.policy))
    ensures e.Call? ==> Suppressed(s.process.policy, s.process.memory, e.now) || Step(s, e).process.memory.invalidStamp
    ensures e.Call? && Suppressed(s.process.policy, s.process.memory, e.now) ==> Step(s, e) == s
    ensures e.Start? || !Suppressed(s.process.policy, s.process.memory, e.now) ==>
      RunFrom(Step(s, e), events).disk.launches == s.disk.launches
  {
    if e.Start? || !Suppressed(s.process.policy, s.process.memory, e.now) { DistrustLasts(Step(s, e), events); }
  }

  // ------------------------------------------------------------------ object

  class StampFile {
    var disk: Disk

    constructor (stamp: Stamp)
      ensures disk == Disk(stamp, [])
    {
      disk := Disk(stamp, []);
    }
  }

  class MemoryReclaimer {
    const policy: Policy
    const file: StampFile
    var lastAttempt: nat
    var invalidStamp: bool

    function Remembered(): Memory
      reads this
    {
      Memory(lastAttempt, invalidStamp)
    }

    constructor (settings: Policy, stampFile: StampFile, readFails: bool)
      requires ValidPolicy(settings)
      ensures policy == settings && file == stampFile
      ensures Remembered() == Load(stampFile.disk.stamp, readFails)
    {
      policy, file := settings, stampFile;
      lastAttempt, invalidStamp := 0, false;
      if !stampFile.disk.stamp.Absent? {
        if readFails || stampFile.disk.stamp.Unreadable? { invalidStamp := true; }
        else { lastAttempt := stampFile.disk.stamp.ticks; }
      }
    }

    /** Reclaim before terminating; `None` is an exception. The ghost results are what the machine answered. */
    method BeforeTermination(before: Sample, now: nat, env: Environment)
      returns (after: Option<Sample>, ghost audited: bool, ghost persist: Persist)
      requires ValidPolicy(policy)
      modifies this, file, env`trace
      ensures ValidSample(before) ==>
        (Remembered(), file.disk) == Attempt(policy, old(Remembered()), old(file.disk), now, audited, persist)
      ensures !ValidSample(before) ==> Remembered() == old(Remembered()) && file.disk == old(file.disk) && after == None
      ensures after.Some? ==> ValidSample(after.value)
      ensures old(env.trace) <= env.trace
      ensures ValidSample(before) ==> ReclaimTrace(policy, old(Remembered()), before, now, env.trace[|old(env.trace)|..], after)
      ensures !ValidSample(before) ==> env.trace == old(env.trace)
      ensures Launched(now) in env.trace[|old(env.trace)|..] <==> file.disk.launches != old(file.disk.launches)
    {
      audited, persist := false, Replaced;
      if !ValidSample(before) { return None, audited, persist; }
      if policy.mode != Enforce || !policy.optimize { return Some(before), audited, persist; }
      if invalidStamp || now - lastAttempt < CooldownTicks(policy) {
        var ok := env.Write(ReclaimSkipped);
        return if ok then Some(before) else None, audited, persist;
      }
      var requested := env.Write(ReclaimRequested);
      audited := requested;
      if !requested { return None, audited, persist; }
      var outcome: Persist := *;
      persist := outcome;
      if outcome != Replaced {
        if outcome.landed { file.disk := file.disk.(stamp := At(now)); }
        if outcome.Threw? {
          env.StampRaises();
          return None, audited, persist;
        }
        invalidStamp := true;
        var ok := env.Write(ReclaimSkipped);
        return if ok then Some(before) else None, audited, persist;
      }
      lastAttempt := now;
      file.disk := Disk(At(now), file.disk.launches + [Launch(now, CooldownTicks(policy))]);
      env.Launch(now);
      after := env.Read();
      if after.None? { return None, audited, persist; }
      var ok := env.Write(ReclaimOutcome);
      if !ok { after := None; }
    }
  }

  /** The effects of one call and the reading it returns: skip while suppressed; else request, stamp, launch, measure and audit. */
  ghost predicate ReclaimTrace(p: Policy, m: Memory, before: Sample, now: nat, t: seq<Effect>, after: Option<Sample>)
    requires ValidPolicy(p)
  {
    if !Active(p) then t == [] && after == Some(before)
    else if Suppressed(p, m, now) then
      |t| == 1 && t[0].Wrote? && t[0].row == ReclaimSkipped && after == if t[0].ok then Some(before) else None
    else
      && t != [] && t[0].Wrote? && t[0].row == ReclaimRequested
      && if !t[0].ok then |t| == 1 && after == None else |t| >= 2 && StampedTrace(before, now, t, after)
  }

  /** What follows an audited request: the stamp cannot be written, or the cleaner is launched and its effect measured. */
  ghost predicate StampedTrace(before: Sample, now: nat, t: seq<Effect>, after: Option<Sample>)
    requires |t| >= 2
  {
    || (t[1] == StampRaised && |t| == 2 && after == None)
    || (t[1].Wrote? && t[1].row == ReclaimSkipped && |t| == 2 && after == if t[1].ok then Some(before) else None)
    || (t[1] == Launched(now) && 3 <= |t| <= 4 && t[2].ReadMemory?
        && (|t| == 3 ==> t[2].sample == None && after == None)
        && (|t| == 4 ==> t[2].sample.Some? && t[3].Wrote? && t[3].row == ReclaimOutcome && after == if t[3].ok then t[2].sample else None))
  }
}
