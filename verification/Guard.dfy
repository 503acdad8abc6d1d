/** The early-OOM guard: one tick, its audit protocol and whole runs of ticks. */
module Guard {
  import opened Options
  import opened Pressure
  import opened Candidates
  import opened Environments
  import opened Reclaim

  // ----------------------------------------------------- the tick protocol

  /** Effects that neither launch the cleaner nor touch a process. */
  ghost predicate Harmless(e: Effect) { e.ReadMemory? || e.Wrote? || e.StampRaised? }

  ghost predicate AllHarmless(t: seq<Effect>) { forall k :: 0 <= k < |t| ==> Harmless(t[k]) }

  // ------------------------------------------------------- what is an exception

  /** An effect that raises: a failed reading, search, query or stamp, or a failed row of those that must be written. */
  ghost predicate Exception(e: Effect) {
    || e == ReadMemory(None) || e.StampRaised? || e.SearchFailed? || (e.Reread? && e.threw)
    || (e.Wrote? && !e.ok && e.row in {ReclaimSkipped, ReclaimRequested, ReclaimOutcome, TerminateRequested})
  }

  ghost predicate HasException(t: seq<Effect>) { exists k :: 0 <= k < |t| && Exception(t[k]) }

  /** A tick raises through one of its effects, or because the row right after its first reading cannot be written. */
  ghost predicate TickRaised(t: seq<Effect>) {
    HasException(t) || (|t| >= 2 && t[1].Wrote? && !t[1].ok && t[1].row in {SampleRow, RecoveredRow})
  }

  lemma Chain(a: seq<Effect>, b: seq<Effect>, c: seq<Effect>)
    ensures a + b + c == a + (b + c)
  {
  }

  lemma ExceptionIn(a: seq<Effect>, b: seq<Effect>)
    ensures HasException(a + b) <==> HasException(a) || HasException(b)
  {
    var t := a + b;
    if HasException(a) {
      var k :| 0 <= k < |a| && Exception(a[k]);
      assert t[k] == a[k];
    }
    if HasException(b) {
      var k :| 0 <= k < |b| && Exception(b[k]);
      assert t[|a| + k] == b[k];
    }
  }

  lemma ExceptionNext(t: seq<Effect>, e: Effect)
    ensures HasException(t + [e]) <==> HasException(t) || Exception(e)
  {
    ExceptionIn(t, [e]);
    assert [e][0] == e;
  }

  lemma ReclaimRaises(p: Policy, m: Memory, before: Sample, now: nat, t: seq<Effect>, after: Option<Sample>)
    requires ValidPolicy(p) && ReclaimTrace(p, m, before, now, t, after)
    ensures HasException(t) <==> after.None?
  {
    if |t| == 1 { assert after.None? ==> Exception(t[0]); }
    if |t| == 2 { assert after.None? ==> Exception(t[1]); }
    if |t| == 3 { assert after.None? ==> Exception(t[2]); }
    if |t| == 4 { assert after.None? ==> Exception(t[3]); }
  }

  /** A tick that goes on raises exactly if what follows the sensing does. */
  lemma RaisedAfterSensing(p: Policy, previous: Option<State>, sensed: seq<Effect>, state: Option<State>, rest: seq<Effect>)
    requires SenseTrace(p, previous, sensed, state) && (state.None? ==> rest == [])
    requires rest == [] || !rest[0].Wrote?
    ensures TickRaised(sensed + rest) <==> state.None? || HasException(rest)
  {
    ExceptionIn(sensed, rest);
    if state.None? && |sensed| == 1 { assert Exception(sensed[0]); }
  }

  /** The three effects right before a termination: fresh pressure, a re-read that is still the same eligible process, an audit row. */
  ghost predicate Justified(p: Policy, host: Host, t: seq<Effect>, k: nat)
    requires k < |t| && t[k].Terminated?
  {
    && p.mode == Enforce && k >= 3
    && t[k - 3].ReadMemory? && t[k - 3].sample.Some? && UnderPressure(p, t[k - 3].sample.value)
    && t[k - 2].Reread? && t[k - 2].current.Some? && Eligible(p, t[k - 2].current.value, host)
    && t[k - 2].current.value.created == t[k].victim.created
    && t[k - 1] == Wrote(TerminateRequested, true)
  }

  /** The cleaner is launched right after a pressured reading and an audited request. */
  ghost predicate LaunchJustified(p: Policy, t: seq<Effect>, k: nat) {
    && Active(p) && 2 <= k < |t| && t[k - 1] == Wrote(ReclaimRequested, true)
    && t[k - 2].ReadMemory? && t[k - 2].sample.Some? && UnderPressure(p, t[k - 2].sample.value)
  }

  ghost predicate SafeTick(p: Policy, host: Host, t: seq<Effect>) {
    && (forall k :: 0 <= k < |t| && t[k].Terminated? ==> Justified(p, host, t, k))
    && (forall j, k :: 0 <= j < k < |t| && t[j].Terminated? ==> !t[k].Terminated?)
    && (forall k :: 0 <= k < |t| && t[k].Launched? ==> LaunchJustified(p, t, k))
    && (forall j, k :: 0 <= j < k < |t| && t[j].Launched? ==> !t[k].Launched?)
    && (forall k :: 0 <= k < |t| && t[k].Terminated? ==> exists v :: 0 <= v < k && t[v] == FoundVictim(t[k].victim))
    && (forall v :: 0 <= v < |t| && t[v].FoundVictim? ==> t[|t| - 1] == ReleasedVictim)
    && (p.mode == Disabled ==> t == [])
  }

  /** The part of a tick that handles a victim; it never launches the cleaner. */
  ghost predicate SafeStrike(p: Policy, host: Host, t: seq<Effect>) {
    SafeTick(p, host, t) && forall k :: 0 <= k < |t| ==> !t[k].Launched?
  }

  /** The part of a tick before the victim: harmless but for at most one justified launch. */
  ghost predicate SafeOpening(p: Policy, t: seq<Effect>) {
    && (forall k :: 0 <= k < |t| ==> Harmless(t[k]) || (t[k].Launched? && LaunchJustified(p, t, k)))
    && (forall j, k :: 0 <= j < k < |t| && t[j].Launched? ==> !t[k].Launched?)
  }

  /** The relief step goes on to a victim exactly when both readings succeed and still show pressure. */
  ghost predicate ReliefTrace(p: Policy, m: Memory, now: nat, t: seq<Effect>, part: seq<Effect>, after: Option<Sample>, proceed: bool, raised: bool)
    requires ValidPolicy(p)
  {
    && t != [] && t[0].ReadMemory?
    && if t[0].sample.None? then |t| == 1 && !proceed && raised
       else if !UnderPressure(p, t[0].sample.value) then |t| == 2 && t[1].Wrote? && t[1].row == RecoveredRow && !proceed && !raised
       else
         && ReclaimTrace(p, m, t[0].sample.value, now, part, after)
         && |t| >= 1 + |part| && t[1..1 + |part|] == part
         && (proceed <==> after.Some? && UnderPressure(p, after.value)) && (raised <==> after.None?)
         && (proceed || raised ==> |t| == 1 + |part|)
         && (!proceed && !raised ==> |t| == 2 + |part| && t[|t| - 1].Wrote? && t[|t| - 1].row == RecoveredRow)
  }

  ghost predicate Relieved(p: Policy, m: Memory, t: seq<Effect>, proceed: bool)
    requires ValidPolicy(p)
  {
    exists now: nat, part: seq<Effect>, after: Option<Sample>, raised: bool :: ReliefTrace(p, m, now, t, part, after, proceed, raised)
  }

  /** Pressure has gone only after the reclaim call; the pressure run then starts anew. */
  ghost predicate RecoveredLate(t: seq<Effect>) {
    |t| >= 3 && t[|t| - 1].Wrote? && t[|t| - 1].row == RecoveredRow
  }

  /** The relief step put together from its first reading, the reclaim call and the row that may follow. */
  lemma ReliefAssembled(p: Policy, m: Memory, sample: Sample, now: nat, part: seq<Effect>, after: Option<Sample>, row: seq<Effect>,
                        proceed: bool, raised: bool)
    requires ValidPolicy(p) && UnderPressure(p, sample) && ReclaimTrace(p, m, sample, now, part, after) && NoLaunch(row)
    requires (raised <==> after.None?) && (proceed <==> after.Some? && UnderPressure(p, after.value))
    requires if proceed || raised then row == [] else |row| == 1 && row[0].Wrote? && row[0].row == RecoveredRow && part != []
    ensures var t := [ReadMemory(Some(sample))] + (part + row);
      && ReliefTrace(p, m, now, t, part, after, proceed, raised)
      && (RecoveredLate(t) <==> row != []) && (NoLaunch(t) <==> NoLaunch(part))
  {
    var t := [ReadMemory(Some(sample))] + (part + row);
    assert t[1..1 + |part|] == part;
    assert forall k :: 0 <= k < |part| ==> t[k + 1] == part[k];
    assert row != [] ==> t[|t| - 1] == row[0];
    assert row == [] && part != [] ==> t[|t| - 1] == part[|part| - 1];
  }

  /** The relief step raises exactly through one of its effects. */
  lemma ReliefRaises(p: Policy, m: Memory, now: nat, t: seq<Effect>, part: seq<Effect>, after: Option<Sample>, proceed: bool, raised: bool)
    requires ValidPolicy(p) && ReliefTrace(p, m, now, t, part, after, proceed, raised)
    ensures raised <==> HasException(t)
  {
    if t[0].sample.None? {
      assert Exception(t[0]);
    } else if UnderPressure(p, t[0].sample.value) {
      ReclaimRaises(p, m, t[0].sample.value, now, part, after);
      ExceptionIn([t[0]], part);
      assert [t[0]] + part == t[..1 + |part|];
      if proceed || raised { assert t == t[..1 + |part|]; }
      else {
        assert t == t[..1 + |part|] + [t[|t| - 1]];
        ExceptionNext(t[..1 + |part|], t[|t| - 1]);
      }
    }
  }

  lemma ReliefIsSafe(p: Policy, m: Memory, now: nat, t: seq<Effect>, part: seq<Effect>, after: Option<Sample>, proceed: bool, raised: bool)
    requires ValidPolicy(p) && ReliefTrace(p, m, now, t, part, after, proceed, raised)
    ensures SafeOpening(p, t)
  {
    if t[0].sample.Some? && UnderPressure(p, t[0].sample.value) {
      forall k | 0 <= k < |part| ensures t[k + 1] == part[k] {
        assert t[1..1 + |part|][k] == part[k];
      }
    }
  }

  /** What happens between finding a victim and releasing it. */
  ghost predicate ConfrontTrace(p: Policy, host: Host, victim: Facts, t: seq<Effect>) {
    if p.mode == Observe then |t| == 1 && t[0].Wrote? && t[0].row == WouldTerminateRow
    else
      && t != [] && t[0].ReadMemory?
      && if t[0].sample.None? then |t| == 1
         else
           && |t| >= 2 && t[1].Reread?
           && if t[1].threw then |t| == 2
              else
                && |t| >= 3 && t[2].Wrote?
                && if !StillGuilty(p, host, victim, t[0].sample.value, t[1].current) then |t| == 3 && t[2].row == CancelledRow
                   else
                     && t[2].row == TerminateRequested
                     && if !t[2].ok then |t| == 3
                        else
                          && |t| >= 5 && t[3] == Terminated(victim) && t[4].ReadMemory?
                          && if t[4].sample.None? then |t| == 5
                             else |t| == 6 && t[5].Wrote? && t[5].row == TerminationOutcome
  }

  /** Pressure persists and the held process is still the same eligible one. */
  predicate StillGuilty(p: Policy, host: Host, victim: Facts, sample: Sample, current: Option<Facts>) {
    UnderPressure(p, sample) && ExclusionReason(p, current, host).None? && current.value.created == victim.created
  }

  /** A victim is terminated exactly in Enforce mode, under renewed pressure, if it still is the same eligible process and the audit row is written. */
  lemma TerminatesIff(p: Policy, host: Host, victim: Facts, t: seq<Effect>)
    requires ConfrontTrace(p, host, victim, t)
    ensures Terminated(victim) in t <==>
      && p.mode != Observe && |t| >= 3
      && t[0].ReadMemory? && t[0].sample.Some? && UnderPressure(p, t[0].sample.value)
      && t[1].Reread? && !t[1].threw && t[1].current.Some? && Eligible(p, t[1].current.value, host)
      && t[1].current.value.created == victim.created
      && t[2].Wrote? && t[2].ok
  {
    if |t| > 3 { assert t[3] in t; }
  }

  /** The victim search and everything done to what it found. */
  ghost predicate StrikeTrace(p: Policy, host: Host, t: seq<Effect>) {
    || t == [SearchFailed]
    || (|t| == 2 && t[0] == NoVictim && t[1].Wrote? && t[1].row == NoCandidateRow)
    || (|t| >= 2 && t[0].FoundVictim? && t[|t| - 1] == ReleasedVictim && ConfrontTrace(p, host, t[0].facts, t[1..|t| - 1]))
  }

  lemma ConfrontHasShape(p: Policy, host: Host, victim: Facts, t: seq<Effect>)
    requires ConfrontTrace(p, host, victim, t) && p.mode != Disabled
    ensures ConfrontShape(p, host, victim, t)
  {
  }

  ghost predicate ConfrontShape(p: Policy, host: Host, victim: Facts, t: seq<Effect>) {
    || (forall k :: 0 <= k < |t| ==> Harmless(t[k]) || t[k].Reread?)
    || (&& |t| >= 4 && t[3] == Terminated(victim)
        && Justified(p, host, t, 3)
        && forall k :: 0 <= k < |t| && k != 3 ==> Harmless(t[k]) || t[k].Reread?)
  }

  lemma ConfrontIsSafe(p: Policy, host: Host, victim: Facts, t: seq<Effect>)
    requires p.mode != Disabled && ConfrontShape(p, host, victim, t)
    ensures SafeStrike(p, host, [FoundVictim(victim)] + t + [ReleasedVictim])
  {
    var all := [FoundVictim(victim)] + t + [ReleasedVictim];
    forall k | 0 < k < |all| - 1 ensures all[k] == t[k - 1] {}
    forall k | 0 <= k < |all| && all[k].Terminated?
      ensures k == 4 && Justified(p, host, all, k) && all[0] == FoundVictim(all[k].victim)
    {
      assert t[k - 1].Terminated?;
      assert all[3] == t[2] && all[2] == t[1] && all[1] == t[0];
    }
  }

  /** Finding, confronting and releasing a victim: safe, and an exception exactly if confronting it was one. */
  lemma VictimTrace(p: Policy, host: Host, victim: Facts, steps: seq<Effect>)
    requires p.mode != Disabled && ConfrontTrace(p, host, victim, steps)
    ensures var t := [FoundVictim(victim)] + steps + [ReleasedVictim];
      StrikeTrace(p, host, t) && SafeStrike(p, host, t) && (HasException(t) <==> HasException(steps))
  {
    var t := [FoundVictim(victim)] + steps + [ReleasedVictim];
    ConfrontHasShape(p, host, victim, steps);
    ConfrontIsSafe(p, host, victim, steps);
    assert t[1..|t| - 1] == steps;
    ExceptionIn([FoundVictim(victim)], steps);
    ExceptionNext([FoundVictim(victim)] + steps, ReleasedVictim);
  }

  lemma StrikeAfter(p: Policy, host: Host, a: seq<Effect>, b: seq<Effect>)
    requires p.mode != Disabled && SafeStrike(p, host, b) && SafeOpening(p, a)
    ensures SafeTick(p, host, a + b)
  {
    var t := a + b;
    forall k | 0 <= k < |t| && t[k].Terminated?
      ensures Justified(p, host, t, k) && exists v :: 0 <= v < k && t[v] == FoundVictim(t[k].victim)
    {
      var i := k - |a|;
      assert b[i].Terminated? && Justified(p, host, b, i);
      var v :| 0 <= v < i && b[v] == FoundVictim(b[i].victim);
      assert t[v + |a|] == b[v];
    }
    forall k | 0 <= k < |t| && t[k].Launched? ensures LaunchJustified(p, t, k) {
      assert k < |a| && a[k].Launched?;
    }
  }

  lemma WholeTickIsSafe(p: Policy, host: Host, sensed: seq<Effect>, relief: seq<Effect>, blow: seq<Effect>)
    requires p.mode != Disabled && AllHarmless(sensed) && SafeOpening(p, relief) && SafeStrike(p, host, blow)
    ensures SafeTick(p, host, sensed + (relief + blow))
  {
    OpeningIsSafe(p, sensed, relief);
    StrikeAfter(p, host, sensed + relief, blow);
    assert sensed + relief + blow == sensed + (relief + blow);
  }

  // ------------------------------------------------------------- the guard

  /** One finished tick: its effects, and the index in the decision history of the action it recorded. */
  datatype TickRecord = TickRecord(effects: seq<Effect>, action: Option<nat>)

  /** What a tick may do that needs a recorded action. */
  ghost predicate NeedsAction(t: seq<Effect>) { exists k :: 0 <= k < |t| && (t[k].Terminated? || t[k].Launched?) }

  ghost predicate GoodRecord(p: Policy, host: Host, h: seq<Event>, r: TickRecord) {
    && SafeTick(p, host, r.effects)
    && (r.action.Some? ==> r.action.value < |h| && h[r.action.value].Acted?)
    && (NeedsAction(r.effects) ==> r.action.Some?)
  }

  ghost predicate GoodRun(p: Policy, host: Host, h: seq<Event>, ticks: seq<TickRecord>) {
    && Disciplined(p, h)
    && (forall i {:trigger GoodRecord(p, host, h, ticks[i])} :: 0 <= i < |ticks| ==> GoodRecord(p, host, h, ticks[i]))
    && (forall i, j :: 0 <= i < j < |ticks| && ticks[i].action.Some? && ticks[j].action.Some?
          ==> ticks[i].action.value < ticks[j].action.value)
  }

  /** Extending the decision history by a sample, a reset or a disciplined action keeps every tick record good. */
  lemma RunGrows(p: Policy, host: Host, h: seq<Event>, longer: seq<Event>, ticks: seq<TickRecord>)
    requires GoodRun(p, host, h, ticks) && Timed(longer)
    requires |longer| == |h| + 1 && longer[..|h|] == h
    requires longer[|h|].Acted? ==> ReadyBefore(p, h, |h|)
    ensures GoodRun(p, host, longer, ticks)
  {
    forall k | 0 <= k < |longer| && longer[k].Acted? ensures ReadyBefore(p, longer, k) {
      assert k < |h| ==> h[k] == longer[k] && ReadyBefore(p, h, k);
      assert h[..k] == longer[..k];
    }
    forall i | 0 <= i < |ticks| ensures GoodRecord(p, host, longer, ticks[i]) {
      assert GoodRecord(p, host, h, ticks[i]);
    }
  }

  lemma ActionsLieInHistory(p: Policy, host: Host, h: seq<Event>, ticks: seq<TickRecord>)
    requires GoodRun(p, host, h, ticks)
    ensures forall i :: 0 <= i < |ticks| && ticks[i].action.Some? ==> ticks[i].action.value < |h|
  {
    forall i | 0 <= i < |ticks| && ticks[i].action.Some? ensures ticks[i].action.value < |h| {
      assert GoodRecord(p, host, h, ticks[i]);
    }
  }

  lemma HarmlessIsSafe(p: Policy, host: Host, t: seq<Effect>)
    requires AllHarmless(t) && p.mode != Disabled
    ensures SafeStrike(p, host, t) && !NeedsAction(t)
  {
  }

  lemma OpeningIsSafe(p: Policy, sensed: seq<Effect>, relief: seq<Effect>)
    requires AllHarmless(sensed)
    requires SafeOpening(p, relief)
    ensures SafeOpening(p, sensed + relief)
  {
    var t := sensed + relief;
    forall k | 0 <= k < |t| ensures Harmless(t[k]) || (t[k].Launched? && LaunchJustified(p, t, k)) {
      if k >= |sensed| {
        var i := k - |sensed|;
        assert t[k] == relief[i];
        if relief[i].Launched? { assert LaunchJustified(p, relief, i); }
      }
    }
  }

  /** The decision made on the reading is the whole-history verdict on a history that ends with it. */
  ghost predicate Judged(p: Policy, h: seq<Event>, reading: Effect, state: State) {
    && reading.ReadMemory? && reading.sample.Some?
    && h != [] && h[|h| - 1].Sampled? && h[|h| - 1].pressured == UnderPressure(p, reading.sample.value)
    && state == Verdict(p, h)
  }

  /** One reading, then an audit row whenever the answer changed; a failed row is an exception. */
  ghost predicate SenseTrace(p: Policy, previous: Option<State>, t: seq<Effect>, state: Option<State>) {
    && 1 <= |t| <= 2 && t[0].ReadMemory?
    && (|t| == 2 ==> t[0].sample.Some? && t[1].Wrote? && t[1].row in {SampleRow, RecoveredRow} && (t[1].ok <==> state.Some?))
    && (|t| == 1 ==> if t[0].sample.None? then state == None else state.Some? && state == previous)
    && (|t| == 2 && t[1].row == RecoveredRow ==> previous.Some? && previous != Some(Normal))
    && (|t| == 2 && state == Some(Normal) && previous.Some? && previous != Some(Normal) ==> t[1].row == RecoveredRow)
  }

  /** The answer is back to normal from some other one. */
  ghost predicate RecoveredFrom(previous: Option<State>, state: State) {
    state == Normal && previous.Some? && previous.value != Normal
  }

  /** What a tick does once the answer was Ready: observe a victim, or relieve first and strike unless that sufficed. */
  ghost predicate Responds(p: Policy, host: Host, m: Memory, relief: seq<Effect>, blow: seq<Effect>)
    requires ValidPolicy(p)
  {
    && (blow != [] ==> StrikeTrace(p, host, blow))
    && (p.mode == Observe ==> relief == [] && blow != [])
    && (p.mode == Enforce ==> Relieved(p, m, relief, blow != []))
  }

  /** A whole tick raises exactly if its sensing or what followed it did. */
  lemma TickRaises(p: Policy, host: Host, m: Memory, previous: Option<State>, sensed: seq<Effect>, answer: Option<State>,
                   relief: seq<Effect>, blow: seq<Effect>)
    requires ValidPolicy(p) && p.mode != Disabled && SenseTrace(p, previous, sensed, answer)
    requires if answer == Some(Ready) then Responds(p, host, m, relief, blow) else relief + blow == []
    ensures TickRaised(sensed + (relief + blow)) <==> answer.None? || HasException(relief + blow)
  {
    if answer == Some(Ready) && p.mode == Enforce { assert relief != [] && (relief + blow)[0] == relief[0]; }
    RaisedAfterSensing(p, previous, sensed, answer, relief + blow);
  }

  /** The Ready branch extends the history by its action, and by a reset if pressure went only after reclaiming. */
  ghost predicate ActedOn(h: seq<Event>, longer: seq<Event>, relief: seq<Effect>) {
    && |longer| > |h| && longer[..|h|] == h && longer[|h|].Acted?
    && longer[|h| + 1..] == if RecoveredLate(relief) then [Reset] else []
  }

  /** At most one reclaim call took the machine from `a` to `b`, and the launch list grew exactly if a launch was traced. */
  ghost predicate Advances(a: System, b: System, t: seq<Effect>)
    requires Sane(a)
  {
    Stepped(a, b)
    && (b.disk.launches == a.disk.launches <==> NoLaunch(t))
  }

  ghost predicate Stepped(a: System, b: System)
    requires Sane(a)
  {
    b == a || exists e: Incident :: e.Call? && b == Step(a, e)
  }

  ghost predicate NoLaunch(t: seq<Effect>) { forall k :: 0 <= k < |t| ==> !t[k].Launched? }

  class EarlyOomGuard {
    const policy: Policy
    const decision: PressureDecision
    const reclaimer: MemoryReclaimer
    const env: Environment
    var previousState: Option<State>
    var nextHeartbeat: real
    ghost var ticks: seq<TickRecord>

    ghost predicate Valid()
      reads this, decision, env, reclaimer, reclaimer.file
    {
      && ValidPolicy(policy) && decision.policy == policy && reclaimer.policy == policy
      && decision.Valid() && Latest(decision.history, env.clock)
      && Guarded(Machine())
      && GoodRun(policy, env.host, decision.history, ticks)
    }

    /** The stamp file and this process, as the crash model sees them. */
    ghost function Machine(): System
      reads reclaimer, reclaimer.file
    {
      System(reclaimer.file.disk, Up(policy, reclaimer.Remembered()))
    }

    /** Starting on whatever stamp file earlier processes left behind. */
    constructor (settings: Policy, machine: Environment, stampFile: StampFile, readFails: bool)
      requires ValidPolicy(settings) && machine.clock >= 0.0
      requires Guarded(System(stampFile.disk, Down))
      ensures Valid() && policy == settings && env == machine && ticks == []
      ensures fresh(decision) && fresh(reclaimer) && reclaimer.file == stampFile
      ensures Machine() == Step(System(stampFile.disk, Down), Start(settings, readFails))
    {
      policy, env := settings, machine;
      decision := new PressureDecision(settings);
      reclaimer := new MemoryReclaimer(settings, stampFile, readFails);
      previousState, nextHeartbeat, ticks := None, 0.0, [];
    }

    /** Sample, decide and write the audit row; `None` is an exception. `t` are the effects. */
    method Sense() returns (state: Option<State>, ghost t: seq<Effect>)
      requires Valid() && policy.mode != Disabled
      modifies this`previousState, this`nextHeartbeat, decision, env
      ensures Valid() && ticks == old(ticks)
      ensures env.trace == old(env.trace) + t && AllHarmless(t)
      ensures old(decision.history) <= decision.history
      ensures state == Some(Ready) ==> ReadyBefore(policy, decision.history, |decision.history|)
      ensures SenseTrace(policy, old(previousState), t, state)
      ensures old(env.clock) >= old(nextHeartbeat) && t[0] != ReadMemory(None) ==> |t| == 2
      ensures |t| == 2 && state.Some? ==> nextHeartbeat == env.clock + 60.0
      ensures state.Some? ==> previousState == state && |decision.history| == |old(decision.history)| + 1
      ensures state.Some? ==> Judged(policy, decision.history, t[0], state.value)
    {
      var sample := env.Read();
      t := [ReadMemory(sample)];
      if sample.None? { return None, t; }
      state := Decide(sample.value);
      ghost var row;
      var ok;
      ok, row := Report(state.value);
      Chain(old(env.trace), t, row);
      t := t + row;
      if !ok { state := None; }
    }

    /** Write the audit row for an answer if it has changed or a heartbeat is due. */
    method Report(state: State) returns (ok: bool, ghost row: seq<Effect>)
      requires env.clock >= 0.0
      modifies this`previousState, this`nextHeartbeat, env
      ensures env.trace == old(env.trace) + row && old(env.clock) <= env.clock && |row| <= 1
      ensures row == [] ==> ok && old(previousState) == Some(state) && old(env.clock) < old(nextHeartbeat)
      ensures row != [] ==> row[0] == Wrote(if RecoveredFrom(old(previousState), state) then RecoveredRow else SampleRow, ok)
      ensures row != [] && ok ==> nextHeartbeat == env.clock + 60.0
      ensures ok ==> previousState == Some(state)
    {
      ok, row := true, [];
      var now := env.Elapsed();
      if Some(state) != previousState || now >= nextHeartbeat {
        var recovered := state == Normal && previousState.Some? && previousState != Some(Normal);
        ok := env.Write(if recovered then RecoveredRow else SampleRow);
        row := [Wrote(if recovered then RecoveredRow else SampleRow, ok)];
        if !ok { return; }
        now := env.Elapsed();
        previousState, nextHeartbeat := Some(state), now + 60.0;
      }
    }

    /** The decision on one reading. */
    method Decide(sample: Sample) returns (state: Option<State>)
      requires Valid() && policy.mode != Disabled && ValidSample(sample)
      modifies decision, env`clock
      ensures Valid() && state.Some? && old(env.clock) <= env.clock
      ensures |decision.history| == |old(decision.history)| + 1 && old(decision.history) <= decision.history
      ensures state == Some(Ready) ==> ReadyBefore(policy, decision.history, |decision.history|)
      ensures Judged(policy, decision.history, ReadMemory(Some(sample)), state.value)
    {
      var seconds := env.Elapsed();
      ghost var before := decision.history;
      state := decision.Evaluate(sample, seconds);
      RunGrows(policy, env.host, before, decision.history, ticks);
      assert decision.history[..|decision.history|] == decision.history;
    }

    /** Enforce mode only: re-read, reclaim, re-judge. `t` are the effects, `part` those of reclaiming, `after` the reading that leaves. */
    method Relieve() returns (proceed: bool, raised: bool, ghost t: seq<Effect>, ghost now: nat, ghost part: seq<Effect>, ghost after: Option<Sample>)
      requires Valid() && policy.mode == Enforce
      modifies decision, reclaimer, reclaimer.file, env
      ensures Valid() && ticks == old(ticks)
      ensures env.trace == old(env.trace) + t
      ensures ReliefTrace(policy, old(reclaimer.Remembered()), now, t, part, after, proceed, raised)
      ensures Advances(old(Machine()), Machine(), t)
      ensures decision.history == old(decision.history) + if RecoveredLate(t) then [Reset] else []
    {
      proceed, raised, now, part, after := false, true, 0, [], None;
      var sample := env.Read();
      t := [ReadMemory(sample)];
      if sample.None? { return; }
      if !UnderPressure(policy, sample.value) {
        var ok := env.Write(RecoveredRow);
        Chain(old(env.trace), t, [Wrote(RecoveredRow, ok)]);
        t := t + [Wrote(RecoveredRow, ok)];
        raised := false;
        return;
      }
      var utc := env.UtcNow();
      ghost var row;
      proceed, raised, part, after, row := CleanAndJudge(sample.value, utc);
      Chain(old(env.trace), t, part + row);
      now, t := utc, t + (part + row);
      ReliefAssembled(policy, old(reclaimer.Remembered()), sample.value, now, part, after, row, proceed, raised);
    }

    /** Reclaim, then look whether the reading that leaves still shows pressure. */
    method CleanAndJudge(sample: Sample, now: nat)
      returns (proceed: bool, raised: bool, ghost part: seq<Effect>, ghost after: Option<Sample>, ghost row: seq<Effect>)
      requires Valid() && ValidSample(sample) && UnderPressure(policy, sample)
      modifies decision, reclaimer, reclaimer.file, env`trace
      ensures Valid() && env.trace == old(env.trace) + (part + row)
      ensures ReclaimTrace(policy, old(reclaimer.Remembered()), sample, now, part, after)
      ensures Advances(old(Machine()), Machine(), part) && NoLaunch(row)
      ensures (raised <==> after.None?) && (proceed <==> after.Some? && UnderPressure(policy, after.value))
      ensures if proceed || raised then row == [] && decision.history == old(decision.history)
              else |row| == 1 && row[0].Wrote? && row[0].row == RecoveredRow && part != [] && decision.history == old(decision.history) + [Reset]
    {
      ghost var reclaiming := |env.trace|;
      var reading := Clean(sample, now);
      part, after, row := env.trace[reclaiming..], reading, [];
      if reading.None? { return false, true, part, after, row; }
      proceed, raised := UnderPressure(policy, reading.value), false;
      if !proceed {
        ghost var before := decision.history;
        decision.ResetPressure();
        RunGrows(policy, env.host, before, decision.history, ticks);
        var ok := env.Write(RecoveredRow);
        row := [Wrote(RecoveredRow, ok)];
      }
    }

    /** The reclaim call: one step of the crash model. */
    method Clean(sample: Sample, now: nat) returns (after: Option<Sample>)
      requires Valid() && ValidSample(sample)
      modifies reclaimer, reclaimer.file, env`trace
      ensures Valid() && old(env.trace) <= env.trace
      ensures ReclaimTrace(policy, old(reclaimer.Remembered()), sample, now, env.trace[|old(env.trace)|..], after)
      ensures Advances(old(Machine()), Machine(), env.trace[|old(env.trace)|..])
    {
      ghost var machine := Machine();
      ghost var audited, persist;
      after, audited, persist := reclaimer.BeforeTermination(sample, now, env);
      StepKeepsGuarded(machine, Call(now, audited, persist));
    }

    /** Find a victim and, in Enforce mode, re-check everything before terminating it. */
    method Strike() returns (raised: bool, ghost t: seq<Effect>)
      requires policy.mode != Disabled
      modifies env`trace
      ensures env.trace == old(env.trace) + t
      ensures StrikeTrace(policy, env.host, t) && SafeStrike(policy, env.host, t)
      ensures raised <==> HasException(t)
    {
      var search := env.Search();
      if search.None? {
        t := [SearchFailed];
        assert Exception(t[0]);
        return true, t;
      }
      if search.value.None? {
        var ok := env.Write(NoCandidateRow);
        return false, [NoVictim, Wrote(NoCandidateRow, ok)];
      }
      ghost var steps;
      raised, steps := Confront(search.value.value);
      env.Release();
      VictimTrace(policy, env.host, search.value.value, steps);
      t := [FoundVictim(search.value.value)] + steps + [ReleasedVictim];
    }

    method Confront(victim: Facts) returns (raised: bool, ghost steps: seq<Effect>)
      requires policy.mode != Disabled
      modifies env`trace
      ensures env.trace == old(env.trace) + steps && ConfrontTrace(policy, env.host, victim, steps)
      ensures raised <==> HasException(steps)
    {
      if policy.mode == Observe {
        var ok := env.Write(WouldTerminateRow);
        return false, [Wrote(WouldTerminateRow, ok)];
      }
      var sample := env.Read();
      steps := [ReadMemory(sample)];
      assert HasException(steps) <==> Exception(steps[0]);
      if sample.None? { return true, steps; }
      var threw, current := env.ReadAgain();
      ExceptionNext(steps, Reread(threw, current));
      steps := steps + [Reread(threw, current)];
      if threw { return true, steps; }
      if !StillGuilty(policy, env.host, victim, sample.value, current) {
        var ok := env.Write(CancelledRow);
        ExceptionNext(steps, Wrote(CancelledRow, ok));
        return false, steps + [Wrote(CancelledRow, ok)];
      }
      var ok := env.Write(TerminateRequested);
      ExceptionNext(steps, Wrote(TerminateRequested, ok));
      steps := steps + [Wrote(TerminateRequested, ok)];
      if !ok { return true, steps; }
      ghost var rest;
      raised, rest := Finalize(victim);
      ExceptionIn(steps, rest);
      steps := steps + rest;
    }

    /** The termination itself, and the audit of its outcome. */
    method Finalize(victim: Facts) returns (raised: bool, ghost rest: seq<Effect>)
      modifies env`trace
      ensures env.trace == old(env.trace) + rest && (raised <==> HasException(rest))
      ensures |rest| >= 2 && rest[0] == Terminated(victim) && rest[1].ReadMemory?
      ensures if rest[1].sample.None? then |rest| == 2 else |rest| == 3 && rest[2].Wrote? && rest[2].row == TerminationOutcome
    {
      env.Terminate(victim);
      var final := env.Read();
      rest := [Terminated(victim), ReadMemory(final)];
      assert Exception(rest[1]) <==> final.None?;
      if final.None? { return true, rest; }
      var logged := env.Write(TerminationOutcome);
      ExceptionNext(rest, Wrote(TerminationOutcome, logged));
      return false, rest + [Wrote(TerminationOutcome, logged)];
    }

    /** Everything after the action was recorded: relief first in Enforce mode, then the victim unless relief sufficed. */
    method Engage() returns (raised: bool, ghost relief: seq<Effect>, ghost blow: seq<Effect>)
      requires Valid() && policy.mode != Disabled
      modifies decision, reclaimer, reclaimer.file, env
      ensures Valid() && ticks == old(ticks)
      ensures decision.history == old(decision.history) + if RecoveredLate(relief) then [Reset] else []
      ensures raised <==> HasException(relief + blow)
      ensures env.trace == old(env.trace) + (relief + blow)
      ensures SafeOpening(policy, relief) && SafeStrike(policy, env.host, blow)
      ensures Advances(old(Machine()), Machine(), relief)
      ensures Responds(policy, env.host, old(reclaimer.Remembered()), relief, blow)
    {
      var proceed := true;
      raised, relief, blow := false, [], [];
      if policy.mode == Enforce {
        ghost var now, part, after;
        proceed, raised, relief, now, part, after := Relieve();
        ReliefIsSafe(policy, old(reclaimer.Remembered()), now, relief, part, after, proceed, raised);
        ReliefRaises(policy, old(reclaimer.Remembered()), now, relief, part, after, proceed, raised);
        assert Relieved(policy, old(reclaimer.Remembered()), relief, proceed);
      }
      if proceed { raised, blow := Strike(); }
      Chain(old(env.trace), relief, blow);
      ExceptionIn(relief, blow);
    }

    /** The Ready branch of a tick: the action is recorded first, whatever follows. */
    method Act(ghost sensed: seq<Effect>) returns (raised: bool, ghost relief: seq<Effect>, ghost blow: seq<Effect>)
      requires Valid() && policy.mode != Disabled && AllHarmless(sensed)
      requires ReadyBefore(policy, decision.history, |decision.history|)
      modifies this`ticks, decision, reclaimer, reclaimer.file, env
      ensures Valid()
      ensures ticks == old(ticks) + [TickRecord(sensed + (relief + blow), Some(|old(decision.history)|))]
      ensures env.trace == old(env.trace) + (relief + blow)
      ensures Advances(old(Machine()), Machine(), relief) && NoLaunch(blow)
      ensures Responds(policy, env.host, old(reclaimer.Remembered()), relief, blow)
      ensures ActedOn(old(decision.history), decision.history, relief) && (raised <==> HasException(relief + blow))
    {
      ghost var action := |decision.history|;
      TakeAction();
      raised, relief, blow := Engage();
      RecordAction(sensed, relief, blow, action);
    }

    ghost method RecordAction(sensed: seq<Effect>, relief: seq<Effect>, blow: seq<Effect>, action: nat)
      requires Valid() && policy.mode != Disabled && AllHarmless(sensed) && SafeOpening(policy, relief) && SafeStrike(policy, env.host, blow)
      requires action < |decision.history| && decision.history[action].Acted?
      requires forall i :: 0 <= i < |ticks| && ticks[i].action.Some? ==> ticks[i].action.value < action
      modifies this`ticks
      ensures Valid() && ticks == old(ticks) + [TickRecord(sensed + (relief + blow), Some(action))]
    {
      WholeTickIsSafe(policy, env.host, sensed, relief, blow);
      Record(TickRecord(sensed + (relief + blow), Some(action)));
    }

    method TakeAction()
      requires Valid() && ReadyBefore(policy, decision.history, |decision.history|)
      modifies decision, env`clock
      ensures Valid() && |decision.history| == |old(decision.history)| + 1 && old(decision.history) <= decision.history
      ensures decision.history[|old(decision.history)|].Acted?
      ensures forall i :: 0 <= i < |ticks| && ticks[i].action.Some? ==> ticks[i].action.value < |old(decision.history)|
    {
      ghost var h := decision.history;
      ActionsLieInHistory(policy, env.host, h, ticks);
      var seconds := env.Elapsed();
      decision.ActionTaken(seconds);
      RunGrows(policy, env.host, h, decision.history, ticks);
    }

    ghost method RecordQuiet(sensed: seq<Effect>)
      requires Valid() && policy.mode != Disabled && AllHarmless(sensed)
      modifies this`ticks
      ensures Valid() && ticks == old(ticks) + [TickRecord(sensed + ([] + []), None)]
    {
      HarmlessIsSafe(policy, env.host, sensed);
      assert sensed + ([] + []) == sensed;
      Record(TickRecord(sensed, None));
    }

    ghost method Record(r: TickRecord)
      requires Valid() && GoodRecord(policy, env.host, decision.history, r)
      requires r.action.Some? ==> forall i :: 0 <= i < |ticks| && ticks[i].action.Some? ==> ticks[i].action.value < r.action.value
      modifies this`ticks
      ensures Valid() && ticks == old(ticks) + [r]
    {
      ticks := ticks + [r];
    }

    /** What follows the answer: nothing more, or the Ready branch. */
    method Finish(answer: Option<State>, ghost sensed: seq<Effect>) returns (raised: bool, ghost relief: seq<Effect>, ghost blow: seq<Effect>)
      requires Valid() && policy.mode != Disabled && AllHarmless(sensed)
      requires answer == Some(Ready) ==> ReadyBefore(policy, decision.history, |decision.history|)
      modifies this`ticks, decision, reclaimer, reclaimer.file, env
      ensures Valid()
      ensures ticks == old(ticks) + [TickRecord(sensed + (relief + blow), if answer == Some(Ready) then Some(|old(decision.history)|) else None)]
      ensures env.trace == old(env.trace) + (relief + blow)
      ensures if answer == Some(Ready) then Responds(policy, env.host, old(reclaimer.Remembered()), relief, blow) else relief + blow == []
      ensures Advances(old(Machine()), Machine(), relief) && NoLaunch(blow)
      ensures if answer == Some(Ready) then ActedOn(old(decision.history), decision.history, relief) else decision.history == old(decision.history)
      ensures raised <==> answer.None? || HasException(relief + blow)
    {
      relief, blow := [], [];
      if answer != Some(Ready) {
        RecordQuiet(sensed);
        return answer.None?, relief, blow;
      }
      raised, relief, blow := Act(sensed);
    }

    /** One tick; `raised` is an exception. The ghost results are its decision and the three parts of its effects. */
    method Tick() returns (raised: bool, ghost state: Option<State>, ghost sensed: seq<Effect>, ghost relief: seq<Effect>, ghost blow: seq<Effect>)
      requires Valid()
      modifies this, decision, reclaimer, reclaimer.file, env
      ensures Valid()
      ensures env.trace == old(env.trace) + (sensed + (relief + blow))
      ensures ticks == old(ticks) + [TickRecord(sensed + (relief + blow), if state == Some(Ready) then Some(|old(decision.history)| + 1) else None)]
      ensures if policy.mode == Disabled then sensed == [] && !raised else SenseTrace(policy, old(previousState), sensed, state)
      ensures if state == Some(Ready) then Responds(policy, env.host, old(reclaimer.Remembered()), relief, blow) else relief + blow == []
      ensures Advances(old(Machine()), Machine(), relief) && NoLaunch(sensed) && NoLaunch(blow)
      ensures Spaced(reclaimer.file.disk.launches)
      ensures old(decision.history) <= decision.history
      ensures raised <==> TickRaised(sensed + (relief + blow))
    {
      raised, state, sensed, relief, blow := false, None, [], [], [];
      if policy.mode == Disabled {
        Record(TickRecord([], None));
        return;
      }
      var answer;
      answer, sensed := Sense();
      state := answer;
      raised, relief, blow := Finish(answer, sensed);
      Chain(old(env.trace), sensed, relief + blow);
      TickRaises(policy, env.host, old(reclaimer.Remembered()), old(previousState), sensed, answer, relief, blow);
    }

    /** However the process ends, the next one starts on a stamp file that still guards the cooldown. */
    lemma SurvivesCrash(crash: Incident)
      requires Valid() && (crash.Crash? || crash.CrashWhileStamping?)
      ensures Step(Machine(), crash).process == Down && Guarded(Step(Machine(), crash))
    {
      StepKeepsGuarded(Machine(), crash);
    }

    /** One service iteration: a tick that raises resets the pressure run. */
    method Iterate() returns (raised: bool)
      requires Valid()
      modifies this, decision, reclaimer, reclaimer.file, env
      ensures Valid() && |ticks| == |old(ticks)| + 1 && ticks[..|old(ticks)|] == old(ticks)
      ensures env.trace == old(env.trace) + ticks[|old(ticks)|].effects
      ensures old(decision.history) <= decision.history
      ensures raised <==> TickRaised(ticks[|old(ticks)|].effects)
      ensures TickRaised(ticks[|old(ticks)|].effects) ==>
        |decision.history| > |old(decision.history)| && decision.history[|decision.history| - 1] == Reset
      ensures Stepped(old(Machine()), Machine()) && Spaced(reclaimer.file.disk.launches)
    {
      ghost var state, sensed, relief, blow;
      raised, state, sensed, relief, blow := Tick();
      if raised {
        ghost var before := decision.history;
        decision.ResetPressure();
        RunGrows(policy, env.host, before, decision.history, ticks);
      }
    }
  }

  // ------------------------------------------------------------ whole runs

  ghost predicate ActsIn(h: seq<Event>, r: TickRecord) {
    r.action.Some? && r.action.value < |h| && h[r.action.value].Acted?
  }

  /** The clock reading of the action that the tick recorded. */
  ghost function ActionTime(h: seq<Event>, r: TickRecord): real
    requires ActsIn(h, r)
  {
    h[r.action.value].at
  }

  lemma HarmfulTickActs(p: Policy, host: Host, h: seq<Event>, ticks: seq<TickRecord>, i: nat)
    requires GoodRun(p, host, h, ticks) && i < |ticks| && NeedsAction(ticks[i].effects)
    ensures ActsIn(h, ticks[i])
  {
    assert GoodRecord(p, host, h, ticks[i]);
  }

  lemma HarmfulPairIsSpaced(p: Policy, host: Host, h: seq<Event>, ticks: seq<TickRecord>, i: nat, j: nat)
    requires GoodRun(p, host, h, ticks) && i < j < |ticks|
    requires ActsIn(h, ticks[i]) && ActsIn(h, ticks[j])
    ensures ActionTime(h, ticks[j]) - ActionTime(h, ticks[i]) >= Spacing(p)
  {
    ActionsAreSpaced(p, h, ticks[i].action.value, ticks[j].action.value);
  }

  /** Over any run, ticks that terminate or reclaim never crowd: `n` of them span at least `n - 1` spacings. */
  lemma HarmfulTicksAreSpaced(p: Policy, host: Host, h: seq<Event>, ticks: seq<TickRecord>, picks: seq<nat>)
    requires GoodRun(p, host, h, ticks) && picks != []
    requires forall i :: 0 <= i < |picks| ==> picks[i] < |ticks| && NeedsAction(ticks[picks[i]].effects)
    requires forall i, j :: 0 <= i < j < |picks| ==> picks[i] < picks[j]
    ensures forall i :: 0 <= i < |picks| ==> ActsIn(h, ticks[picks[i]])
    ensures (|picks| - 1) as real * Spacing(p)
      <= ActionTime(h, ticks[picks[|picks| - 1]]) - ActionTime(h, ticks[picks[0]])
  {
    var times := HarmfulTimes(p, host, h, ticks, picks);
    var n := |picks| - 1;
    assert times[n] == ActionTime(h, ticks[picks[n]]) && times[0] == ActionTime(h, ticks[picks[0]]);
    SpanOfSpaced(times, Spacing(p));
  }

  lemma HarmfulTimes(p: Policy, host: Host, h: seq<Event>, ticks: seq<TickRecord>, picks: seq<nat>) returns (times: seq<real>)
    requires GoodRun(p, host, h, ticks)
    requires forall i :: 0 <= i < |picks| ==> picks[i] < |ticks| && NeedsAction(ticks[picks[i]].effects)
    requires forall i, j :: 0 <= i < j < |picks| ==> picks[i] < picks[j]
    ensures forall i :: 0 <= i < |picks| ==> ActsIn(h, ticks[picks[i]])
    ensures |times| == |picks| && forall i :: 0 <= i < |picks| ==> times[i] == ActionTime(h, ticks[picks[i]])
    ensures forall i :: 0 < i < |times| ==> times[i] - times[i - 1] >= Spacing(p)
  {
    forall i | 0 <= i < |picks| ensures ActsIn(h, ticks[picks[i]]) {
      HarmfulTickActs(p, host, h, ticks, picks[i]);
    }
    times := seq(|picks|, i requires 0 <= i < |picks| => ActionTime(h, ticks[picks[i]]));
    forall i | 0 < i < |times| ensures times[i] - times[i - 1] >= Spacing(p) {
      HarmfulPairIsSpaced(p, host, h, ticks, picks[i - 1], picks[i]);
    }
  }

  /** Outside Enforce mode no run terminates a process or launches the cleaner. */
  lemma OnlyEnforceActs(p: Policy, host: Host, h: seq<Event>, ticks: seq<TickRecord>, i: nat)
    requires GoodRun(p, host, h, ticks) && i < |ticks| && p.mode != Enforce
    ensures !NeedsAction(ticks[i].effects)
  {
    assert GoodRecord(p, host, h, ticks[i]);
  }
}
