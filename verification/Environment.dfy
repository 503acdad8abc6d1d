/** What the guard may observe and do: every answer of the machine is arbitrary, every effect is traced. */
module Environments {
  import opened Options
  import opened Pressure
  import opened Candidates

  datatype AuditRow =
    | SampleRow | RecoveredRow
    | ReclaimSkipped | ReclaimRequested | ReclaimOutcome
    | NoCandidateRow | WouldTerminateRow | CancelledRow | TerminateRequested | TerminationOutcome

  datatype Effect =
    | ReadMemory(sample: Option<Sample>)      // None: the reading raised
    | Wrote(row: AuditRow, ok: bool)
    | StampRaised
    | Launched(at: nat)
    | SearchFailed | NoVictim | FoundVictim(facts: Facts)
    | Reread(threw: bool, current: Option<Facts>)
    | Terminated(victim: Facts)
    | ReleasedVictim

  class Environment {
    const host: Host
    var clock: real
    ghost var trace: seq<Effect>

    constructor (machine: Host)
      ensures host == machine && clock == 0.0 && trace == []
    {
      host, clock, trace := machine, 0.0, [];
    }

    /** A monotonic stopwatch. */
    method Elapsed() returns (seconds: real)
      modifies this`clock
      ensures old(clock) <= seconds == clock
    {
      var later: real := *;
      if later > clock { clock := later; }
      seconds := clock;
    }

    /** The wall clock may show anything. */
    method UtcNow() returns (ticks: nat) {
      ticks := *;
    }

    method Read() returns (sample: Option<Sample>)
      modifies this`trace
      ensures trace == old(trace) + [ReadMemory(sample)]
      ensures sample.Some? ==> ValidSample(sample.value)
    {
      sample := *;
      if sample.Some? && !ValidSample(sample.value) { sample := None; }
      trace := trace + [ReadMemory(sample)];
    }

    method Write(row: AuditRow) returns (ok: bool)
      modifies this`trace
      ensures trace == old(trace) + [Wrote(row, ok)]
    {
      ok := *;
      trace := trace + [Wrote(row, ok)];
    }

    /** Writing the stamp raised an exception that is not handled. */
    method StampRaises()
      modifies this`trace
      ensures trace == old(trace) + [StampRaised]
    {
      trace := trace + [StampRaised];
    }

    method Launch(at: nat)
      modifies this`trace
      ensures trace == old(trace) + [Launched(at)]
    {
      trace := trace + [Launched(at)];
    }

    /** The victim search; its result is unconstrained here. Outer `None`: it raised. */
    method Search() returns (r: Option<Option<Facts>>)
      modifies this`trace
      ensures trace == old(trace) + [if r.None? then SearchFailed else if r.value.None? then NoVictim else FoundVictim(r.value.value)]
    {
      r :| true;
      trace := trace + [if r.None? then SearchFailed else if r.value.None? then NoVictim else FoundVictim(r.value.value)];
    }

    /** Query the held process once more; `threw` is an exception. */
    method ReadAgain() returns (threw: bool, current: Option<Facts>)
      modifies this`trace
      ensures trace == old(trace) + [Reread(threw, current)]
      ensures threw ==> current == None
    {
      threw, current := *, *;
      if threw { current := None; }
      trace := trace + [Reread(threw, current)];
    }

    method Terminate(victim: Facts)
      modifies this`trace
      ensures trace == old(trace) + [Terminated(victim)]
    {
      trace := trace + [Terminated(victim)];
    }

    method Release()
      modifies this`trace
      ensures trace == old(trace) + [ReleasedVictim]
    {
      trace := trace + [ReleasedVictim];
    }
  }
}
