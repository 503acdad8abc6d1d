/** Memory-pressure telemetry and the sustained-pressure decision machine. */
module Pressure {
  import opened Options

  datatype Mode = Observe | Enforce | Disabled

  datatype Policy = Policy(mode: Mode, availablePercent: real, commitPercent: real, emergencyPercent: real,
                           sustain: int, cooldown: int,
                           optimize: bool, optimizeCooldownMinutes: int, optimizeTimeout: int,
                           minimumMiB: int, excluded: seq<string>)

  predicate ValidPolicy(p: Policy) {
    && 0.0 < p.availablePercent <= 25.0 && 0.0 < p.commitPercent <= 25.0
    && 0.0 < p.emergencyPercent < p.commitPercent
    && 1 <= p.sustain <= 60 && 5 <= p.cooldown <= 300 && 64 <= p.minimumMiB
    && (p.optimize ==> 1 <= p.optimizeCooldownMinutes <= 1440 && 1 <= p.optimizeTimeout <= 10)
  }

  datatype Sample = Sample(physicalTotal: nat, physicalAvailable: nat, commitLimit: nat, commitUsed: nat)

  predicate ValidSample(s: Sample) {
    s.physicalTotal != 0 && s.commitLimit != 0 && s.physicalAvailable <= s.physicalTotal
  }

  function HeadroomBytes(s: Sample): nat {
    if s.commitUsed >= s.commitLimit then 0 else s.commitLimit - s.commitUsed
  }

  function Percent(part: nat, whole: nat): real {
    if whole == 0 then 0.0 else 100.0 * part as real / whole as real
  }

  predicate UnderPressure(p: Policy, s: Sample) {
    var headroom := Percent(HeadroomBytes(s), s.commitLimit);
    headroom <= p.emergencyPercent
    || (Percent(s.physicalAvailable, s.physicalTotal) <= p.availablePercent && headroom <= p.commitPercent)
  }

  /** Pressure in byte counts, without division: commit headroom at most the emergency share, or both shares low at once. */
  ghost predicate PressedInBytes(p: Policy, s: Sample) {
    var headroom := 100.0 * (s.commitLimit as real - s.commitUsed as real);
    || headroom <= p.emergencyPercent * s.commitLimit as real
    || (100.0 * s.physicalAvailable as real <= p.availablePercent * s.physicalTotal as real
        && headroom <= p.commitPercent * s.commitLimit as real)
  }

  lemma PressureMeaning(p: Policy, s: Sample)
    requires ValidPolicy(p) && s.physicalTotal != 0 && s.commitLimit != 0
    ensures UnderPressure(p, s) <==> PressedInBytes(p, s)
  {
    ShareAtMost(s.physicalAvailable, s.physicalTotal, p.availablePercent);
    HeadroomAtMost(s, p.emergencyPercent);
    HeadroomAtMost(s, p.commitPercent);
  }

  lemma ShareAtMost(part: nat, whole: nat, percent: real)
    requires whole != 0
    ensures Percent(part, whole) <= percent <==> 100.0 * part as real <= percent * whole as real
  {
    var w := whole as real;
    assert Percent(part, whole) * w == 100.0 * part as real;
    if Percent(part, whole) <= percent { assert Percent(part, whole) * w <= percent * w; }
    if Percent(part, whole) > percent { assert Percent(part, whole) * w > percent * w; }
  }

  lemma HeadroomAtMost(s: Sample, percent: real)
    requires s.commitLimit != 0 && percent > 0.0
    ensures Percent(HeadroomBytes(s), s.commitLimit) <= percent
      <==> 100.0 * (s.commitLimit as real - s.commitUsed as real) <= percent * s.commitLimit as real
  {
    ShareAtMost(HeadroomBytes(s), s.commitLimit, percent);
    assert percent * s.commitLimit as real > 0.0;
  }

  lemma BytesAreMonotone(p: Policy, s: Sample, t: Sample)
    requires t.physicalTotal == s.physicalTotal && t.commitLimit == s.commitLimit
    requires t.physicalAvailable <= s.physicalAvailable && t.commitUsed >= s.commitUsed
    ensures PressedInBytes(p, s) ==> PressedInBytes(p, t)
  {
  }

  /** Less available memory or more committed memory never ends pressure. */
  lemma PressureIsMonotone(p: Policy, s: Sample, t: Sample)
    requires ValidPolicy(p) && s.physicalTotal != 0 && s.commitLimit != 0
    requires t.physicalTotal == s.physicalTotal && t.commitLimit == s.commitLimit
    requires t.physicalAvailable <= s.physicalAvailable && t.commitUsed >= s.commitUsed
    ensures UnderPressure(p, s) ==> UnderPressure(p, t)
  {
    PressureMeaning(p, s);
    PressureMeaning(p, t);
    BytesAreMonotone(p, s, t);
  }

  /** Telemetry is usable exactly when both totals are there and no more memory is free than there is. */
  lemma ValidSampleMeaning(s: Sample)
    ensures ValidSample(s) <==> s.physicalTotal > 0 && s.commitLimit > 0 && s.physicalTotal >= s.physicalAvailable
  {
  }

  // ------------------------------------------------- whole-history meaning

  /** Everything that ever happened to one decision object, with monotonic clock readings. */
  datatype Event = Sampled(at: real, pressured: bool) | Acted(at: real) | Reset

  datatype State = Normal | Cooldown | Ready | Sustaining | Off

  ghost predicate Timed(h: seq<Event>) {
    && (forall i :: 0 <= i < |h| && !h[i].Reset? ==> 0.0 <= h[i].at)
    && (forall i, j :: 0 <= i < j < |h| && !h[i].Reset? && !h[j].Reset? ==> h[i].at <= h[j].at)
  }

  /** Entries `i..` are pressured samples only. */
  ghost predicate Unbroken(h: seq<Event>, i: int) {
    0 <= i < |h| && forall k :: i <= k < |h| ==> h[k].Sampled? && h[k].pressured
  }

  ghost predicate Sustained(p: Policy, h: seq<Event>)
    requires h != [] && h[|h| - 1].Sampled?
  {
    exists i :: Unbroken(h, i) && h[|h| - 1].at - h[i].at >= p.sustain as real
  }

  ghost predicate CooledDown(p: Policy, h: seq<Event>)
    requires h != [] && h[|h| - 1].Sampled?
  {
    forall k :: 0 <= k < |h| && h[k].Acted? ==> h[|h| - 1].at - h[k].at >= p.cooldown as real
  }

  /** What the last sample of a history should be answered, looking at the whole history. */
  ghost function Verdict(p: Policy, h: seq<Event>): State
    requires h != [] && h[|h| - 1].Sampled?
  {
    if !h[|h| - 1].pressured then Normal
    else if !CooledDown(p, h) then Cooldown
    else if Sustained(p, h) then Ready
    else Sustaining
  }

  // ------------------------------------------------------- two-variable machine

  function RunStart(h: seq<Event>): real {
    if h == [] then -1.0
    else
      match h[|h| - 1]
      case Sampled(at, true) => var before := RunStart(h[..|h| - 1]); if before < 0.0 then at else before
      case _ => -1.0
  }

  function LastAction(h: seq<Event>): Option<real> {
    if h == [] then None
    else if h[|h| - 1].Acted? then Some(h[|h| - 1].at)
    else LastAction(h[..|h| - 1])
  }

  /** The stored run start is the time of the earliest sample of the unbroken run. */
  lemma {:induction false} RunStartMeaning(h: seq<Event>)
    requires Timed(h)
    ensures RunStart(h) < 0.0 <==> forall i :: !Unbroken(h, i)
    ensures RunStart(h) >= 0.0 ==> exists i :: Unbroken(h, i) && h[i].at == RunStart(h)
    ensures forall i :: Unbroken(h, i) ==> RunStart(h) <= h[i].at
  {
    if h != [] {
      var g, e := h[..|h| - 1], h[|h| - 1];
      RunStartMeaning(g);
      assert h == g + [e];
      forall i ensures Unbroken(h, i) <==> e.Sampled? && e.pressured && (i == |g| || Unbroken(g, i)) {
        UnbrokenNext(g, e, i);
      }
      if e.Sampled? && e.pressured {
        assert Unbroken(h, |g|);
        if i :| Unbroken(g, i) && g[i].at == RunStart(g) { assert Unbroken(h, i) && h[i].at == RunStart(g); }
      }
    }
  }

  lemma UnbrokenNext(g: seq<Event>, e: Event, i: int)
    ensures Unbroken(g + [e], i) <==> e.Sampled? && e.pressured && (i == |g| || Unbroken(g, i))
  {
    var h := g + [e];
    assert h[|g|] == e;
    assert forall k :: 0 <= k < |g| ==> h[k] == g[k];
  }

  lemma {:induction false} LastActionMeaning(h: seq<Event>)
    requires Timed(h)
    ensures LastAction(h).None? <==> forall k :: 0 <= k < |h| ==> !h[k].Acted?
    ensures LastAction(h).Some? ==> exists k :: 0 <= k < |h| && h[k] == Acted(LastAction(h).value)
    ensures forall k :: 0 <= k < |h| && h[k].Acted? ==> LastAction(h).Some? && h[k].at <= LastAction(h).value
  {
    if h != [] && !h[|h| - 1].Acted? {
      var g := h[..|h| - 1];
      LastActionMeaning(g);
      assert forall k :: 0 <= k < |g| ==> h[k] == g[k];
    }
  }

  /** The verdict computed from the two stored numbers equals the whole-history verdict. */
  lemma MachineMatchesHistory(p: Policy, h: seq<Event>)
    requires Timed(h) && h != [] && h[|h| - 1].Sampled? && h[|h| - 1].pressured
    ensures RunStart(h) >= 0.0
    ensures Sustained(p, h) <==> h[|h| - 1].at - RunStart(h) >= p.sustain as real
    ensures CooledDown(p, h) <==> LastAction(h).Some? ==> h[|h| - 1].at - LastAction(h).value >= p.cooldown as real
  {
    RunStartMeaning(h);
    LastActionMeaning(h);
    assert Unbroken(h, |h| - 1);
  }

  ghost predicate Latest(h: seq<Event>, t: real) {
    0.0 <= t && forall i :: 0 <= i < |h| && !h[i].Reset? ==> h[i].at <= t
  }

  class PressureDecision {
    const policy: Policy
    var pressureSince: real
    var lastAction: Option<real>   // None is the initial minus infinity
    ghost var history: seq<Event>

    ghost predicate Valid()
      reads this
    {
      Timed(history) && pressureSince == RunStart(history) && lastAction == LastAction(history)
    }

    constructor (settings: Policy)
      requires ValidPolicy(settings)
      ensures Valid() && policy == settings && history == []
    {
      policy := settings;
      pressureSince, lastAction, history := -1.0, None, [];
    }

    /** Answer a sample read at `seconds`; `None` is the exception for invalid telemetry. */
    method Evaluate(sample: Sample, seconds: real) returns (r: Option<State>)
      requires Valid() && Latest(history, seconds)
      modifies this
      ensures Valid()
      ensures policy.mode == Disabled ==> r == Some(Off) && history == old(history)
      ensures policy.mode != Disabled && !ValidSample(sample) ==> r == None && history == old(history)
      ensures policy.mode != Disabled && ValidSample(sample) ==>
        && history == old(history) + [Sampled(seconds, UnderPressure(policy, sample))]
        && r == Some(Verdict(policy, history))
    {
      if policy.mode == Disabled { return Some(Off); }
      if !ValidSample(sample) { return None; }
      var pressured := UnderPressure(policy, sample);
      history := history + [Sampled(seconds, pressured)];
      assert history[..|history| - 1] == old(history);
      if !pressured { pressureSince := -1.0; return Some(Normal); }
      if pressureSince < 0.0 { pressureSince := seconds; }
      MachineMatchesHistory(policy, history);
      if lastAction.Some? && seconds - lastAction.value < policy.cooldown as real { return Some(Cooldown); }
      return Some(if seconds - pressureSince >= policy.sustain as real then Ready else Sustaining);
    }

    method ActionTaken(seconds: real)
      requires Valid() && Latest(history, seconds)
      modifies this
      ensures Valid() && history == old(history) + [Acted(seconds)]
    {
      lastAction := Some(seconds);
      pressureSince := -1.0;
      history := history + [Acted(seconds)];
    }

    method ResetPressure()
      requires Valid()
      modifies this
      ensures Valid() && history == old(history) + [Reset]
    {
      pressureSince := -1.0;
      history := history + [Reset];
      assert history[..|history| - 1] == old(history);
    }
  }

  // ---------------------------------------------------------- rate of actions

  /** Actions are only taken straight after a sample that was answered Ready. */
  ghost predicate Disciplined(p: Policy, h: seq<Event>) {
    Timed(h) && forall k {:trigger ReadyBefore(p, h, k)} :: 0 <= k < |h| && h[k].Acted? ==> ReadyBefore(p, h, k)
  }

  ghost predicate ReadyBefore(p: Policy, h: seq<Event>, k: nat) {
    0 < k <= |h| && h[k - 1].Sampled? && Verdict(p, h[..k]) == Ready
  }

  function Spacing(p: Policy): real {
    if p.sustain >= p.cooldown then p.sustain as real else p.cooldown as real
  }

  /** The spacing is the longer of the cooldown and the sustain time. */
  lemma SpacingMeaning(p: Policy)
    ensures Spacing(p) >= p.cooldown as real && Spacing(p) >= p.sustain as real
    ensures Spacing(p) in {p.cooldown as real, p.sustain as real}
  {
  }

  lemma ReadyMeaning(p: Policy, h: seq<Event>, k: nat)
    requires ReadyBefore(p, h, k)
    ensures h[k - 1].Sampled?
    ensures forall j :: 0 <= j < k && h[j].Acted? ==> h[k - 1].at - h[j].at >= p.cooldown as real
    ensures exists i :: 0 <= i < k && AllSamples(h, i, k) && h[k - 1].at - h[i].at >= p.sustain as real
  {
    var g := h[..k];
    assert CooledDown(p, g) && Sustained(p, g);
    assert forall j :: 0 <= j < k ==> g[j] == h[j];
    var i :| Unbroken(g, i) && g[k - 1].at - g[i].at >= p.sustain as real;
    assert AllSamples(h, i, k);
  }

  ghost predicate AllSamples(h: seq<Event>, i: nat, k: nat) {
    i <= k <= |h| && forall m :: i <= m < k ==> h[m].Sampled?
  }

  /** Any two actions are at least the longer of the two configured times apart. */
  lemma ActionsAreSpaced(p: Policy, h: seq<Event>, a: nat, b: nat)
    requires Disciplined(p, h) && a < b < |h| && h[a].Acted? && h[b].Acted?
    ensures h[b].at - h[a].at >= Spacing(p)
    ensures h[b].at - h[a].at >= p.cooldown as real && h[b].at - h[a].at >= p.sustain as real
  {
    assert ReadyBefore(p, h, b);
    ReadyMeaning(p, h, b);
    var i :| 0 <= i < b && AllSamples(h, i, b) && h[b - 1].at - h[i].at >= p.sustain as real;
    assert !h[a].Sampled?;
    assert a < i;
    assert h[a].at <= h[i].at && h[b - 1].at <= h[b].at;
  }

  lemma {:induction false} SpanOfSpaced(times: seq<real>, gap: real)
    requires times != [] && forall i :: 0 < i < |times| ==> times[i] - times[i - 1] >= gap
    ensures (|times| - 1) as real * gap <= times[|times| - 1] - times[0]
  {
    var n := |times| - 1;
    if n > 0 {
      SpanOfSpaced(times[..n], gap);
      assert n as real == (n - 1) as real + 1.0;
    }
  }

  /** `n` actions never fit in a window shorter than `n - 1` spacings. */
  lemma ActionsInWindow(p: Policy, h: seq<Event>, picks: seq<nat>)
    requires Disciplined(p, h) && picks != []
    requires forall i :: 0 <= i < |picks| ==> picks[i] < |h| && h[picks[i]].Acted?
    requires forall i, j :: 0 <= i < j < |picks| ==> picks[i] < picks[j]
    ensures (|picks| - 1) as real * Spacing(p) <= h[picks[|picks| - 1]].at - h[picks[0]].at
  {
    var times := PickedTimes(p, h, picks);
    SpanOfSpaced(times, Spacing(p));
  }

  lemma PickedTimes(p: Policy, h: seq<Event>, picks: seq<nat>) returns (times: seq<real>)
    requires Disciplined(p, h)
    requires forall i :: 0 <= i < |picks| ==> picks[i] < |h| && h[picks[i]].Acted?
    requires forall i, j :: 0 <= i < j < |picks| ==> picks[i] < picks[j]
    ensures |times| == |picks| && forall i :: 0 <= i < |picks| ==> times[i] == h[picks[i]].at
    ensures forall i :: 0 < i < |times| ==> times[i] - times[i - 1] >= Spacing(p)
  {
    times := seq(|picks|, i requires 0 <= i < |picks| => h[picks[i]].at);
    forall i | 0 < i < |times| ensures times[i] - times[i - 1] >= Spacing(p) {
      ActionsAreSpaced(p, h, picks[i - 1], picks[i]);
    }
  }
}
