/** Reactive keyboard lighting: cached deadlines and frames against the ideal picture of the press history. */
module Reactive {
  import opened Options

  const UNSENT: nat := 0xFFFF_FFFF

  /** Swap the red and blue bytes of a 24-bit color; the top byte is dropped. */
  function SwapRedBlue(c: bv32): bv32 {
    ((c & 255) << 16) | (c & 65280) | ((c >> 16) & 255)
  }

  /** A parsed color never equals the marker for "nothing sent", and parsing twice restores 24-bit colors. */
  lemma ParsedColorsAreReal(c: bv32)
    ensures SwapRedBlue(c) < 0x100_0000 && SwapRedBlue(c) != 0xFFFF_FFFF
    ensures SwapRedBlue(SwapRedBlue(c)) == c & 0xFF_FFFF
  {
  }

  /** The three bytes of a color: blue comes first, then green, then red, and nothing above. */
  lemma SwappedBytes(c: bv32)
    ensures SwapRedBlue(c) >> 16 == c & 0xFF
    ensures (SwapRedBlue(c) >> 8) & 0xFF == (c >> 8) & 0xFF
    ensures SwapRedBlue(c) & 0xFF == (c >> 16) & 0xFF
  {
  }

  predicate Matches(led: string, key: string) {
    led == "Key: " + key || (key == "\\" && (led == "Key: \\ (ANSI)" || led == "Key: #"))
  }

  /** A key lights the LED that is named after it; the backslash key also the two other names of that LED. */
  lemma MatchesMeaning(led: string, key: string)
    ensures Matches("Key: " + key, key) && Matches("Key: \\ (ANSI)", "\\") && Matches("Key: #", "\\")
    ensures Matches(led, key) && led != "Key: " + key ==> key == "\\" && led in {"Key: \\ (ANSI)", "Key: #"}
  {
  }

  /** Settings of one run: how long a key stays lit, in milliseconds, and the two colors. */
  datatype Settings = Settings(duration: int, blue: nat, white: nat)

  predicate ValidSettings(s: Settings) { s.blue < 0x100_0000 && s.white < 0x100_0000 }

  function Color(s: Settings, deadline: real, now: real): nat { if deadline > now then s.white else s.blue }

  // ------------------------------------------------------------ ideal picture

  datatype Press = Press(key: string, at: real)

  /** Some matching press happened less than `duration` ago. */
  ghost predicate Lit(s: Settings, led: string, presses: seq<Press>, now: real) {
    exists j :: 0 <= j < |presses| && Matches(led, presses[j].key) && presses[j].at + s.duration as real > now
  }

  ghost function IdealFrame(s: Settings, leds: seq<string>, presses: seq<Press>, now: real): seq<nat> {
    seq(|leds|, i requires 0 <= i < |leds| => if Lit(s, leds[i], presses, now) then s.white else s.blue)
  }

  /** The stored deadline belongs to the latest matching press; 0 when there was none. */
  ghost predicate DeadlineOf(s: Settings, led: string, presses: seq<Press>, deadline: real) {
    || (deadline == 0.0 && forall j :: 0 <= j < |presses| ==> !Matches(led, presses[j].key))
    || exists j :: 0 <= j < |presses| && Matches(led, presses[j].key) && deadline == presses[j].at + s.duration as real
        && forall k :: 0 <= k < |presses| && Matches(led, presses[k].key) ==> presses[k].at <= presses[j].at
  }

  ghost predicate Past(presses: seq<Press>, now: real) {
    0.0 <= now && forall j :: 0 <= j < |presses| ==> presses[j].at <= now
  }

  /** One cached number per LED is enough to know whether it is lit. */
  lemma DeadlineDecides(s: Settings, led: string, presses: seq<Press>, deadline: real, now: real)
    requires DeadlineOf(s, led, presses, deadline) && Past(presses, now)
    ensures deadline > now <==> Lit(s, led, presses, now)
  {
  }

  lemma DeadlineAfterPress(s: Settings, led: string, presses: seq<Press>, deadline: real, p: Press)
    requires DeadlineOf(s, led, presses, deadline) && Past(presses, p.at)
    ensures DeadlineOf(s, led, presses + [p], if Matches(led, p.key) then p.at + s.duration as real else deadline)
  {
    var longer := presses + [p];
    if Matches(led, p.key) {
      assert longer[|presses|] == p;
    } else if deadline == 0.0 && forall j :: 0 <= j < |presses| ==> !Matches(led, presses[j].key) {
    } else {
      var j :| 0 <= j < |presses| && Matches(led, presses[j].key) && deadline == presses[j].at + s.duration as real
        && forall k :: 0 <= k < |presses| && Matches(led, presses[k].key) ==> presses[k].at <= presses[j].at;
      assert longer[j] == presses[j];
    }
  }

  // ------------------------------------------------------------------ server

  /** What a tick asks of the lighting server: a connection, a list of controllers, whether nothing has changed, to show a frame. */
  datatype Question = Open | ListAgain | Unchanged | Frame

  datatype Answer = Answer(question: Question, ok: bool)

  class Server {
    ghost var asked: seq<Answer>

    constructor ()
      ensures asked == []
    {
      asked := [];
    }

    method Ask(q: Question) returns (ok: bool)
      modifies this
      ensures asked == old(asked) + [Answer(q, ok)]
    {
      ok := *;
      asked := asked + [Answer(q, ok)];
    }
  }

  ghost predicate AllOk(t: seq<Answer>) { forall k :: 0 <= k < |t| ==> t[k].ok }

  lemma AllOkBoth(a: seq<Answer>, b: seq<Answer>)
    ensures AllOk(a + b) <==> AllOk(a) && AllOk(b)
  {
    var t := a + b;
    if AllOk(t) {
      forall k | 0 <= k < |a| ensures a[k].ok { assert t[k].ok; }
      forall k | 0 <= k < |b| ensures b[k].ok { assert t[|a| + k].ok; }
    }
  }

  lemma AllOkOne(a: Answer)
    ensures AllOk([a]) <==> a.ok
  {
    assert [a][0] == a;
  }

  /** The questions that precede the frames of a tick. */
  ghost function Preliminaries(connected: bool, due: bool): seq<Question> {
    if !connected then [Open, Unchanged] else if due then [ListAgain, Unchanged] else [Unchanged]
  }

  /** The preliminaries in order, then frames, up to the first refusal. */
  ghost predicate AsksInOrder(t: seq<Answer>, first: seq<Question>) {
    && t != [] && (forall k :: 0 <= k < |t| - 1 ==> t[k].ok)
    && (forall k :: 0 <= k < |t| ==> t[k].question == if k < |first| then first[k] else Frame)
    && (AllOk(t) ==> |t| >= |first|)
  }

  // ------------------------------------------------------------------ device

  /** The only supported device. */
  const KEYBOARD: string := "Razer Huntsman Mini"

  /** A controller as the server describes it. */
  datatype Controller = Controller(name: string, direct: bool, leds: seq<string>)

  class Device {
    const settings: Settings
    const name: string
    const leds: seq<string>
    const deadlines: array<real>
    var last: seq<nat>
    ghost var presses: seq<Press>
    ghost var frames: seq<seq<nat>>   // frames sent since the connection was made

    ghost predicate Valid()
      reads this, deadlines
    {
      && ValidSettings(settings) && leds != []
      && deadlines.Length == |leds| == |last|
      && (forall i :: 0 <= i < |leds| ==> DeadlineOf(settings, leds[i], presses, deadlines[i]))
      && (frames == [] ==> forall i :: 0 <= i < |last| ==> last[i] == UNSENT)
      && (frames != [] ==> last == frames[|frames| - 1])
      && (forall i :: 0 < i < |frames| ==> frames[i] != frames[i - 1])
    }

    constructor (s: Settings, title: string, names: seq<string>)
      requires ValidSettings(s) && names != []
      ensures Valid() && settings == s && name == title && leds == names && presses == [] && frames == []
      ensures fresh(deadlines)
    {
      settings, name, leds := s, title, names;
      deadlines := new real[|names|](_ => 0.0);
      last := seq(|names|, _ => UNSENT);
      presses, frames := [], [];
    }

    /** A key press: restart the deadline of every matching LED. */
    method KeyPressed(key: string, at: real)
      requires Valid() && Past(presses, at)
      modifies this`presses, deadlines
      ensures Valid() && presses == old(presses) + [Press(key, at)]
    {
      ghost var before := presses;
      presses := presses + [Press(key, at)];
      for i := 0 to |leds|
        invariant presses == before + [Press(key, at)] && deadlines.Length == |leds|
        invariant forall k :: 0 <= k < i ==> DeadlineOf(settings, leds[k], presses, deadlines[k])
        invariant forall k :: i <= k < |leds| ==> DeadlineOf(settings, leds[k], before, deadlines[k])
      {
        DeadlineAfterPress(settings, leds[i], before, deadlines[i], Press(key, at));
        if Matches(leds[i], key) { deadlines[i] := at + settings.duration as real; }
      }
    }

    /** Compute the frame for now and send it if it differs from the last one; `false` is a failed send. */
    method Render(now: real, server: Server) returns (ok: bool)
      requires Valid() && Past(presses, now)
      modifies this`last, this`frames, server
      ensures Valid()
      ensures server.asked == old(server.asked) +
        if old(frames) != [] && old(frames)[|old(frames)| - 1] == IdealFrame(settings, leds, presses, now) then [] else [Answer(Frame, ok)]
      ensures old(frames) != [] && old(frames)[|old(frames)| - 1] == IdealFrame(settings, leds, presses, now) ==> ok
      ensures ok ==> frames != [] && frames[|frames| - 1] == IdealFrame(settings, leds, presses, now)
      ensures ok ==> frames == old(frames) || frames == old(frames) + [last]
      ensures ok && old(frames) == [] ==> |frames| == 1
      ensures !ok ==> frames == old(frames) && last == old(last)
    {
      var changed := false;
      var colors: seq<nat> := [];
      for i := 0 to |leds|
        invariant |colors| == i && forall k :: 0 <= k < i ==> colors[k] == Color(settings, deadlines[k], now)
        invariant changed <==> exists k :: 0 <= k < i && colors[k] != last[k]
      {
        colors := colors + [Color(settings, deadlines[i], now)];
        if colors[i] != last[i] { changed := true; }
      }
      forall i | 0 <= i < |leds| ensures colors[i] == IdealFrame(settings, leds, presses, now)[i] {
        DeadlineDecides(settings, leds[i], presses, deadlines[i], now);
      }
      assert colors == IdealFrame(settings, leds, presses, now);
      assert frames == [] ==> colors[0] != last[0];
      if changed {
        ok := server.Ask(Frame);
        if !ok { return; }
        last := colors;
        frames := frames + [colors];
      } else {
        assert last == colors;
        ok := true;
      }
    }
  }

  // ------------------------------------------------------------------ window

  ghost function Buffers(devices: seq<Device>): set<object> { set d | d in devices :: d.deadlines }

  class ReactiveWindow {
    const settings: Settings
    const server: Server
    var connected: bool
    var devices: seq<Device>
    var retryAt: real
    var nextCheck: real
    ghost var presses: seq<Press>   // presses since the connection was made

    ghost predicate Valid()
      reads this, devices, Buffers(devices)
    {
      && ValidSettings(settings)
      && (!connected ==> devices == [])
      && Separate()
      && (forall i :: 0 <= i < |devices| ==> Tracks(devices[i], presses))
    }

    /** A supported device in a consistent state, for this history of presses. */
    ghost predicate Tracks(d: Device, history: seq<Press>)
      reads d, d.deadlines
    {
      d.Valid() && d.settings == settings && d.name == KEYBOARD && d.presses == history
    }

    constructor (s: Settings, sdk: Server)
      requires ValidSettings(s)
      ensures Valid() && !connected && settings == s && server == sdk
    {
      server := sdk;
      settings, connected, devices, retryAt, nextCheck, presses := s, false, [], 0.0, 0.0, [];
    }

    /** A recognised key went down; presses without a connection are ignored. */
    method KeyDown(key: string, at: real)
      requires Valid() && Past(presses, at)
      modifies this`presses, devices, Buffers(devices)
      ensures Valid() && devices == old(devices)
      ensures presses == if connected then old(presses) + [Press(key, at)] else old(presses)
    {
      if !connected { return; }
      ghost var before := presses;
      presses := presses + [Press(key, at)];
      for i := 0 to |devices|
        invariant presses == before + [Press(key, at)]
        invariant Pressed(i, before, Press(key, at))
      {
        PressOne(i, before, Press(key, at));
      }
    }

    ghost predicate Separate()
      reads this
    {
      forall i, j :: 0 <= i < j < |devices| ==> devices[i] != devices[j] && devices[i].deadlines != devices[j].deadlines
    }

    /** The first `i` devices know of the press, the others not yet. */
    ghost predicate Pressed(i: nat, before: seq<Press>, p: Press)
      reads this, devices, Buffers(devices)
    {
      forall k :: 0 <= k < |devices| ==> Tracks(devices[k], if k < i then before + [p] else before)
    }

    method PressOne(i: nat, ghost before: seq<Press>, p: Press)
      requires i < |devices| && Separate() && Pressed(i, before, p) && Past(before, p.at)
      modifies devices[i], devices[i].deadlines
      ensures Pressed(i + 1, before, p)
    {
      var d := devices[i];
      assert Tracks(d, before);
      assert forall k :: 0 <= k < |devices| && k != i ==> devices[k] != d && devices[k].deadlines != d.deadlines;
      if d.name == KEYBOARD { d.KeyPressed(p.key, p.at); }
    }

    /** A fresh connection: the supported devices it reports, all dark; `false` if it fails. */
    method Connect() returns (ok: bool)
      requires Valid() && !connected
      modifies this`connected, this`devices, this`presses, server
      ensures Valid() && ok == connected && fresh(devices) && fresh(Buffers(devices))
      ensures server.asked == old(server.asked) + [Answer(Open, ok)]
      ensures ok ==> presses == []
      ensures forall i :: 0 <= i < |devices| ==> devices[i].frames == []
    {
      ok := server.Ask(Open);
      if !ok { return; }
      var reported: seq<Controller> := *;
      var found: seq<Device> := [];
      for i := 0 to |reported|
        invariant fresh(found) && forall k :: 0 <= k < |found| ==> fresh(found[k].deadlines)
        invariant forall k :: 0 <= k < |found| ==> found[k].Valid() && found[k].settings == settings
        invariant forall k :: 0 <= k < |found| ==> found[k].presses == [] && found[k].frames == [] && found[k].name == KEYBOARD
        invariant forall k, l :: 0 <= k < l < |found| ==> found[k] != found[l] && found[k].deadlines != found[l].deadlines
        invariant server.asked == old(server.asked) + [Answer(Open, true)]
      {
        if reported[i].name == KEYBOARD && reported[i].direct && reported[i].leds != [] {
          var d := new Device(settings, reported[i].name, reported[i].leds);
          found := found + [d];
        }
      }
      connected, devices, presses := true, found, [];
    }

    /** After a completed tick every device shows the ideal frame for that moment. */
    ghost predicate Shows(now: real)
      reads this, devices
    {
      forall i :: 0 <= i < |devices| ==> ShowsOn(devices[i], now)
    }

    /** The last frame sent to the device is the ideal one. */
    ghost predicate ShowsOn(d: Device, now: real)
      reads this, d
    {
      d.frames != [] && d.frames[|d.frames| - 1] == IdealFrame(settings, d.leds, presses, now)
    }

    /** One timer tick; any failure drops the connection and waits five seconds. `t` are the questions asked with their answers. */
    method Tick(now: real) returns (ghost t: seq<Answer>)
      requires Valid() && Past(presses, now)
      modifies this, devices, server
      ensures Valid() && server.asked == old(server.asked) + t
      ensures connected ==> Shows(now)
      ensures old(connected) && connected ==> devices == old(devices) && presses == old(presses)
      ensures !old(connected) && now < old(retryAt) ==> t == [] && !connected && retryAt == old(retryAt)
      ensures old(connected) || now >= old(retryAt) ==>
        && AsksInOrder(t, Preliminaries(old(connected), now >= old(nextCheck)))
        && (connected <==> AllOk(t))
      ensures !connected && (old(connected) || now >= old(retryAt)) ==> retryAt == now + 5000.0
      ensures connected && (!old(connected) || now >= old(nextCheck)) ==> nextCheck == now + 5000.0
    {
      t := [];
      if !connected && now < retryAt { return; }
      var ready;
      ghost var first, rest: seq<Answer>;
      ready, first := Prepare(now);
      rest := [];
      if ready {
        var sent;
        sent, rest := RenderAll(now);
        ready := sent;
      }
      t := first + rest;
      AllOkBoth(first, rest);
      if !ready { Disconnect(now); }
    }

    /** Connect if there is no connection, check it when that is due, and see that nothing has changed. */
    method Prepare(now: real) returns (ready: bool, ghost t: seq<Answer>)
      requires Valid()
      modifies this`connected, this`devices, this`presses, this`nextCheck, server
      ensures Valid() && server.asked == old(server.asked) + t
      ensures ready ==> connected && (Past(old(presses), now) && now >= 0.0 ==> Past(presses, now))
      ensures old(connected) ==> devices == old(devices) && presses == old(presses) && connected
      ensures !old(connected) ==> fresh(devices) && fresh(Buffers(devices))
      ensures AsksInOrder(t, Preliminaries(old(connected), now >= old(nextCheck)))
      ensures |t| <= |Preliminaries(old(connected), now >= old(nextCheck))| && (ready <==> AllOk(t))
      ensures ready && (!old(connected) || now >= old(nextCheck)) ==> nextCheck == now + 5000.0
    {
      t := [];
      if !connected {
        var ok := Connect();
        t := [Answer(Open, ok)];
        AllOkOne(t[0]);
        if !ok { return false, t; }
        nextCheck := now + 5000.0;
      } else if now >= nextCheck {
        var alive := server.Ask(ListAgain);
        t := [Answer(ListAgain, alive)];
        AllOkOne(t[0]);
        nextCheck := now + 5000.0;
        if !alive { return false, t; }
      }
      var quiet := server.Ask(Unchanged);
      AllOkBoth(t, [Answer(Unchanged, quiet)]);
      AllOkOne(Answer(Unchanged, quiet));
      t := t + [Answer(Unchanged, quiet)];
      return quiet, t;
    }

    /** Render every device in turn; `false` is a failed send. */
    method RenderAll(now: real) returns (ok: bool, ghost t: seq<Answer>)
      requires Valid() && Past(presses, now)
      modifies devices, server
      ensures Valid() && (ok ==> Shows(now)) && server.asked == old(server.asked) + t
      ensures (ok <==> AllOk(t)) && (forall k :: 0 <= k < |t| ==> t[k].question == Frame) && (forall k :: 0 <= k < |t| - 1 ==> t[k].ok)
    {
      t := [];
      for i := 0 to |devices|
        invariant Valid() && server.asked == old(server.asked) + t
        invariant AllOk(t) && forall k :: 0 <= k < |t| ==> t[k].question == Frame
        invariant forall k :: 0 <= k < i ==> ShowsOn(devices[k], now)
      {
        ghost var before := server.asked;
        ok := devices[i].Render(now, server);
        ghost var asked := server.asked[|before|..];
        assert asked == [] || asked == [Answer(Frame, ok)];
        AllOkBoth(t, asked);
        AllOkOne(Answer(Frame, ok));
        t := t + asked;
        if !ok { return; }
      }
      return true, t;
    }

    method Disconnect(now: real)
      requires ValidSettings(settings)
      modifies this`connected, this`devices, this`retryAt
      ensures Valid() && !connected && retryAt == now + 5000.0
    {
      connected, devices, retryAt := false, [], now + 5000.0;
    }
  }
}
