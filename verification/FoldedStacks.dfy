/** Aggregating CPU samples into folded stacks, and the sorted file they are written to. */
module FoldedStacks {
  import opened Options
  import opened Text
  import Ordering

  datatype Process = Process(image: Option<string>, id: int)

  /** Frames are innermost first; a frame may have no image. */
  datatype Sample = Sample(seconds: real, process: Option<Process>, threadProcess: Option<int>,
                           frames: Option<seq<Option<string>>>)

  /** The command line: a time window, process ids, and the name patterns as one predicate. */
  datatype Filter = Filter(window: Option<(real, real)>, ids: set<int>, hasPatterns: bool, nameMatches: string -> bool)

  // ---------------------------------------------------------------- segments

  function ReplaceChar(c: char): char {
    if c == ';' then ':' else if c == '\r' || c == '\n' then ' ' else c
  }

  function Replaced(s: string): string { seq(|s|, i requires 0 <= i < |s| => ReplaceChar(s[i])) }

  function TrimStart(s: string): string { if s != "" && White(s[0]) then TrimStart(s[1..]) else s }

  function TrimEnd(s: string): string { if s != "" && White(s[|s| - 1]) then TrimEnd(s[..|s| - 1]) else s }

  function CleanSegment(value: Option<string>): string {
    if value.None? || AllWhite(value.value) then "[unknown]" else TrimEnd(TrimStart(Replaced(value.value)))
  }

  /** Free of the characters that separate segments and lines. */
  predicate Plain(s: string) { ';' !in s && '\r' !in s && '\n' !in s }

  lemma {:induction false} TrimmedPart(s: string)
    ensures forall c :: c in TrimStart(s) ==> c in s
    ensures forall c :: c in TrimEnd(s) ==> c in s
    ensures !AllWhite(s) ==> !AllWhite(TrimStart(s)) && !AllWhite(TrimEnd(s))
    decreases |s|
  {
    if s != "" {
      TrimmedPart(s[1..]);
      TrimmedPart(s[..|s| - 1]);
      if White(s[0]) && !AllWhite(s) {
        var i :| 0 <= i < |s| && !White(s[i]);
        assert !White(s[1..][i - 1]);
      }
      if White(s[|s| - 1]) && !AllWhite(s) {
        var i :| 0 <= i < |s| && !White(s[i]);
        assert !White(s[..|s| - 1][i]);
      }
    }
  }

  /** A cleaned segment is never empty and never holds a separator. */
  lemma CleanSegmentIsPlain(value: Option<string>)
    ensures CleanSegment(value) != "" && Plain(CleanSegment(value))
  {
    if value.Some? && !AllWhite(value.value) {
      var s := Replaced(value.value);
      var i :| 0 <= i < |value.value| && !White(value.value[i]);
      assert !White(s[i]);
      TrimmedPart(s);
      TrimmedPart(TrimStart(s));
      assert Plain(s);
      assert !AllWhite(TrimEnd(TrimStart(s)));
    }
  }

  lemma {:induction false} TrimStartCuts(s: string) returns (n: nat)
    ensures n <= |s| && TrimStart(s) == s[n..] && AllWhite(s[..n])
    ensures TrimStart(s) != "" ==> !White(TrimStart(s)[0])
  {
    n := 0;
    if s != "" && White(s[0]) {
      var m := TrimStartCuts(s[1..]);
      n := m + 1;
      assert s[1..][m..] == s[n..];
      forall i | 0 <= i < n ensures White(s[..n][i]) {
        if i > 0 { assert s[1..][..m][i - 1] == s[i]; }
      }
    }
  }

  lemma {:induction false} TrimEndCuts(s: string) returns (n: nat)
    ensures n <= |s| && TrimEnd(s) == s[..n] && AllWhite(s[n..])
    ensures TrimEnd(s) != "" ==> !White(TrimEnd(s)[|TrimEnd(s)| - 1])
  {
    n := |s|;
    if s != "" && White(s[|s| - 1]) {
      var shorter := s[..|s| - 1];
      n := TrimEndCuts(shorter);
      assert shorter[..n] == s[..n];
      forall i | 0 <= i < |s[n..]| ensures White(s[n..][i]) {
        if i + n < |s| - 1 { assert shorter[n..][i] == s[n..][i]; }
      }
    }
  }

  /** A separator becomes a colon, a line break a space, and anything else stays. */
  ghost predicate Replaces(c: char, d: char) {
    (c == ';' ==> d == ':') && (c in {'\r', '\n'} ==> d == ' ') && (c !in {';', '\r', '\n'} ==> d == c)
  }

  lemma TrimmedWindow(s: string) returns (from: nat, to: nat)
    ensures from <= to <= |s| && TrimEnd(TrimStart(s)) == s[from..to]
    ensures forall i :: 0 <= i < from || to <= i < |s| ==> White(s[i])
  {
    from := TrimStartCuts(s);
    var rest := s[from..];
    var n := TrimEndCuts(rest);
    to := from + n;
    assert rest[..n] == s[from..to] && rest[n..] == s[to..];
    forall i | 0 <= i < from ensures White(s[i]) { assert s[..from][i] == s[i]; }
    forall i | to <= i < |s| ensures White(s[i]) { assert s[to..][i - to] == s[i]; }
  }

  lemma ReplacedAt(value: string, i: nat)
    requires i < |value|
    ensures Replaces(value[i], Replaced(value)[i]) && (White(Replaced(value)[i]) ==> White(value[i]))
  {
  }

  /** Cleaning a name only trims white space at both ends and replaces the separator and line breaks; no name is "[unknown]". */
  lemma CleanSegmentMeaning(value: Option<string>) returns (from: nat, to: nat)
    ensures value.None? || AllWhite(value.value) ==> CleanSegment(value) == "[unknown]"
    ensures value.Some? && !AllWhite(value.value) ==>
      && from <= to <= |value.value| && |CleanSegment(value)| == to - from
      && (forall i :: from <= i < to ==> Replaces(value.value[i], CleanSegment(value)[i - from]))
      && (forall i :: 0 <= i < from || to <= i < |value.value| ==> White(value.value[i]))
  {
    from, to := 0, 0;
    if value.Some? && !AllWhite(value.value) {
      from, to := TrimmedWindow(Replaced(value.value));
      forall i | 0 <= i < |value.value|
        ensures Replaces(value.value[i], Replaced(value.value)[i]) && (White(Replaced(value.value)[i]) ==> White(value.value[i]))
      {
        ReplacedAt(value.value, i);
      }
    }
  }

  function IntText(n: int): string { if n < 0 then "-" + Decimal(-n) else Decimal(n) }

  /** The number that a text of digits, with a minus sign or not, stands for. */
  function ParseInt(text: string): int
    requires forall c :: c in text && c != '-' ==> IsDigit(c)
    requires forall i :: 0 < i < |text| ==> IsDigit(text[i])
  {
    if text != "" && text[0] == '-' then 0 - ParseDecimal(text[1..]) else ParseDecimal(text)
  }

  lemma IntTextMeaning(n: int)
    ensures (forall c :: c in IntText(n) && c != '-' ==> IsDigit(c)) && (forall i :: 0 < i < |IntText(n)| ==> IsDigit(IntText(n)[i]))
    ensures ParseInt(IntText(n)) == n
  {
    var m := if n < 0 then -n else n;
    ParseDecimalOf(m);
    forall i | 0 <= i < |Decimal(m)| ensures IsDigit(Decimal(m)[i]) { assert Decimal(m)[i] in Decimal(m); }
    if n < 0 { assert IntText(n)[1..] == Decimal(m); }
  }

  function ProcessName(s: Sample): string {
    if s.process.Some? && s.process.value.image.Some? then s.process.value.image.value else "[unknown]"
  }

  function ProcessId(s: Sample): int {
    if s.process.Some? then s.process.value.id else if s.threadProcess.Some? then s.threadProcess.value else -1
  }

  predicate InWindow(f: Filter, s: Sample) {
    f.window.Some? ==> f.window.value.0 <= s.seconds <= f.window.value.1
  }

  predicate IsSelected(f: Filter, id: int, name: string) {
    (f.ids == {} && !f.hasPatterns) || id in f.ids || (f.hasPatterns && f.nameMatches(name))
  }

  predicate Selected(f: Filter, s: Sample) { InWindow(f, s) && IsSelected(f, ProcessId(s), ProcessName(s)) }

  /** Without a filter every sample is selected; a window admits the samples inside it, and a sample passes the process
      filter by its id or by its name. */
  lemma SelectionMeaning(f: Filter, s: Sample)
    ensures f.window == None && f.ids == {} && !f.hasPatterns ==> Selected(f, s)
    ensures Selected(f, s) <==>
      && (forall w :: f.window == Some(w) ==> w.0 <= s.seconds && s.seconds <= w.1)
      && ((f.ids != {} || f.hasPatterns) ==> ProcessId(s) in f.ids || (f.hasPatterns && f.nameMatches(ProcessName(s))))
  {
  }

  /** The process of a sample, else the process of its thread, else -1; and the image of the process if it has one. */
  lemma ProcessMeaning(s: Sample, image: string, id: int)
    ensures s.process == Some(Process(Some(image), id)) ==> ProcessId(s) == id && ProcessName(s) == image
    ensures s.process == Some(Process(None, id)) ==> ProcessId(s) == id && ProcessName(s) == "[unknown]"
    ensures s.process == None && s.threadProcess == Some(id) ==> ProcessId(s) == id && ProcessName(s) == "[unknown]"
    ensures s.process == None && s.threadProcess == None ==> ProcessId(s) == -1 && ProcessName(s) == "[unknown]"
  {
  }

  predicate HasStack(s: Sample) { s.frames.Some? && s.frames.value != [] }

  /** Module names from the outermost frame inwards, runs of the same name (ignoring case) merged. */
  function Modules(fold: string -> string, frames: seq<Option<string>>, previous: Option<string>): seq<string> {
    if frames == [] then []
    else
      var name := CleanSegment(frames[|frames| - 1]);
      var rest := frames[..|frames| - 1];
      if previous.Some? && fold(name) == fold(previous.value) then Modules(fold, rest, previous)
      else [name] + Modules(fold, rest, Some(name))
  }

  function Segments(fold: string -> string, s: Sample): seq<string>
    requires HasStack(s)
  {
    [CleanSegment(Some(ProcessName(s))) + " (" + IntText(ProcessId(s)) + ")"] + Modules(fold, s.frames.value, None)
  }

  function Key(fold: string -> string, s: Sample): string
    requires HasStack(s)
  {
    Join(Segments(fold, s), ';')
  }

  /** Merging leaves no two neighbours with the same folded name, and loses no name altogether. */
  lemma {:induction false} ModulesMergeRuns(fold: string -> string, frames: seq<Option<string>>, previous: Option<string>)
    ensures var names := Modules(fold, frames, previous);
      && (forall i :: 0 < i < |names| ==> fold(names[i]) != fold(names[i - 1]))
      && (names != [] && previous.Some? ==> fold(names[0]) != fold(previous.value))
      && (forall frame :: frame in frames ==>
            (previous.Some? && fold(CleanSegment(frame)) == fold(previous.value)) || Names(fold, names, CleanSegment(frame)))
      && (forall name :: name in names ==> exists frame :: frame in frames && CleanSegment(frame) == name)
  {
    if frames != [] {
      var last, rest := frames[|frames| - 1], frames[..|frames| - 1];
      assert frames == rest + [last];
      var name := CleanSegment(last);
      if previous.Some? && fold(name) == fold(previous.value) {
        ModulesMergeRuns(fold, rest, previous);
      } else {
        ModulesMergeRuns(fold, rest, Some(name));
        var below := Modules(fold, rest, Some(name));
        assert ([name] + below)[0] == name;
        forall frame | frame in frames ensures Names(fold, [name] + below, CleanSegment(frame)) {
          if frame in rest && Names(fold, below, CleanSegment(frame)) {
            var i :| 0 <= i < |below| && fold(below[i]) == fold(CleanSegment(frame));
            assert ([name] + below)[i + 1] == below[i];
          }
        }
      }
    }
  }

  /** The name is listed, up to case. */
  ghost predicate Names(fold: string -> string, names: seq<string>, name: string) {
    exists i :: 0 <= i < |names| && fold(names[i]) == fold(name)
  }

  lemma {:induction false} ModulesArePlain(fold: string -> string, frames: seq<Option<string>>, previous: Option<string>)
    ensures forall m :: m in Modules(fold, frames, previous) ==> Plain(m)
  {
    if frames != [] {
      var name := CleanSegment(frames[|frames| - 1]);
      CleanSegmentIsPlain(frames[|frames| - 1]);
      ModulesArePlain(fold, frames[..|frames| - 1], previous);
      ModulesArePlain(fold, frames[..|frames| - 1], Some(name));
    }
  }

  lemma DigitsArePlain(n: nat)
    ensures Plain(Decimal(n)) && ' ' !in Decimal(n)
  {
    assert forall c :: c in Decimal(n) ==> IsDigit(c);
  }

  lemma SegmentsArePlain(fold: string -> string, s: Sample)
    requires HasStack(s)
    ensures forall m :: m in Segments(fold, s) ==> Plain(m)
  {
    CleanSegmentIsPlain(Some(ProcessName(s)));
    ModulesArePlain(fold, s.frames.value, None);
    var id := ProcessId(s);
    DigitsArePlain(if id < 0 then -id else id);
  }

  lemma ModulesNext(fold: string -> string, frames: seq<Option<string>>, index: nat, previous: Option<string>)
    requires index < |frames|
    ensures var name := CleanSegment(frames[index]);
      Modules(fold, frames[..index + 1], previous) ==
        if previous.Some? && fold(name) == fold(previous.value) then Modules(fold, frames[..index], previous)
        else [name] + Modules(fold, frames[..index], Some(name))
  {
    assert frames[..index + 1][..index] == frames[..index];
  }

  /** The loop that builds the segments of one sample. */
  method BuildSegments(fold: string -> string, s: Sample) returns (segments: seq<string>)
    requires HasStack(s)
    ensures segments == Segments(fold, s)
  {
    segments := [CleanSegment(Some(ProcessName(s))) + " (" + IntText(ProcessId(s)) + ")"];
    var previous: Option<string> := None;
    var frames := s.frames.value;
    var index := |frames|;
    assert frames[..|frames|] == frames;
    while index > 0
      invariant 0 <= index <= |frames|
      invariant segments + Modules(fold, frames[..index], previous) == Segments(fold, s)
    {
      index := index - 1;
      ModulesNext(fold, frames, index, previous);
      var name := CleanSegment(frames[index]);
      if previous.None? || fold(name) != fold(previous.value) {
        segments := segments + [name];
        previous := Some(name);
      }
    }
  }

  // ------------------------------------------------------------- aggregation

  /** The keys of the selected samples that have a stack. */
  function Keys(fold: string -> string, f: Filter, samples: seq<Sample>): seq<string> {
    if samples == [] then []
    else
      var last := samples[|samples| - 1];
      Keys(fold, f, samples[..|samples| - 1]) + if KeyOf(fold, f, last).Some? then [KeyOf(fold, f, last).value] else []
  }

  function CountSelected(f: Filter, samples: seq<Sample>): nat {
    if samples == [] then 0
    else CountSelected(f, samples[..|samples| - 1]) + if Selected(f, samples[|samples| - 1]) then 1 else 0
  }

  /** Counting with a dictionary agrees with counting occurrences. */
  ghost predicate Tallies(stacks: map<string, nat>, keys: seq<string>) {
    && (forall k :: k in stacks <==> k in keys)
    && (forall k :: k in stacks ==> stacks[k] == multiset(keys)[k])
  }

  /** The key of a sample that is counted. */
  function KeyOf(fold: string -> string, f: Filter, s: Sample): Option<string> {
    if Selected(f, s) && HasStack(s) then Some(Key(fold, s)) else None
  }

  method CountSample(fold: string -> string, f: Filter, s: Sample, stacks: map<string, nat>)
    returns (stacks': map<string, nat>, selected: nat, withoutStacks: nat)
    ensures KeyOf(fold, f, s).None? ==> stacks' == stacks
    ensures KeyOf(fold, f, s).Some? ==>
      var key := KeyOf(fold, f, s).value; stacks' == stacks[key := (if key in stacks then stacks[key] else 0) + 1]
    ensures selected == if Selected(f, s) then 1 else 0
    ensures selected == (if KeyOf(fold, f, s).Some? then 1 else 0) + withoutStacks
  {
    if !InWindow(f, s) { return stacks, 0, 0; }
    if !IsSelected(f, ProcessId(s), ProcessName(s)) { return stacks, 0, 0; }
    if !HasStack(s) { return stacks, 1, 1; }
    var segments := BuildSegments(fold, s);
    var key := Join(segments, ';');
    return stacks[key := (if key in stacks then stacks[key] else 0) + 1], 1, 0;
  }

  method Aggregate(fold: string -> string, f: Filter, samples: seq<Sample>)
    returns (stacks: map<string, nat>, selected: nat, withoutStacks: nat)
    ensures Tallies(stacks, Keys(fold, f, samples))
    ensures selected == CountSelected(f, samples) && selected == |Keys(fold, f, samples)| + withoutStacks
  {
    stacks, selected, withoutStacks := map[], 0, 0;
    for i := 0 to |samples|
      invariant Tallies(stacks, Keys(fold, f, samples[..i]))
      invariant selected == CountSelected(f, samples[..i]) == |Keys(fold, f, samples[..i])| + withoutStacks
    {
      KeysNext(fold, f, samples, i);
      var counted, more, missing := CountSample(fold, f, samples[i], stacks);
      if KeyOf(fold, f, samples[i]).Some? { TallyNext(stacks, Keys(fold, f, samples[..i]), KeyOf(fold, f, samples[i]).value); }
      stacks, selected, withoutStacks := counted, selected + more, withoutStacks + missing;
    }
    assert samples[..|samples|] == samples;
  }

  lemma KeysNext(fold: string -> string, f: Filter, samples: seq<Sample>, i: nat)
    requires i < |samples|
    ensures Keys(fold, f, samples[..i + 1]) == Keys(fold, f, samples[..i])
      + if KeyOf(fold, f, samples[i]).Some? then [KeyOf(fold, f, samples[i]).value] else []
    ensures CountSelected(f, samples[..i + 1]) == CountSelected(f, samples[..i]) + if Selected(f, samples[i]) then 1 else 0
  {
    assert samples[..i + 1][..i] == samples[..i];
  }

  lemma TallyNext(stacks: map<string, nat>, keys: seq<string>, key: string)
    requires Tallies(stacks, keys)
    ensures Tallies(stacks[key := (if key in stacks then stacks[key] else 0) + 1], keys + [key])
  {
    assert key !in stacks ==> multiset(keys)[key] == 0;
  }

  lemma {:induction false} KeysConcat(fold: string -> string, f: Filter, a: seq<Sample>, b: seq<Sample>)
    ensures Keys(fold, f, a + b) == Keys(fold, f, a) + Keys(fold, f, b)
  {
    if b == [] {
      assert a + b == a;
    } else {
      var n := |b| - 1;
      KeysConcat(fold, f, a, b[..n]);
      assert (a + b)[..|a + b| - 1] == a + b[..n];
    }
  }

  lemma CancelOne(a: multiset<Sample>, b: multiset<Sample>, x: Sample)
    requires a + multiset{x} == b + multiset{x}
    ensures a == b
  {
    forall y ensures a[y] == b[y] {
      assert (a + multiset{x})[y] == (b + multiset{x})[y];
    }
  }

  lemma SplitAround(b: seq<Sample>, x: Sample) returns (front: seq<Sample>, back: seq<Sample>)
    requires x in b
    ensures b == front + [x] + back
    ensures multiset(b) == multiset(front + back) + multiset{x}
  {
    var j :| 0 <= j < |b| && b[j] == x;
    front, back := b[..j], b[j + 1..];
    assert b == front + [x] + back;
  }

  lemma KeysAround(fold: string -> string, f: Filter, front: seq<Sample>, x: Sample, back: seq<Sample>)
    ensures multiset(Keys(fold, f, front + [x] + back)) == multiset(Keys(fold, f, front + back)) + multiset(Keys(fold, f, [x]))
  {
    KeysConcat(fold, f, front + [x], back);
    KeysConcat(fold, f, front, [x]);
    KeysConcat(fold, f, front, back);
  }

  /** The counts do not depend on the order of the samples. */
  lemma {:induction false} KeysOfPermutation(fold: string -> string, f: Filter, a: seq<Sample>, b: seq<Sample>)
    requires multiset(a) == multiset(b)
    ensures multiset(Keys(fold, f, a)) == multiset(Keys(fold, f, b))
  {
    if a == [] {
      assert |multiset(b)| == 0;
    } else {
      var n, x := |a| - 1, a[|a| - 1];
      assert a == a[..n] + [x];
      assert x in multiset(b);
      var front, back := SplitAround(b, x);
      assert multiset(a) == multiset(a[..n]) + multiset{x};
      CancelOne(multiset(a[..n]), multiset(front + back), x);
      KeysOfPermutation(fold, f, a[..n], front + back);
      KeysAround(fold, f, front, x, back);
      KeysConcat(fold, f, a[..n], [x]);
    }
  }

  // ------------------------------------------------------------------ output

  /** Larger counts first, then keys by code point. */
  predicate EntryBefore(a: (string, nat), b: (string, nat)) {
    a.1 > b.1 || (a.1 == b.1 && Ordering.Less(a.0, b.0))
  }

  lemma EntryOrderIsStrictTotal()
    ensures Ordering.StrictTotal(EntryBefore)
  {
    Ordering.LessIsStrictTotal();
  }

  /** Larger counts first, and equal counts in code-point order of the keys. */
  ghost predicate OutputOrder(entries: seq<(string, nat)>) {
    forall i, j :: 0 <= i < j < |entries| ==>
      entries[i].1 > entries[j].1 || (entries[i].1 == entries[j].1 && Ordering.Smaller(entries[i].0, entries[j].0))
  }

  lemma SortedIsOutputOrder(entries: seq<(string, nat)>)
    requires Ordering.Sorted(EntryBefore, entries)
    ensures OutputOrder(entries)
  {
    forall i, j | 0 <= i < j < |entries|
      ensures entries[i].1 > entries[j].1 || (entries[i].1 == entries[j].1 && Ordering.Smaller(entries[i].0, entries[j].0))
    {
      Ordering.LessMeans(entries[i].0, entries[j].0);
    }
  }

  function SumCounts(entries: seq<(string, nat)>): nat {
    if entries == [] then 0 else entries[0].1 + SumCounts(entries[1..])
  }

  lemma {:induction false} InsertAddsCount(e: (string, nat), entries: seq<(string, nat)>)
    requires e !in entries
    ensures SumCounts(Ordering.Insert(EntryBefore, e, entries)) == e.1 + SumCounts(entries)
  {
    if entries != [] && !EntryBefore(e, entries[0]) {
      InsertAddsCount(e, entries[1..]);
      assert Ordering.Insert(EntryBefore, e, entries)[1..] == Ordering.Insert(EntryBefore, e, entries[1..]);
    } else {
      assert ([e] + entries)[1..] == entries;
    }
  }

  /** Exactly one entry for every key, with its number of occurrences. */
  ghost predicate Lists(entries: seq<(string, nat)>, keys: multiset<string>) {
    && Ordering.Sorted(EntryBefore, entries)
    && forall e :: e in entries <==> e.0 in keys && e.1 == keys[e.0]
  }

  /** Writing the dictionary, whatever order it enumerates its entries in. */
  method SortedEntries(stacks: map<string, nat>, ghost keys: seq<string>) returns (entries: seq<(string, nat)>)
    requires Tallies(stacks, keys)
    ensures Lists(entries, multiset(keys)) && SumCounts(entries) == |keys|
  {
    EntryOrderIsStrictTotal();
    entries := [];
    var rest := stacks.Keys;
    ghost var written: multiset<string> := multiset{};
    while rest != {}
      invariant rest <= stacks.Keys && Ordering.Sorted(EntryBefore, entries)
      invariant forall e :: e in entries <==> e.0 in stacks && e.0 !in rest && e.1 == stacks[e.0]
      invariant forall k :: written[k] == if k in stacks && k !in rest then stacks[k] else 0
      invariant SumCounts(entries) == |written|
      decreases rest
    {
      var key :| key in rest;
      InsertAddsCount((key, stacks[key]), entries);
      entries := Ordering.Insert(EntryBefore, (key, stacks[key]), entries);
      written := written[key := stacks[key]];
      rest := rest - {key};
    }
    assert written == multiset(keys);
  }

  /** The output is the same for every order of the samples. */
  lemma OutputOfPermutation(fold: string -> string, f: Filter, a: seq<Sample>, b: seq<Sample>,
                            ea: seq<(string, nat)>, eb: seq<(string, nat)>)
    requires multiset(a) == multiset(b)
    requires Lists(ea, multiset(Keys(fold, f, a))) && Lists(eb, multiset(Keys(fold, f, b)))
    ensures ea == eb
  {
    KeysOfPermutation(fold, f, a, b);
    EntryOrderIsStrictTotal();
    Ordering.SortedUnique(EntryBefore, ea, eb);
  }

  function EntryLine(e: (string, nat)): string { e.0 + " " + Decimal(e.1) }

  /** The text before and after the last space. */
  function CutAtLastSpace(s: string): (string, string)
    requires ' ' in s
  {
    var n := |s| - 1;
    if s[n] == ' ' then (s[..n], "")
    else
      assert s == s[..n] + [s[n]];
      var (front, back) := CutAtLastSpace(s[..n]);
      (front, back + [s[n]])
  }

  lemma {:induction false} LastSpace(front: string, back: string)
    requires ' ' !in back
    ensures CutAtLastSpace(front + " " + back) == (front, back)
  {
    var s := front + " " + back;
    if back == "" {
      assert s[..|s| - 1] == front;
    } else {
      var n := |back| - 1;
      LastSpace(front, back[..n]);
      assert s[..|s| - 1] == front + " " + back[..n];
      assert back == back[..n] + [back[n]];
    }
  }

  /** A printed line yields its segment list and count again. */
  lemma EntryLineParses(segments: seq<string>, count: nat)
    requires segments != [] && forall m :: m in segments ==> Plain(m)
    ensures var line := EntryLine((Join(segments, ';'), count));
      && ' ' in line && '\n' !in line
      && Split(CutAtLastSpace(line).0, ';') == segments
      && (forall c :: c in CutAtLastSpace(line).1 ==> IsDigit(c))
      && ParseDecimal(CutAtLastSpace(line).1) == count
  {
    DigitsArePlain(count);
    LastSpace(Join(segments, ';'), Decimal(count));
    SplitJoin(segments, ';');
    JoinAvoids(segments, ';', '\n');
    ParseDecimalOf(count);
    assert EntryLine((Join(segments, ';'), count))[|Join(segments, ';')|] == ' ';
  }

  /** Every key written is the joined segment list of some selected sample. */
  lemma {:induction false} KeysHaveSegments(fold: string -> string, f: Filter, samples: seq<Sample>, k: string)
    requires k in Keys(fold, f, samples)
    ensures exists s :: s in samples && HasStack(s) && k == Join(Segments(fold, s), ';')
  {
    var n := |samples| - 1;
    var last := samples[n];
    assert samples == samples[..n] + [last];
    if KeyOf(fold, f, last) != Some(k) { KeysHaveSegments(fold, f, samples[..n], k); }
  }

  /** The entry's line reads back to the segments of some sample and to the entry's count. */
  ghost predicate ParsesBack(fold: string -> string, samples: seq<Sample>, e: (string, nat)) {
    var line := EntryLine(e);
    && ' ' in line && '\n' !in line
    && (exists s :: s in samples && HasStack(s) && Split(CutAtLastSpace(line).0, ';') == Segments(fold, s))
    && (forall c :: c in CutAtLastSpace(line).1 ==> IsDigit(c)) && ParseDecimal(CutAtLastSpace(line).1) == e.1
  }

  lemma EntryParsesBack(fold: string -> string, f: Filter, samples: seq<Sample>, e: (string, nat))
    requires e.0 in Keys(fold, f, samples)
    ensures ParsesBack(fold, samples, e)
  {
    KeysHaveSegments(fold, f, samples, e.0);
    var s :| s in samples && HasStack(s) && e.0 == Join(Segments(fold, s), ';');
    SegmentsArePlain(fold, s);
    EntryLineParses(Segments(fold, s), e.1);
  }

  /** The written file: sorted entries, each on its own line; the counts and the skipped samples add up. */
  method WriteFolded(fold: string -> string, f: Filter, samples: seq<Sample>)
    returns (entries: seq<(string, nat)>, text: string, selected: nat, withoutStacks: nat)
    ensures Lists(entries, multiset(Keys(fold, f, samples))) && OutputOrder(entries)
    ensures SumCounts(entries) + withoutStacks == selected == CountSelected(f, samples)
    ensures forall i :: 0 <= i < |entries| ==> ParsesBack(fold, samples, entries[i])
    ensures text == Unlines(seq(|entries|, i requires 0 <= i < |entries| => EntryLine(entries[i])))
    ensures Lines(text) == seq(|entries|, i requires 0 <= i < |entries| => EntryLine(entries[i]))
  {
    var stacks;
    stacks, selected, withoutStacks := Aggregate(fold, f, samples);
    entries := SortedEntries(stacks, Keys(fold, f, samples));
    SortedIsOutputOrder(entries);
    var lines := seq(|entries|, i requires 0 <= i < |entries| => EntryLine(entries[i]));
    text := Unlines(lines);
    forall i | 0 <= i < |entries| ensures '\n' !in lines[i] && ParsesBack(fold, samples, entries[i]) {
      assert entries[i] in entries;
      EntryParsesBack(fold, f, samples, entries[i]);
    }
    LinesUnlines(lines);
  }
}
