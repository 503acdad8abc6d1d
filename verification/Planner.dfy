/** Selecting workstation modules: dependency closure, greedy stage ordering and cycle detection. */
module Planner {
  import opened Catalogs
  import Ordering

  datatype Request = All | Named(name: Name)

  // ---------------------------------------------------------------- closure

  /** What including a module pulls in: its own dependencies and the gates of its stage. */
  function Needs(ix: Index, n: Name): seq<Name>
    requires n in ix.modules
  {
    var d := ix.modules[n];
    d.dependsOn + if d.stage in ix.stages then ix.stages[d.stage].dependsOn else []
  }

  ghost predicate Closed(ix: Index, s: set<Name>) {
    forall n, d :: n in s && n in ix.modules && d in Needs(ix, n) ==> d in s
  }

  ghost predicate LeastClosed(ix: Index, seed: set<Name>, s: set<Name>) {
    && seed <= s && Closed(ix, s)
    && forall t: set<Name> :: seed <= t && Closed(ix, t) ==> s <= t
  }

  /** The least set that contains the seed and everything its members need. */
  ghost function Closure(ix: Index, seed: set<Name>): (s: set<Name>)
    requires ValidIndex(ix) && seed <= ix.modules.Keys
    ensures LeastClosed(ix, seed, s) && s <= ix.modules.Keys
    decreases |ix.modules.Keys - seed|
  {
    if Closed(ix, seed) then seed
    else
      var n, d :| n in seed && d in Needs(ix, n) && d !in seed;
      assert ix.modules.Keys - (seed + {d}) < ix.modules.Keys - seed by {
        assert d in ix.modules.Keys - seed;
      }
      SubsetSize(ix.modules.Keys - (seed + {d}), ix.modules.Keys - seed);
      Closure(ix, seed + {d})
  }

  lemma SubsetSize<T>(a: set<T>, b: set<T>)
    requires a < b
    ensures |a| < |b|
  {
    var x :| x in b && x !in a;
    assert x in b - a;
    assert b == a + (b - a);
  }

  function Elems<T>(xs: seq<T>): set<T> { set x | x in xs }

  ghost predicate Distinct<T(!new)>(xs: seq<T>) {
    forall i, j :: 0 <= i < j < |xs| ==> xs[i] != xs[j]
  }

  lemma {:induction false} DistinctSize<T(!new)>(xs: seq<T>)
    requires Distinct(xs)
    ensures |Elems(xs)| == |xs|
  {
    if xs != [] {
      var shorter := xs[..|xs| - 1];
      DistinctSize(shorter);
      assert xs == shorter + [xs[|xs| - 1]];
      assert Elems(xs) == Elems(shorter) + {xs[|xs| - 1]};
    }
  }

  /** One name of one pass: add its missing dependencies, refusing an excluded one. */
  method AddNeeds(ix: Index, name: Name, excluded: set<Name>, included: seq<Name>) returns (r: Result<seq<Name>>)
    requires name in ix.modules && Distinct(included)
    ensures r.Success? <==> Elems(Needs(ix, name)) !! excluded
    ensures r.Success? ==> included <= r.value && Distinct(r.value)
    ensures r.Success? ==> Elems(r.value) == Elems(included) + Elems(Needs(ix, name))
    ensures r.Failure? ==> r.error.ExcludedDependency? && r.error.name == name
    ensures r.Failure? ==> r.error.dependency in Needs(ix, name) && r.error.dependency in excluded
  {
    var dependencies := Needs(ix, name);
    var grown := included;
    for i := 0 to |dependencies|
      invariant included <= grown && Distinct(grown)
      invariant forall k :: 0 <= k < i ==> dependencies[k] !in excluded
      invariant Elems(grown) == Elems(included) + Elems(dependencies[..i])
    {
      var dependency := dependencies[i];
      if dependency in excluded { return Failure(ExcludedDependency(name, dependency)); }
      if dependency !in grown {
        assert Elems(grown + [dependency]) == Elems(grown) + {dependency};
        grown := grown + [dependency];
      }
      assert dependency in Elems(grown);
      assert dependencies[..i + 1] == dependencies[..i] + [dependency];
      assert Elems(dependencies[..i + 1]) == Elems(dependencies[..i]) + {dependency};
    }
    assert dependencies[..|dependencies|] == dependencies;
    return Success(grown);
  }

  ghost predicate Served(ix: Index, name: Name, included: seq<Name>) {
    name in ix.modules && forall d :: d in Needs(ix, name) ==> d in included
  }

  ghost predicate BadNeed(ix: Index, s: set<Name>, excluded: set<Name>, e: PlanError) {
    && e.ExcludedDependency? && e.name in s && e.name in ix.modules
    && e.dependency in Needs(ix, e.name) && e.dependency in excluded
  }

  /** One pass over a snapshot of the included names. */
  method Pass(ix: Index, excluded: set<Name>, included: seq<Name>, ghost bound: set<Name>) returns (r: Result<seq<Name>>)
    requires Distinct(included) && Elems(included) <= bound <= ix.modules.Keys && Closed(ix, bound)
    requires Elems(included) !! excluded
    ensures r.Success? ==> included <= r.value && Distinct(r.value) && Elems(r.value) <= bound
    ensures r.Success? ==> Elems(r.value) !! excluded
    ensures r.Success? ==> forall n :: n in included ==> Served(ix, n, r.value)
    ensures r.Failure? ==> BadNeed(ix, bound, excluded, r.error)
  {
    var grown := included;
    for i := 0 to |included|
      invariant included <= grown && Distinct(grown) && Elems(grown) <= bound && Elems(grown) !! excluded
      invariant forall k :: 0 <= k < i ==> Served(ix, included[k], grown)
    {
      assert included[i] in Elems(included);
      var next := AddNeeds(ix, included[i], excluded, grown);
      if next.Failure? { return Failure(next.error); }
      assert forall d :: d in Needs(ix, included[i]) ==> d in Elems(next.value);
      grown := next.value;
    }
    return Success(grown);
  }

  /** Repeat passes until one adds nothing. */
  method Close(ix: Index, excluded: set<Name>, seed: seq<Name>) returns (r: Result<seq<Name>>)
    requires ValidIndex(ix) && Distinct(seed) && Elems(seed) <= ix.modules.Keys && Elems(seed) !! excluded
    ensures r.Success? <==> Closure(ix, Elems(seed)) !! excluded
    ensures r.Success? ==> Distinct(r.value) && Elems(r.value) == Closure(ix, Elems(seed))
    ensures r.Failure? ==> BadNeed(ix, Closure(ix, Elems(seed)), excluded, r.error)
  {
    ghost var bound := Closure(ix, Elems(seed));
    var included := seed;
    var changed := true;
    while changed
      invariant Distinct(included) && Elems(seed) <= Elems(included) <= bound && Elems(included) !! excluded
      invariant !changed ==> Closed(ix, Elems(included))
      decreases |bound| - |included|, changed
    {
      DistinctSize(included);
      var next := Pass(ix, excluded, included, bound);
      if next.Failure? {
        assert next.error.dependency in bound;
        return Failure(next.error);
      }
      changed := |next.value| > |included|;
      if !changed { assert next.value == included; }
      DistinctSize(next.value);
      SizeAtMost(Elems(next.value), bound);
      included := next.value;
    }
    return Success(included);
  }

  lemma SizeAtMost<T>(a: set<T>, b: set<T>)
    requires a <= b
    ensures |a| <= |b| && (|a| == |b| ==> a == b)
  {
    if a != b { SubsetSize(a, b); }
  }

  // --------------------------------------------------------------- ordering

  function Level(ix: Index, n: Name): int
    requires n in ix.modules
  {
    StageOrder(ix, ix.modules[n].stage)
  }

  /** The sort key: stage order, then module order, then name. */
  predicate Before(ix: Index, a: Name, b: Name)
    requires a in ix.modules && b in ix.modules
  {
    || Level(ix, a) < Level(ix, b)
    || (Level(ix, a) == Level(ix, b)
        && (ix.modules[a].order < ix.modules[b].order
            || (ix.modules[a].order == ix.modules[b].order && Ordering.Less(a, b))))
  }

  lemma BeforeIsStrict(ix: Index, a: Name, b: Name)
    requires a in ix.modules && b in ix.modules
    ensures !(Before(ix, a, b) && Before(ix, b, a))
    ensures a == b || Before(ix, a, b) || Before(ix, b, a)
  {
    Ordering.LessIsStrictTotal();
  }

  predicate Ready(ix: Index, s: set<Name>, done: set<Name>, n: Name) {
    && n in s && n !in done && n in ix.modules
    && forall d :: d in ix.modules[n].dependsOn && d in s ==> d in done
  }

  /** The included, uncompleted definitions whose included dependencies are all completed. */
  function ReadyNames(ix: Index, definitions: seq<Definition>, s: set<Name>, done: set<Name>): (r: seq<Name>)
    ensures forall n :: n in r <==> Ready(ix, s, done, n) && exists d :: d in definitions && d.name == n
  {
    if definitions == [] then []
    else
      var last := definitions[|definitions| - 1];
      assert definitions == definitions[..|definitions| - 1] + [last];
      var rest := ReadyNames(ix, definitions[..|definitions| - 1], s, done);
      if Ready(ix, s, done, last.name) then rest + [last.name] else rest
  }

  function First(ix: Index, names: seq<Name>): (r: Name)
    requires names != [] && forall n :: n in names ==> n in ix.modules
    ensures r in names && forall n :: n in names ==> n == r || Before(ix, r, n)
  {
    if |names| == 1 then names[0]
    else
      var rest := First(ix, names[1..]);
      assert names == [names[0]] + names[1..];
      Ordering.LessIsStrictTotal();
      if Before(ix, names[0], rest) then names[0] else rest
  }

  ghost predicate LeastReady(ix: Index, s: set<Name>, done: set<Name>, n: Name) {
    Ready(ix, s, done, n) && forall m :: Ready(ix, s, done, m) ==> m == n || Before(ix, n, m)
  }

  /** Every entry was the least ready module when it was chosen. */
  ghost predicate Greedy(ix: Index, s: set<Name>, ordered: seq<Name>) {
    forall k :: 0 <= k < |ordered| ==> LeastReady(ix, s, Elems(ordered[..k]), ordered[k])
  }

  ghost predicate DependsOn(ix: Index, s: set<Name>, a: Name, b: Name) {
    a in s && b in s && a in ix.modules && b in ix.modules[a].dependsOn
  }

  ghost predicate Walk(ix: Index, s: set<Name>, p: seq<Name>) {
    p != [] && forall i :: 0 <= i < |p| - 1 ==> DependsOn(ix, s, p[i], p[i + 1])
  }

  ghost predicate Cyclic(ix: Index, s: set<Name>) {
    exists p :: Walk(ix, s, p) && |p| >= 2 && p[0] == p[|p| - 1]
  }

  ghost predicate HasSuccessor(ix: Index, s: set<Name>, rest: set<Name>, n: Name) {
    exists d :: d in rest && DependsOn(ix, s, n, d)
  }

  lemma WalkSuffix(ix: Index, s: set<Name>, p: seq<Name>, i: nat)
    requires Walk(ix, s, p) && i < |p|
    ensures Walk(ix, s, p[i..])
  {
    forall k | 0 <= k < |p[i..]| - 1 ensures DependsOn(ix, s, p[i..][k], p[i..][k + 1]) {
      assert DependsOn(ix, s, p[i + k], p[i + k + 1]);
    }
  }

  lemma WalkExtends(ix: Index, s: set<Name>, p: seq<Name>, d: Name)
    requires Walk(ix, s, p) && DependsOn(ix, s, p[|p| - 1], d)
    ensures Walk(ix, s, p + [d])
  {
    var longer := p + [d];
    forall k | 0 <= k < |longer| - 1 ensures DependsOn(ix, s, longer[k], longer[k + 1]) {
      if k < |p| - 1 { assert DependsOn(ix, s, p[k], p[k + 1]); }
    }
  }

  /** Following unfinished dependencies for ever inside a finite set must revisit a module. */
  lemma {:induction false} ChaseFindsCycle(ix: Index, s: set<Name>, rest: set<Name>, walk: seq<Name>)
    requires rest <= s && Walk(ix, s, walk) && Distinct(walk) && Elems(walk) <= rest
    requires forall n {:trigger HasSuccessor(ix, s, rest, n)} :: n in rest ==> HasSuccessor(ix, s, rest, n)
    ensures Cyclic(ix, s)
    decreases |rest| - |walk|
  {
    var last := walk[|walk| - 1];
    assert last in Elems(walk);
    assert HasSuccessor(ix, s, rest, last);
    var d :| d in rest && DependsOn(ix, s, last, d);
    var longer := walk + [d];
    WalkExtends(ix, s, walk, d);
    if d in walk {
      var i :| 0 <= i < |walk| && walk[i] == d;
      WalkSuffix(ix, s, longer, i);
      assert longer[i..][0] == longer[i..][|longer[i..]| - 1];
    } else {
      DistinctSize(longer);
      assert Elems(longer) == Elems(walk) + {d};
      SizeAtMost(Elems(longer), rest);
      ChaseFindsCycle(ix, s, rest, longer);
    }
  }

  lemma StuckMeansCyclic(ix: Index, s: set<Name>, done: set<Name>)
    requires s <= ix.modules.Keys && done < s
    requires forall n :: !Ready(ix, s, done, n)
    ensures Cyclic(ix, s)
  {
    var rest := s - done;
    forall n | n in rest ensures HasSuccessor(ix, s, rest, n) {
      assert !Ready(ix, s, done, n);
      var d :| d in ix.modules[n].dependsOn && d in s && d !in done;
      assert d in rest && DependsOn(ix, s, n, d);
    }
    var n :| n in s && n !in done;
    assert n in rest;
    ChaseFindsCycle(ix, s, rest, [n]);
  }

  lemma GreedyIsDistinct(ix: Index, s: set<Name>, ordered: seq<Name>)
    requires Greedy(ix, s, ordered)
    ensures Distinct(ordered) && Elems(ordered) <= s
  {
    forall i, j | 0 <= i < j < |ordered| ensures ordered[i] != ordered[j] {
      assert ordered[i] == ordered[..j][i];
      assert ordered[i] in Elems(ordered[..j]);
    }
  }

  /** Each dependency comes before its dependants. */
  lemma DependenciesComeFirst(ix: Index, s: set<Name>, ordered: seq<Name>, k: nat, d: Name)
    requires Greedy(ix, s, ordered) && k < |ordered| && d in s
    requires ordered[k] in ix.modules && d in ix.modules[ordered[k]].dependsOn
    ensures exists i :: 0 <= i < k && ordered[i] == d
  {
    assert d in ordered[..k];
  }

  lemma {:induction false} WalksDescend(ix: Index, s: set<Name>, ordered: seq<Name>, p: seq<Name>, i: nat, j: nat)
    requires Greedy(ix, s, ordered) && Walk(ix, s, p) && |p| >= 2
    requires i < |ordered| && j < |ordered| && ordered[i] == p[0] && ordered[j] == p[|p| - 1]
    ensures j < i
    decreases |p|
  {
    GreedyIsDistinct(ix, s, ordered);
    assert DependsOn(ix, s, p[0], p[1]);
    DependenciesComeFirst(ix, s, ordered, i, p[1]);
    var k :| 0 <= k < i && ordered[k] == p[1];
    if |p| > 2 {
      WalkSuffix(ix, s, p, 1);
      WalksDescend(ix, s, ordered, p[1..], k, j);
    }
  }

  /** A complete greedy listing is a witness that the selection has no cycle. */
  lemma CompleteMeansAcyclic(ix: Index, s: set<Name>, ordered: seq<Name>)
    requires Greedy(ix, s, ordered) && Elems(ordered) == s
    ensures !Cyclic(ix, s)
  {
    forall p | Walk(ix, s, p) && |p| >= 2 && p[0] == p[|p| - 1] ensures false {
      assert DependsOn(ix, s, p[0], p[1]);
      assert p[0] in Elems(ordered);
      var i :| 0 <= i < |ordered| && ordered[i] == p[0];
      WalksDescend(ix, s, ordered, p, i, i);
    }
  }

  /** Stage orders never decrease along a plan, although each choice only looks at ready modules. */
  lemma StagesNeverDecrease(ix: Index, s: set<Name>, ordered: seq<Name>, i: nat, j: nat)
    requires ValidIndex(ix) && s <= ix.modules.Keys && Greedy(ix, s, ordered) && i <= j < |ordered|
    ensures ordered[i] in ix.modules && ordered[j] in ix.modules
    ensures Level(ix, ordered[i]) <= Level(ix, ordered[j])
    decreases j
  {
    GreedyIsDistinct(ix, s, ordered);
    assert ordered[i] in Elems(ordered) && ordered[j] in Elems(ordered);
    assert LeastReady(ix, s, Elems(ordered[..i]), ordered[i]);
    if Level(ix, ordered[j]) < Level(ix, ordered[i]) {
      // Every dependency of the offender precedes position i, so it was ready at i.
      forall d | d in ix.modules[ordered[j]].dependsOn && d in s ensures d in Elems(ordered[..i]) {
        DependenciesComeFirst(ix, s, ordered, j, d);
        var q :| 0 <= q < j && ordered[q] == d;
        assert NoLater(ix, d, Level(ix, ordered[j]));
        if q >= i { StagesNeverDecrease(ix, s, ordered, i, q); }
        assert ordered[..i][q] == d;
      }
      assert Ready(ix, s, Elems(ordered[..i]), ordered[j]);
    }
  }

  /** There is at most one complete greedy listing. */
  lemma {:induction false} GreedyUnique(ix: Index, s: set<Name>, a: seq<Name>, b: seq<Name>, n: nat)
    requires s <= ix.modules.Keys && Greedy(ix, s, a) && Greedy(ix, s, b) && n <= |a| && n <= |b|
    ensures a[..n] == b[..n]
  {
    if n > 0 {
      GreedyUnique(ix, s, a, b, n - 1);
      var done := Elems(a[..n - 1]);
      assert LeastReady(ix, s, done, a[n - 1]) && LeastReady(ix, s, done, b[n - 1]);
      BeforeIsStrict(ix, a[n - 1], b[n - 1]);
    }
  }

  method Order(ix: Index, definitions: seq<Definition>, included: seq<Name>) returns (r: Result<seq<Name>>)
    requires ValidIndex(ix) && Distinct(included) && Elems(included) <= ix.modules.Keys
    requires forall n :: n in ix.modules ==> ix.modules[n] in definitions
    ensures r.Success? <==> !Cyclic(ix, Elems(included))
    ensures r.Success? ==> Greedy(ix, Elems(included), r.value) && Elems(r.value) == Elems(included)
    ensures r.Failure? ==> r.error == DependencyCycle
  {
    var chosen := Elems(included);
    DistinctSize(included);
    var ordered: seq<Name> := [];
    var completed: set<Name> := {};
    while |completed| < |included|
      invariant Greedy(ix, chosen, ordered) && completed == Elems(ordered) && completed <= chosen
      invariant |completed| <= |included|
      decreases |included| - |completed|
    {
      var ready := ReadyNames(ix, definitions, chosen, completed);
      if |ready| == 0 {
        assert ready == [];
        assert forall n :: !Ready(ix, chosen, completed, n);
        assert completed != chosen;
        StuckMeansCyclic(ix, chosen, completed);
        return Failure(DependencyCycle);
      }
      var next := First(ix, ready);
      GreedyExtends(ix, chosen, ordered, next, ready);
      completed := completed + {next};
      SizeAtMost(completed, chosen);
      ordered := ordered + [next];
    }
    SizeAtMost(completed, chosen);
    CompleteMeansAcyclic(ix, chosen, ordered);
    return Success(ordered);
  }

  lemma GreedyExtends(ix: Index, s: set<Name>, ordered: seq<Name>, next: Name, ready: seq<Name>)
    requires Greedy(ix, s, ordered) && next in ready
    requires forall n :: Ready(ix, s, Elems(ordered), n) <==> n in ready
    requires forall n :: n in ready ==> n in ix.modules
    requires next in ix.modules && forall n :: n in ready ==> n == next || Before(ix, next, n)
    ensures Greedy(ix, s, ordered + [next]) && Elems(ordered + [next]) == Elems(ordered) + {next}
  {
    var longer := ordered + [next];
    forall k | 0 <= k < |longer| ensures LeastReady(ix, s, Elems(longer[..k]), longer[k]) {
      assert longer[..k] == ordered[..k];
      if k == |ordered| { assert ordered[..k] == ordered; }
    }
  }

  // -------------------------------------------------------------- selection

  predicate InCatalog(cat: Catalog, requested: seq<Request>) {
    forall q :: q in requested && q.Named? ==> q.name in ModuleMap(cat.modules)
  }

  /** What the request asks for: the default modules under `All`, and every named module. */
  ghost function Wanted(ix: Index, requested: set<Request>): set<Name> {
    (set n | n in ix.modules && All in requested && ix.modules[n].isDefault)
    + (set q | q in requested && q.Named? :: q.name)
  }

  ghost function Selection(ix: Index, requested: set<Request>, excluded: set<Name>): set<Name>
    requires ValidIndex(ix) && Wanted(ix, requested) <= ix.modules.Keys
  {
    Closure(ix, Wanted(ix, requested) - excluded)
  }

  /** The complete outcome of planning, by the sets of things declared, requested and excluded. */
  ghost predicate Outcome(cat: Catalog, requested: set<Request>, excluded: set<Name>, r: Result<seq<Name>>) {
    if !WellFormed(cat) then r.Failure? && Explains(cat, r.error)
    else
      var ix := IndexOf(cat);
      ValidIndex(ix) && Wanted(ix, requested) <= ix.modules.Keys &&
      var chosen := Selection(ix, requested, excluded);
      if !(chosen !! excluded) then r.Failure? && BadNeed(ix, chosen, excluded, r.error)
      else if Cyclic(ix, chosen) then r == Failure(DependencyCycle)
      else r.Success? && Greedy(ix, chosen, r.value) && Elems(r.value) == chosen
  }

  function Without(names: seq<Name>, n: Name): (r: seq<Name>)
    ensures forall m :: m in r <==> m in names && m != n
    ensures |r| <= |names| && (n in names ==> |r| < |names|)
  {
    if names == [] then []
    else
      assert names == [names[0]] + names[1..];
      if names[0] == n then Without(names[1..], n) else [names[0]] + Without(names[1..], n)
  }

  function SortByKey(ix: Index, names: seq<Name>): (r: seq<Name>)
    requires forall n :: n in names ==> n in ix.modules
    ensures forall n :: n in r <==> n in names
    ensures forall i, j :: 0 <= i < j < |r| ==> Before(ix, r[i], r[j])
    decreases |names|
  {
    if names == [] then []
    else var first := First(ix, names); [first] + SortByKey(ix, Without(names, first))
  }

  method RequestedNames(ix: Index, definitions: seq<Definition>, requested: seq<Request>) returns (names: seq<Name>)
    requires forall d :: d in definitions ==> d.name in ix.modules && ix.modules[d.name] == d
    requires forall n :: n in ix.modules ==> ix.modules[n] in definitions && ix.modules[n].name == n
    ensures Elems(names) == Wanted(ix, Elems(requested))
  {
    names := [];
    if All in requested {
      var defaults := [];
      for i := 0 to |definitions|
        invariant forall n :: n in defaults <==> exists k :: 0 <= k < i && definitions[k].isDefault && definitions[k].name == n
      {
        assert definitions[i] in definitions;
        if definitions[i].isDefault { defaults := defaults + [definitions[i].name]; }
      }
      forall n ensures n in defaults <==> n in ix.modules && ix.modules[n].isDefault {
        if n in ix.modules && ix.modules[n].isDefault { assert ix.modules[n] in definitions; }
      }
      names := SortByKey(ix, defaults);
    }
    ghost var base := Elems(names);
    for i := 0 to |requested|
      invariant forall n :: n in names <==> n in base || exists k :: 0 <= k < i && requested[k] == Named(n)
    {
      if requested[i].Named? && requested[i].name !in names { names := names + [requested[i].name]; }
    }
    forall n ensures n in names <==> n in Wanted(ix, Elems(requested)) {
      if n in names && n !in base { assert Named(n) in Elems(requested); }
      if Named(n) in Elems(requested) { assert Named(n) in requested; }
    }
  }

  method IncludedSeed(requestedNames: seq<Name>, excluded: set<Name>) returns (included: seq<Name>)
    ensures Distinct(included) && Elems(included) == Elems(requestedNames) - excluded
  {
    included := [];
    for i := 0 to |requestedNames|
      invariant Distinct(included) && Elems(included) == Elems(requestedNames[..i]) - excluded
    {
      var name := requestedNames[i];
      assert Elems(requestedNames[..i + 1]) == Elems(requestedNames[..i]) + {name};
      if name !in excluded && name !in included {
        assert Elems(included + [name]) == Elems(included) + {name};
        included := included + [name];
      }
      assert name in excluded || name in Elems(included);
    }
    assert requestedNames[..|requestedNames|] == requestedNames;
  }

  method Select(cat: Catalog, requested: seq<Request>, excludedNames: seq<Name>) returns (r: Result<seq<Name>>)
    requires InCatalog(cat, requested)
    ensures Outcome(cat, Elems(requested), Elems(excludedNames), r)
  {
    var valid := Validate(cat);
    if valid.Failure? { return Failure(valid.error); }
    var ix := valid.value;
    var excluded := Elems(excludedNames);
    WellFormedIndex(cat);
    var wanted := RequestedNames(ix, cat.modules, requested);
    var seed := IncludedSeed(wanted, excluded);
    assert Elems(seed) == Wanted(ix, Elems(requested)) - excluded;
    assert Wanted(ix, Elems(requested)) <= ix.modules.Keys;
    var included := Close(ix, excluded, seed);
    if included.Failure? { return Failure(included.error); }
    r := Order(ix, cat.modules, included.value);
  }

  lemma CompleteListingsAgree(ix: Index, s: set<Name>, a: seq<Name>, b: seq<Name>)
    requires s <= ix.modules.Keys && Greedy(ix, s, a) && Greedy(ix, s, b) && Elems(a) == s && Elems(b) == s
    ensures a == b
  {
    GreedyIsDistinct(ix, s, a);
    GreedyIsDistinct(ix, s, b);
    DistinctSize(a);
    DistinctSize(b);
    GreedyUnique(ix, s, a, b, |a|);
    assert a[..|a|] == a && b[..|b|] == b;
  }

  /** Relisting the stages, modules, requests or exclusions in another order changes nothing. */
  lemma PlanDependsOnlyOnSets(a: Catalog, b: Catalog, requested: set<Request>, excluded: set<Name>,
                              ra: Result<seq<Name>>, rb: Result<seq<Name>>)
    requires multiset(a.stages) == multiset(b.stages) && multiset(a.modules) == multiset(b.modules)
    requires Outcome(a, requested, excluded, ra) && Outcome(b, requested, excluded, rb)
    ensures ra.Success? <==> rb.Success?
    ensures ra == Failure(DependencyCycle) <==> rb == Failure(DependencyCycle)
    ensures ra.Success? ==> ra.value == rb.value
  {
    if WellFormed(a) { RelistedCatalog(a, b); }
    if WellFormed(b) { RelistedCatalog(b, a); }
    if ra.Success? {
      CompleteListingsAgree(IndexOf(a), Selection(IndexOf(a), requested, excluded), ra.value, rb.value);
    }
  }

  /** A successful plan: no repeats, exactly the selection, dependencies first, stages in order, gates first. */
  lemma PlanIsSound(cat: Catalog, requested: set<Request>, excluded: set<Name>, plan: seq<Name>)
    requires WellFormed(cat) && Outcome(cat, requested, excluded, Success(plan))
    ensures Distinct(plan) && Elems(plan) !! excluded && SoundPlan(IndexOf(cat), plan)
    ensures LeastClosed(IndexOf(cat), Wanted(IndexOf(cat), requested) - excluded, Elems(plan))
  {
    var ix := IndexOf(cat);
    var s := Elems(plan);
    GreedyIsDistinct(ix, s, plan);
    GreedyPlanIsSound(ix, plan);
  }

  /** What the executor may rely on. */
  ghost predicate SoundPlan(ix: Index, plan: seq<Name>) {
    && Distinct(plan)
    && (forall k :: 0 <= k < |plan| ==> plan[k] in ix.modules)
    && (forall i, j :: 0 <= i <= j < |plan| ==> Level(ix, plan[i]) <= Level(ix, plan[j]))
    && (forall k :: 0 <= k < |plan| ==> Preceded(ix, plan, k))
  }

  /** All dependencies of entry `k`, and all its stage's gates of earlier stages, come before it. */
  ghost predicate Preceded(ix: Index, plan: seq<Name>, k: nat)
    requires k < |plan| && plan[k] in ix.modules
  {
    && (forall d :: d in ix.modules[plan[k]].dependsOn ==> d in plan[..k])
    && (forall g :: g in Needs(ix, plan[k]) && g in ix.modules && Level(ix, g) < Level(ix, plan[k]) ==> g in plan[..k])
  }

  lemma GreedyPlanIsSound(ix: Index, plan: seq<Name>)
    requires ValidIndex(ix) && Elems(plan) <= ix.modules.Keys && Closed(ix, Elems(plan)) && Greedy(ix, Elems(plan), plan)
    ensures SoundPlan(ix, plan)
  {
    var s := Elems(plan);
    GreedyIsDistinct(ix, s, plan);
    forall k | 0 <= k < |plan| ensures plan[k] in ix.modules { assert plan[k] in s; }
    forall i, j | 0 <= i <= j < |plan| ensures Level(ix, plan[i]) <= Level(ix, plan[j]) {
      StagesNeverDecrease(ix, s, plan, i, j);
    }
    forall k | 0 <= k < |plan| ensures Preceded(ix, plan, k) {
      assert plan[k] in s;
      forall d | d in ix.modules[plan[k]].dependsOn ensures d in plan[..k] {
        assert d in Needs(ix, plan[k]);
        DependenciesComeFirst(ix, s, plan, k, d);
      }
      forall g | g in Needs(ix, plan[k]) && g in ix.modules && Level(ix, g) < Level(ix, plan[k]) ensures g in plan[..k] {
        assert g in s;
        var q :| 0 <= q < |plan| && plan[q] == g;
        assert q < k;
        assert plan[..k][q] == g;
      }
    }
  }
}
