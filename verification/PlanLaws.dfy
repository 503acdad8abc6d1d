/** What a plan means in terms of the listed stages and modules: which modules, in which order, and why. */
module PlanLaws {
  import opened Catalogs
  import opened Planner
  import Ordering

  /** The request names the module, or asks for all defaults and it is one. */
  ghost predicate AsksFor(cat: Catalog, requested: set<Request>, n: Name) {
    Named(n) in requested || (All in requested && exists d :: d in cat.modules && d.name == n && d.isDefault)
  }

  /** With a module come its dependencies and the gates of its stage. */
  ghost predicate Complete(cat: Catalog, t: set<Name>) {
    forall d: Definition, s, x :: Declared(cat, d.name, d, s) && d.name in t && x in d.dependsOn + s.dependsOn ==> x in t
  }

  /** The requested modules that are not excluded, and whatever comes with them; nothing more. */
  ghost predicate RightModules(cat: Catalog, requested: set<Request>, excluded: set<Name>, plan: seq<Name>) {
    && (forall n :: AsksFor(cat, requested, n) && n !in excluded ==> n in plan)
    && Complete(cat, Elems(plan))
    && forall t: set<Name> :: Complete(cat, t) && (forall n :: AsksFor(cat, requested, n) && n !in excluded ==> n in t) ==> Elems(plan) <= t
  }

  /** Two entries of the plan with their modules and stages. */
  ghost predicate Entries(cat: Catalog, plan: seq<Name>, i: nat, j: nat, di: Definition, si: Stage, dj: Definition, sj: Stage) {
    i < j < |plan| && Declared(cat, plan[i], di, si) && Declared(cat, plan[j], dj, sj)
  }

  /** The order of two modules of one stage: by module order, then by name in code-point order. */
  ghost predicate SortsBefore(a: Definition, b: Definition) {
    a.order < b.order || (a.order == b.order && Ordering.Smaller(a.name, b.name))
  }

  /** Some dependency of the module stands at one of the positions from `i` up to, and without, `j`. */
  ghost predicate WaitsFor(plan: seq<Name>, d: Definition, i: nat, j: nat) {
    exists k :: i <= k < j < |plan| && plan[k] in d.dependsOn
  }

  /** Earlier stages first; within a stage a module stands behind one that sorts after it only if it had to wait for a dependency. */
  ghost predicate RightOrder(cat: Catalog, plan: seq<Name>) {
    forall i: nat, j: nat, di, si, dj, sj :: Entries(cat, plan, i, j, di, si, dj, sj) ==>
      && si.order <= sj.order
      && (si.order == sj.order && SortsBefore(dj, di) ==> WaitsFor(plan, dj, i, j))
  }

  /** Every listed dependency, and every gate of an earlier stage, stands before the module. */
  ghost predicate DependenciesFirst(cat: Catalog, plan: seq<Name>) {
    && (forall k, d, s, x :: 0 <= k < |plan| && Declared(cat, plan[k], d, s) && x in d.dependsOn ==> x in plan[..k])
    && (forall k, d, s, g, dg, sg ::
          (0 <= k < |plan| && Declared(cat, plan[k], d, s) && g in s.dependsOn && Declared(cat, g, dg, sg) && sg.order < s.order)
          ==> g in plan[..k])
  }

  lemma DeclaredIsIndexed(cat: Catalog, n: Name, d: Definition, s: Stage)
    requires WellFormed(cat) && Declared(cat, n, d, s)
    ensures var ix := IndexOf(cat); n in ix.modules && ix.modules[n] == d && s.name in ix.stages && ix.stages[s.name] == s && Level(ix, n) == s.order
  {
    StageMapContents(cat.stages);
    ModuleMapContents(cat.modules);
  }

  lemma IndexedIsDeclared(cat: Catalog, n: Name)
    requires WellFormed(cat) && n in IndexOf(cat).modules
    ensures var ix := IndexOf(cat); ix.modules[n].stage in ix.stages && Declared(cat, n, ix.modules[n], ix.stages[ix.modules[n].stage])
  {
    StageMapContents(cat.stages);
    ModuleMapContents(cat.modules);
  }

  lemma ClosedIffComplete(cat: Catalog, t: set<Name>)
    requires WellFormed(cat)
    ensures Closed(IndexOf(cat), t) <==> Complete(cat, t)
  {
    var ix := IndexOf(cat);
    if Closed(ix, t) {
      forall d: Definition, s, x | Declared(cat, d.name, d, s) && d.name in t && x in d.dependsOn + s.dependsOn ensures x in t {
        DeclaredIsIndexed(cat, d.name, d, s);
        assert x in Needs(ix, d.name);
      }
    }
    if Complete(cat, t) {
      forall n, x | n in t && n in ix.modules && x in Needs(ix, n) ensures x in t {
        IndexedIsDeclared(cat, n);
        var d := ix.modules[n];
        assert Declared(cat, d.name, d, ix.stages[d.stage]);
      }
    }
  }

  lemma WantedIffAsked(cat: Catalog, requested: set<Request>, n: Name)
    requires WellFormed(cat)
    ensures n in Wanted(IndexOf(cat), requested) <==> AsksFor(cat, requested, n)
  {
    WellFormedIndex(cat);
    var ix := IndexOf(cat);
    if n in Wanted(ix, requested) && Named(n) !in requested { assert ix.modules[n] in cat.modules; }
  }

  /** Why a module stands where it does among those of its stage. */
  lemma TieBreak(cat: Catalog, s: set<Name>, plan: seq<Name>, i: nat, j: nat, di: Definition, si: Stage, dj: Definition, sj: Stage)
    requires WellFormed(cat) && s <= IndexOf(cat).modules.Keys && Greedy(IndexOf(cat), s, plan) && Closed(IndexOf(cat), s)
    requires Entries(cat, plan, i, j, di, si, dj, sj) && si.order == sj.order && SortsBefore(dj, di)
    ensures WaitsFor(plan, dj, i, j)
  {
    var ix := IndexOf(cat);
    DeclaredIsIndexed(cat, plan[i], di, si);
    DeclaredIsIndexed(cat, plan[j], dj, sj);
    GreedyIsDistinct(ix, s, plan);
    assert plan[j] in Elems(plan) && plan[j] !in plan[..i];
    Ordering.LessMeans(plan[j], plan[i]);
    assert Before(ix, plan[j], plan[i]);
    BeforeIsStrict(ix, plan[i], plan[j]);
    assert LeastReady(ix, s, Elems(plan[..i]), plan[i]);
    assert !Ready(ix, s, Elems(plan[..i]), plan[j]);
    forall q | 0 <= q < i ensures plan[q] in Elems(plan[..i]) { assert plan[..i][q] == plan[q]; }
    var d :| d in dj.dependsOn && d in s && d !in Elems(plan[..i]);
    DependenciesComeFirst(ix, s, plan, j, d);
    var k :| 0 <= k < j && plan[k] == d;
  }

  lemma OrderIsRight(cat: Catalog, plan: seq<Name>)
    requires WellFormed(cat) && Greedy(IndexOf(cat), Elems(plan), plan) && Elems(plan) <= IndexOf(cat).modules.Keys && Closed(IndexOf(cat), Elems(plan))
    ensures RightOrder(cat, plan)
  {
    var ix := IndexOf(cat);
    WellFormedIndex(cat);
    forall i: nat, j: nat, di, si, dj, sj | Entries(cat, plan, i, j, di, si, dj, sj)
      ensures si.order <= sj.order && (si.order == sj.order && SortsBefore(dj, di) ==> WaitsFor(plan, dj, i, j))
    {
      DeclaredIsIndexed(cat, plan[i], di, si);
      DeclaredIsIndexed(cat, plan[j], dj, sj);
      StagesNeverDecrease(ix, Elems(plan), plan, i, j);
      if si.order == sj.order && SortsBefore(dj, di) { TieBreak(cat, Elems(plan), plan, i, j, di, si, dj, sj); }
    }
  }

  lemma DependenciesAreFirst(cat: Catalog, plan: seq<Name>)
    requires WellFormed(cat) && SoundPlan(IndexOf(cat), plan)
    ensures DependenciesFirst(cat, plan)
  {
    var ix := IndexOf(cat);
    forall k, d, s, x | 0 <= k < |plan| && Declared(cat, plan[k], d, s) && x in d.dependsOn ensures x in plan[..k] {
      DeclaredIsIndexed(cat, plan[k], d, s);
      assert Preceded(ix, plan, k);
    }
    forall k, d, s, g, dg, sg | 0 <= k < |plan| && Declared(cat, plan[k], d, s) && g in s.dependsOn && Declared(cat, g, dg, sg)
        && sg.order < s.order
      ensures g in plan[..k]
    {
      DeclaredIsIndexed(cat, plan[k], d, s);
      DeclaredIsIndexed(cat, g, dg, sg);
      assert Preceded(ix, plan, k) && g in Needs(ix, plan[k]);
    }
  }

  /** A successful plan, said of the listed stages and modules alone. */
  lemma PlanMeaning(cat: Catalog, requested: set<Request>, excluded: set<Name>, plan: seq<Name>)
    requires WellFormed(cat) && Outcome(cat, requested, excluded, Success(plan))
    ensures Distinct(plan) && Elems(plan) !! excluded
    ensures RightModules(cat, requested, excluded, plan) && RightOrder(cat, plan) && DependenciesFirst(cat, plan)
  {
    var ix := IndexOf(cat);
    PlanIsSound(cat, requested, excluded, plan);
    forall n ensures n in Wanted(ix, requested) <==> AsksFor(cat, requested, n) { WantedIffAsked(cat, requested, n); }
    ClosedIffComplete(cat, Elems(plan));
    forall t: set<Name> | Complete(cat, t) && (forall n :: AsksFor(cat, requested, n) && n !in excluded ==> n in t) ensures Elems(plan) <= t {
      ClosedIffComplete(cat, t);
      assert Wanted(ix, requested) - excluded <= t;
    }
    forall n | AsksFor(cat, requested, n) && n !in excluded ensures n in plan { assert n in Elems(plan); }
    OrderIsRight(cat, plan);
    DependenciesAreFirst(cat, plan);
  }
}
