/** The staged module catalog and its validation. A name stands for its case-folded text. */
module Catalogs {
  type Name = string

  datatype Result<+T> = Success(value: T) | Failure(error: PlanError)

  datatype PlanError =
    | UnnamedStage
    | DuplicateStage(name: Name)
    | DuplicateStageOrder(order: int)
    | NoStages
    | DuplicateModule(name: Name)
    | UnknownStage(name: Name, stage: Name)
    | UnsupportedRuntime(name: Name, runtime: Runtime)
    | UnknownDependency(name: Name, dependency: Name)
    | LaterDependency(name: Name, dependency: Name)
    | UnknownGate(stage: Name, gate: Name)
    | LaterGate(stage: Name, gate: Name)
    | ExcludedDependency(name: Name, dependency: Name)
    | DependencyCycle

  datatype Runtime = Inbox | PowerShell7 | Native | Other(text: string)

  datatype Stage = Stage(name: Name, order: int, dependsOn: seq<Name>)

  datatype Definition = Definition(name: Name, stage: Name, runtime: Runtime, order: int,
                                   isDefault: bool, dependsOn: seq<Name>)

  datatype Catalog = Catalog(stages: seq<Stage>, modules: seq<Definition>)

  /** The two hashtables built while validating: stages and modules by name. */
  datatype Index = Index(stages: map<Name, Stage>, modules: map<Name, Definition>)

  function StageMap(stages: seq<Stage>): map<Name, Stage> {
    if stages == [] then map[]
    else var last := stages[|stages| - 1]; StageMap(stages[..|stages| - 1])[last.name := last]
  }

  function ModuleMap(modules: seq<Definition>): map<Name, Definition> {
    if modules == [] then map[]
    else var last := modules[|modules| - 1]; ModuleMap(modules[..|modules| - 1])[last.name := last]
  }

  function IndexOf(cat: Catalog): Index {
    Index(StageMap(cat.stages), ModuleMap(cat.modules))
  }

  ghost predicate DistinctStages(stages: seq<Stage>) {
    && (forall i :: 0 <= i < |stages| ==> stages[i].name != "")
    && (forall i, j :: 0 <= i < j < |stages| ==> stages[i].name != stages[j].name && stages[i].order != stages[j].order)
  }

  ghost predicate DistinctModules(modules: seq<Definition>) {
    forall i, j :: 0 <= i < j < |modules| ==> modules[i].name != modules[j].name
  }

  /** The order of a stage; an undeclared stage reads as order 0 until it is reported. */
  function StageOrder(ix: Index, stage: Name): int {
    if stage in ix.stages then ix.stages[stage].order else 0
  }

  /** A dependency of something declared at stage order `level` exists and sits in no later stage. */
  predicate NoLater(ix: Index, dependency: Name, level: int) {
    dependency in ix.modules && StageOrder(ix, ix.modules[dependency].stage) <= level
  }

  ghost predicate ModuleOk(ix: Index, d: Definition) {
    && d.stage in ix.stages
    && !d.runtime.Other?
    && forall n :: n in d.dependsOn ==> NoLater(ix, n, ix.stages[d.stage].order)
  }

  ghost predicate GateOk(ix: Index, s: Stage) {
    forall n :: n in s.dependsOn ==> NoLater(ix, n, s.order)
  }

  ghost predicate WellFormed(cat: Catalog) {
    && cat.stages != []
    && DistinctStages(cat.stages)
    && DistinctModules(cat.modules)
    && (forall d :: d in cat.modules ==> ModuleOk(IndexOf(cat), d))
    && (forall s :: s in cat.stages ==> GateOk(IndexOf(cat), s))
  }

  /** What an accepted catalog guarantees about its index. */
  ghost predicate ValidIndex(ix: Index) {
    && (forall n :: n in ix.stages ==> ix.stages[n].name == n && GateOk(ix, ix.stages[n]))
    && (forall n :: n in ix.modules ==> ix.modules[n].name == n && ModuleOk(ix, ix.modules[n]))
  }

  lemma {:induction false} StageMapContents(stages: seq<Stage>)
    requires DistinctStages(stages)
    ensures forall s :: s in stages ==> s.name in StageMap(stages) && StageMap(stages)[s.name] == s
    ensures forall n :: n in StageMap(stages) ==> StageMap(stages)[n] in stages && StageMap(stages)[n].name == n
  {
    if stages != [] {
      var shorter := stages[..|stages| - 1];
      StageMapContents(shorter);
      assert stages == shorter + [stages[|stages| - 1]];
    }
  }

  lemma {:induction false} ModuleMapContents(modules: seq<Definition>)
    requires DistinctModules(modules)
    ensures forall d :: d in modules ==> d.name in ModuleMap(modules) && ModuleMap(modules)[d.name] == d
    ensures forall n :: n in ModuleMap(modules) ==> ModuleMap(modules)[n] in modules && ModuleMap(modules)[n].name == n
  {
    if modules != [] {
      var shorter := modules[..|modules| - 1];
      ModuleMapContents(shorter);
      assert modules == shorter + [modules[|modules| - 1]];
    }
  }

  lemma WellFormedIndex(cat: Catalog)
    requires WellFormed(cat)
    ensures ValidIndex(IndexOf(cat))
    ensures forall d :: d in cat.modules ==> d.name in IndexOf(cat).modules && IndexOf(cat).modules[d.name] == d
    ensures forall n :: n in IndexOf(cat).modules ==> IndexOf(cat).modules[n] in cat.modules
  {
    StageMapContents(cat.stages);
    ModuleMapContents(cat.modules);
  }

  /** Acceptance and the index depend only on which stages and modules are listed, not on their order. */
  lemma IndexDependsOnlyOnSets(a: Catalog, b: Catalog)
    requires WellFormed(a) && DistinctStages(b.stages) && DistinctModules(b.modules)
    requires forall s :: s in a.stages <==> s in b.stages
    requires forall d :: d in a.modules <==> d in b.modules
    ensures WellFormed(b) && IndexOf(a) == IndexOf(b)
  {
    StageMapContents(a.stages);
    StageMapContents(b.stages);
    ModuleMapContents(a.modules);
    ModuleMapContents(b.modules);
    assert StageMap(a.stages) == StageMap(b.stages);
    assert ModuleMap(a.modules) == ModuleMap(b.modules);
    assert a.stages[0] in b.stages;
  }

  // ------------------------------------------------ acceptance, entry by entry

  /** `d` is the declared module of this name, and `s` the declared stage it names. */
  ghost predicate Declared(cat: Catalog, n: Name, d: Definition, s: Stage) {
    d in cat.modules && d.name == n && s in cat.stages && s.name == d.stage
  }

  /** A module of this name is declared, in a stage of at most this order. */
  ghost predicate DeclaredBy(cat: Catalog, n: Name, order: int) {
    exists d, s :: Declared(cat, n, d, s) && s.order <= order
  }

  ghost predicate SoundDefinition(cat: Catalog, d: Definition) {
    && d.runtime in {Inbox, PowerShell7, Native}
    && exists s :: s in cat.stages && s.name == d.stage && forall n :: n in d.dependsOn ==> DeclaredBy(cat, n, s.order)
  }

  ghost predicate SoundStage(cat: Catalog, s: Stage) {
    forall n :: n in s.dependsOn ==> DeclaredBy(cat, n, s.order)
  }

  lemma DeclaredIff(cat: Catalog, n: Name, order: int)
    requires DistinctStages(cat.stages) && DistinctModules(cat.modules)
    requires forall d :: d in cat.modules ==> d.stage in IndexOf(cat).stages
    ensures NoLater(IndexOf(cat), n, order) <==> DeclaredBy(cat, n, order)
  {
    StageMapContents(cat.stages);
    ModuleMapContents(cat.modules);
    var ix := IndexOf(cat);
    if NoLater(ix, n, order) {
      var d := ix.modules[n];
      assert Declared(cat, n, d, ix.stages[d.stage]);
    }
  }

  /** What is accepted, said of the listed stages and modules alone. */
  lemma WellFormedMeaning(cat: Catalog)
    ensures WellFormed(cat) <==>
      && cat.stages != [] && DistinctStages(cat.stages) && DistinctModules(cat.modules)
      && (forall d :: d in cat.modules ==> SoundDefinition(cat, d))
      && (forall s :: s in cat.stages ==> SoundStage(cat, s))
  {
    if DistinctStages(cat.stages) && DistinctModules(cat.modules) {
      var ix := IndexOf(cat);
      StageMapContents(cat.stages);
      ModuleMapContents(cat.modules);
      if forall d :: d in cat.modules ==> d.stage in ix.stages {
        forall n, order ensures NoLater(ix, n, order) <==> DeclaredBy(cat, n, order) { DeclaredIff(cat, n, order); }
        forall d | d in cat.modules ensures ModuleOk(ix, d) <==> SoundDefinition(cat, d) {
          assert ix.stages[d.stage] in cat.stages;
        }
        forall s | s in cat.stages ensures GateOk(ix, s) <==> SoundStage(cat, s) {}
      }
    }
  }

  lemma {:induction false} OnceEach<T>(xs: seq<T>, x: T)
    requires forall i, j :: 0 <= i < j < |xs| ==> xs[i] != xs[j]
    ensures multiset(xs)[x] <= 1
  {
    if xs != [] {
      var n := |xs| - 1;
      OnceEach(xs[..n], x);
      assert xs == xs[..n] + [xs[n]];
      if x == xs[n] { assert x !in xs[..n]; }
    }
  }

  /** A permutation of a list without repeats has no repeats. */
  lemma NoRepeats<T>(xs: seq<T>, ys: seq<T>)
    requires multiset(xs) == multiset(ys) && forall i, j :: 0 <= i < j < |xs| ==> xs[i] != xs[j]
    ensures forall i, j :: 0 <= i < j < |ys| ==> ys[i] != ys[j]
    ensures forall y :: y in xs <==> y in ys
  {
    forall i, j | 0 <= i < j < |ys| ensures ys[i] != ys[j] {
      OnceEach(xs, ys[j]);
      assert ys == ys[..j] + ys[j..];
      assert ys[j] in ys[j..] && ys[i] in ys[..j];
    }
    forall y ensures y in xs <==> y in ys { assert y in multiset(xs) <==> y in multiset(ys); }
  }

  lemma RelistedStages(xs: seq<Stage>, ys: seq<Stage>)
    requires multiset(xs) == multiset(ys) && DistinctStages(xs)
    ensures DistinctStages(ys) && forall s :: s in xs <==> s in ys
  {
    NoRepeats(xs, ys);
    forall i, j | 0 <= i < j < |ys| ensures ys[i].name != ys[j].name && ys[i].order != ys[j].order {
      assert ys[i] in xs && ys[j] in xs;
    }
    forall i | 0 <= i < |ys| ensures ys[i].name != "" { assert ys[i] in xs; }
  }

  lemma RelistedModules(xs: seq<Definition>, ys: seq<Definition>)
    requires multiset(xs) == multiset(ys) && DistinctModules(xs)
    ensures DistinctModules(ys) && forall d :: d in xs <==> d in ys
  {
    NoRepeats(xs, ys);
    forall i, j | 0 <= i < j < |ys| ensures ys[i].name != ys[j].name {
      assert ys[i] in xs && ys[j] in xs;
    }
  }

  /** Relisting a catalog in another order keeps acceptance and the index. */
  lemma RelistedCatalog(a: Catalog, b: Catalog)
    requires multiset(a.stages) == multiset(b.stages) && multiset(a.modules) == multiset(b.modules)
    requires WellFormed(a)
    ensures WellFormed(b) && IndexOf(a) == IndexOf(b)
  {
    RelistedStages(a.stages, b.stages);
    RelistedModules(a.modules, b.modules);
    IndexDependsOnlyOnSets(a, b);
  }

  /** The error names a defect that is really in the catalog. */
  ghost predicate Explains(cat: Catalog, e: PlanError) {
    var ix := IndexOf(cat);
    match e
    case UnnamedStage => exists i :: 0 <= i < |cat.stages| && cat.stages[i].name == ""
    case DuplicateStage(n) => exists i, j :: 0 <= i < j < |cat.stages| && cat.stages[i].name == cat.stages[j].name == n
    case DuplicateStageOrder(o) => exists i, j :: 0 <= i < j < |cat.stages| && cat.stages[i].order == cat.stages[j].order == o
    case NoStages => cat.stages == []
    case DuplicateModule(n) => exists i, j :: 0 <= i < j < |cat.modules| && cat.modules[i].name == cat.modules[j].name == n
    case UnknownStage(n, s) => exists d :: d in cat.modules && d.name == n && d.stage == s && s !in ix.stages
    case UnsupportedRuntime(n, r) => r.Other? && exists d :: d in cat.modules && d.name == n && d.runtime == r
    case UnknownDependency(n, m) => m !in ix.modules && exists d :: d in cat.modules && d.name == n && m in d.dependsOn
    case LaterDependency(n, m) =>
      exists d :: d in cat.modules && d.name == n && m in d.dependsOn && d.stage in ix.stages
        && m in ix.modules && !NoLater(ix, m, ix.stages[d.stage].order)
    case UnknownGate(s, m) => m !in ix.modules && exists g :: g in cat.stages && g.name == s && m in g.dependsOn
    case LaterGate(s, m) =>
      exists g :: g in cat.stages && g.name == s && m in g.dependsOn && m in ix.modules && !NoLater(ix, m, g.order)
    case ExcludedDependency(_, _) => false
    case DependencyCycle => false
  }

  method IndexStages(cat: Catalog) returns (r: Result<map<Name, Stage>>)
    ensures r.Success? <==> cat.stages != [] && DistinctStages(cat.stages)
    ensures r.Success? ==> r.value == StageMap(cat.stages)
    ensures r.Failure? ==> Explains(cat, r.error)
  {
    var stageByName: map<Name, Stage> := map[];
    var stageOrder: map<int, Name> := map[];
    for i := 0 to |cat.stages|
      invariant DistinctStages(cat.stages[..i])
      invariant stageByName == StageMap(cat.stages[..i])
      invariant forall n :: n in stageByName <==> exists k :: 0 <= k < i && cat.stages[k].name == n
      invariant forall o :: o in stageOrder <==> exists k :: 0 <= k < i && cat.stages[k].order == o
    {
      var stage := cat.stages[i];
      if stage.name == "" { return Failure(UnnamedStage); }
      if stage.name in stageByName { return Failure(DuplicateStage(stage.name)); }
      if stage.order in stageOrder { return Failure(DuplicateStageOrder(stage.order)); }
      stageByName := stageByName[stage.name := stage];
      stageOrder := stageOrder[stage.order := stage.name];
      assert cat.stages[..i + 1][..i] == cat.stages[..i];
    }
    assert cat.stages[..|cat.stages|] == cat.stages;
    if |cat.stages| == 0 { return Failure(NoStages); }
    return Success(stageByName);
  }

  method IndexModules(cat: Catalog) returns (r: Result<map<Name, Definition>>)
    ensures r.Success? <==> DistinctModules(cat.modules)
    ensures r.Success? ==> r.value == ModuleMap(cat.modules)
    ensures r.Failure? ==> Explains(cat, r.error)
  {
    var byName: map<Name, Definition> := map[];
    for i := 0 to |cat.modules|
      invariant DistinctModules(cat.modules[..i])
      invariant byName == ModuleMap(cat.modules[..i])
      invariant forall n :: n in byName <==> exists k :: 0 <= k < i && cat.modules[k].name == n
    {
      var definition := cat.modules[i];
      if definition.name in byName { return Failure(DuplicateModule(definition.name)); }
      byName := byName[definition.name := definition];
      assert cat.modules[..i + 1][..i] == cat.modules[..i];
    }
    assert cat.modules[..|cat.modules|] == cat.modules;
    return Success(byName);
  }

  /** The first listed dependency that is unknown or declared in a later stage, if any. */
  method FirstBadDependency(ix: Index, names: seq<Name>, level: int) returns (bad: seq<Name>)
    ensures bad == [] <==> forall n :: n in names ==> NoLater(ix, n, level)
    ensures bad != [] ==> bad[0] in names && !NoLater(ix, bad[0], level)
  {
    for i := 0 to |names|
      invariant forall k :: 0 <= k < i ==> NoLater(ix, names[k], level)
    {
      if !NoLater(ix, names[i], level) { return [names[i]]; }
    }
    return [];
  }

  method CheckModules(cat: Catalog, ix: Index) returns (r: Result<()>)
    requires ix == IndexOf(cat)
    ensures r.Success? <==> forall d :: d in cat.modules ==> ModuleOk(ix, d)
    ensures r.Failure? ==> Explains(cat, r.error)
  {
    for i := 0 to |cat.modules|
      invariant forall k :: 0 <= k < i ==> ModuleOk(ix, cat.modules[k])
    {
      var definition := cat.modules[i];
      assert definition in cat.modules;
      if definition.stage !in ix.stages { return Failure(UnknownStage(definition.name, definition.stage)); }
      if definition.runtime.Other? { return Failure(UnsupportedRuntime(definition.name, definition.runtime)); }
      var bad := FirstBadDependency(ix, definition.dependsOn, ix.stages[definition.stage].order);
      if bad != [] {
        if bad[0] !in ix.modules { return Failure(UnknownDependency(definition.name, bad[0])); }
        return Failure(LaterDependency(definition.name, bad[0]));
      }
    }
    return Success(());
  }

  method CheckGates(cat: Catalog, ix: Index) returns (r: Result<()>)
    requires ix == IndexOf(cat)
    ensures r.Success? <==> forall s :: s in cat.stages ==> GateOk(ix, s)
    ensures r.Failure? ==> Explains(cat, r.error)
  {
    for i := 0 to |cat.stages|
      invariant forall k :: 0 <= k < i ==> GateOk(ix, cat.stages[k])
    {
      var stage := cat.stages[i];
      assert stage in cat.stages;
      var bad := FirstBadDependency(ix, stage.dependsOn, stage.order);
      if bad != [] {
        if bad[0] !in ix.modules { return Failure(UnknownGate(stage.name, bad[0])); }
        return Failure(LaterGate(stage.name, bad[0]));
      }
    }
    return Success(());
  }

  method Validate(cat: Catalog) returns (r: Result<Index>)
    ensures r.Success? <==> WellFormed(cat)
    ensures r.Success? ==> r.value == IndexOf(cat) && ValidIndex(r.value)
    ensures r.Failure? ==> Explains(cat, r.error)
  {
    var stages := IndexStages(cat);
    if stages.Failure? { return Failure(stages.error); }
    var modules := IndexModules(cat);
    if modules.Failure? { return Failure(modules.error); }
    var ix := Index(stages.value, modules.value);
    var checked := CheckModules(cat, ix);
    if checked.Failure? { return Failure(checked.error); }
    checked := CheckGates(cat, ix);
    if checked.Failure? { return Failure(checked.error); }
    WellFormedIndex(cat);
    return Success(ix);
  }
}
