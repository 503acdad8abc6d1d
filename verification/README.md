# Verified model of the workstation repository's hard cores

This project models, in Dafny, the parts of the workstation repository whose correctness cannot be read off one
function, and proves what they are for:

- **Module planner and executor** (`Catalog.dfy`, `Planner.dfy`, `PlanLaws.dfy`, `Executor.dfy`). A staged catalog is validated, a
  request is closed under module dependencies and stage gates, ordered greedily by stage, order and name, and run with
  failure propagation. `Planner.Outcome` gives the result of planning for every catalog, request and exclusion; `PlanLaws`
  says what a plan means in terms of the listed stages and modules.
- **Early-OOM guard** (`Pressure.dfy`, `Candidates.dfy`, `Environment.dfy`, `Reclaim.dfy`, `Guard.dfy`). A pressure
  machine with two stored numbers, a cleaner cooldown that survives crashes, the selection of a victim among open process
  handles, and the audit-before-action protocol of one tick, over whole runs.
- **Memory limiter** (`ParentLinks.dfy`, `Kernel.dfy`, `JobRules.dfy`, `JobLimiter.dfy`). Repeated scans keep job handles, caches and
  error records consistent with a kernel in which processes start, exit and reuse ids between any two calls.
- **Evidence canonicalizer** (`Shape.dfy`, `Sanitizing.dfy`, `Text.dfy`, `Ordering.dfy`, `Canonical.dfy`, `Artifacts.dfy`). A
  bounded shape check, an escaping function, and canonical files that are equal exactly for equal sets of sanitized rows.
  That means equal evidence texts exactly as long as no text contains a literal escape: the escaping does not escape the
  backslash, so a tab and the six characters `\u0009` give the same file, as do null and the empty text.
- **Binary comparison** (`Exporter.dfy`, `ExportLaws.dfy`, `JsonText.dfy`, `ExportReader.dfy`, `BinaryDiff.dfy`). A record exporter with
  nested early exits, its JSON printer and reader, and the runner whose summary a separate validator must accept.
- **Folded stacks and reactive lighting** (`FoldedStacks.dfy`, `Reactive.dfy`). Counting samples by stack, and cached
  lighting state against the ideal picture of all key presses.

Loops and mutable objects of the sources are methods and classes proved against functions and predicates; what the sources
promise is then proved about those as lemmas and preserved invariants.

## What is taken for granted

- Names and other case-insensitive texts stand for their case-folded form, and culture collation is replaced by code-point
  order. Case folding in the stack merger is an arbitrary function.
- Requested module names are in the catalog (parameter validation does this); excluded names need not be.
- A gate in the same stage as the modules it gates is not an edge of the ready test, so gate claims are made only for gates
  of a strictly earlier stage.
- Invoking a module adds some failures or throws; nothing else about it is used.
- Clock readings of the guard are non-negative and monotonic; wall-clock readings for the cleaner cooldown are arbitrary.
  Percentages, seconds and scores are real numbers; a score may also be not finite.
- Replacing the stamp file leaves its old or its new content, nobody else deletes it, and asking whether it exists tells
  the truth. It may become unreadable at any time.
- A tick may find any victim whatever (`Environment.Search`); which one the search really returns is proved in
  `Candidates`. Every other answer of the machine is arbitrary as well.
- In the kernel model, a process is identified by id and creation time, no two live processes share an id, a job
  membership lasts until the process exits, an empty job stays empty, handle numbers are not reused, only the limiter sets
  job limits, and a snapshot lists an id at most once. Everything else may fail or change between two calls: a snapshot may
  end early and miss live processes, and a membership query may fail. A failed query about a process's own job is the one
  that can push an open handle out of the job table (`JobRules.LosesNothing`). Whether a process is critical, and whether
  its command line carries a marker, does not change while it lives, and a held process keeps its id from being reused
  while its command line is read by id.
- A scan tests whether a process is critical before it limits it and before it retries a descendant, but not before it
  attaches the present children of a newly limited process. So a critical process can be put into a job in just that case,
  and is, unless a call about it fails (`JobRules.Inherited`, `JobLimiter.MemoryLimits.Enclose`).
- The retry loop over existing descendants has no creation-time guard, so none is claimed there.
- The terminal-sequence pattern is an arbitrary way of cutting a text into spans.
- An exported line may exceed the reader's length limit, in which case the file is refused
  (`ExportReader.ExportCanBeRefused`). The reader's truncation flag does not report what the exporter dropped, so a
  complete comparison may rest on cut record lists (`BinaryDiff.CompleteRunCanDropRecords`).

## Model

| member | source | states |
|---|---|---|
| Catalogs.Validate | Apply-Workstation.ps1:127-168 | a catalog is accepted exactly when it is well formed; a rejection names a defect that is really there |
| Catalogs.WellFormedMeaning | Apply-Workstation.ps1:127-168 | acceptance in terms of the listed entries: names and stage orders distinct, runtimes supported, and every dependency and gate a declared module of a stage with no higher order |
| Catalogs.IndexStages | Apply-Workstation.ps1:128-137 | accepted exactly when there is a stage and stage names and orders are non-empty and distinct; the first clash is a real one |
| Catalogs.IndexModules | Apply-Workstation.ps1:138-142 | accepted exactly when module names are distinct |
| Catalogs.CheckModules | Apply-Workstation.ps1:143-158 | accepted exactly when every module has a declared stage, a supported runtime and only known dependencies of no later stage |
| Catalogs.CheckGates | Apply-Workstation.ps1:159-168 | accepted exactly when every stage gate is known and in no later stage |
| Catalogs.IndexDependsOnlyOnSets | Apply-Workstation.ps1:127-168 | two duplicate-free listings of the same stages and modules are accepted alike and have the same lookup tables |
| Catalogs.RelistedCatalog | Apply-Workstation.ps1:127-168 | permuting the lists of stages and modules keeps an accepted catalog accepted, with the same tables |
| Catalogs.WellFormedIndex | Apply-Workstation.ps1:134-141 | after acceptance the tables hold exactly the declared entries, each under its own name |
| Planner.Closure | Apply-Workstation.ps1:188-202 | the set is closed under dependencies and gates, contains the seed, and is below every other such set |
| Planner.AddNeeds | Apply-Workstation.ps1:191-200 | one module's missing needs are added, or an excluded need of it is reported, and exactly then |
| Planner.Pass | Apply-Workstation.ps1:190-201 | after a pass every module that was included at its start has its needs included; nothing outside the closure gets in |
| Planner.Close | Apply-Workstation.ps1:188-202 | the repetition ends, succeeds exactly when the least closed set meets no exclusion, and then yields that set |
| Planner.RequestedNames | Apply-Workstation.ps1:173-181 | exactly the default modules under All together with every module named |
| Planner.IncludedSeed | Apply-Workstation.ps1:183-186 | the requested names without the excluded ones, each once |
| Planner.ChaseFindsCycle | Apply-Workstation.ps1:206-215 | in a finite set where every module still waits for another one there is a dependency cycle |
| Planner.StuckMeansCyclic | Apply-Workstation.ps1:215 | when no module is ready although some are left, the cycle error is right |
| Planner.CompleteMeansAcyclic | Apply-Workstation.ps1:204-220 | a complete ordering can exist only without a cycle, so the error is raised whenever there is one |
| Planner.Order | Apply-Workstation.ps1:204-220 | succeeds exactly when the selection has no dependency cycle, and then orders exactly the selection, always choosing the least ready module |
| Planner.DependenciesComeFirst | Apply-Workstation.ps1:206-220 | every selected dependency stands before its dependant |
| Planner.WalksDescend | Apply-Workstation.ps1:204-220 | along any chain of dependencies positions in the order strictly decrease |
| Planner.StagesNeverDecrease | Apply-Workstation.ps1:143-168 | stage orders never decrease along the order, although each choice looks only at ready modules |
| Planner.GreedyUnique | Apply-Workstation.ps1:204-220 | two greedy orders of the same selection agree as far as both go |
| Planner.CompleteListingsAgree | Apply-Workstation.ps1:204-220 | a selection has at most one complete greedy order |
| Planner.Select | Apply-Workstation.ps1:120-225 | the complete outcome: which of the three kinds of failure occurs, or the greedy order of the least closed selection |
| Planner.PlanDependsOnlyOnSets | Apply-Workstation.ps1:173-220 | permuting stages and modules of any catalog, or relisting requests or exclusions, changes neither success, nor the cycle error, nor the plan |
| Planner.PlanIsSound | Apply-Workstation.ps1:183-220 | a plan has no repeats and no excluded module, is the least closed set over the request, has dependencies and earlier-stage gates first and stages in order |
| Planner.GreedyPlanIsSound | Apply-Workstation.ps1:204-220 | every greedy order of a closed selection has all the properties that the executor relies on |
| PlanLaws.PlanMeaning | Apply-Workstation.ps1:173-220 | in terms of the listed stages and modules, a plan holds exactly what the request needs, in the right order, dependencies and earlier-stage gates first |
| PlanLaws.TieBreak | Apply-Workstation.ps1:211-214 | within a stage a module stands behind one of higher order, or of equal order and greater name, only if a dependency of it stands between |
| PlanLaws.OrderIsRight | Apply-Workstation.ps1:204-220 | stage orders never decrease, and within a stage module order and name decide unless a dependency had to be waited for |
| PlanLaws.ClosedIffComplete | Apply-Workstation.ps1:192 | what a module needs is its listed dependencies together with the gates of its declared stage |
| PlanLaws.DependenciesAreFirst | Apply-Workstation.ps1:204-220 | listed dependencies and gates of earlier stages stand before the module |
| Ordering.LessMeans | Apply-Workstation.ps1:214 | names are compared by the first differing character, a beginning coming first |
| Executor.RunIsDetermined | Apply-Workstation.ps1:676-697 | the rule leaves only one possible list of statuses |
| Executor.Execute | Apply-Workstation.ps1:671-697 | every entry reached is invoked, failed or skipped by the stated rule; the failure list is exactly the contributions of the entries in order and is empty exactly when all succeeded; a throw ends the run at the entry that threw |
| Executor.RunEntry | Apply-Workstation.ps1:676-697 | one round keeps statuses, failed stages, invoked modules and the failure list in step with the run so far |
| Executor.Attempt | Apply-Workstation.ps1:677-696 | a blocked entry is skipped and reports exactly the failed earlier stages or exactly the unsucceeded dependencies; any other entry is judged by whether its invocation added failures |
| Executor.SkippedIffRootCause | Apply-Workstation.ps1:676-696 | a module is skipped exactly when a failed module is in an earlier stage or is reachable along its dependencies |
| Executor.SkippedHasRootCause | Apply-Workstation.ps1:677-690 | following skipped dependencies back always ends at a module that failed |
| Executor.RootCauseSkips | Apply-Workstation.ps1:683-690 | a failure skips everything that depends on it, however indirectly |
| Executor.SkippedCauseIsNoLater | Apply-Workstation.ps1:677-690 | every skipped module has a failed cause in a stage no later than its own |
| Executor.InvokedOnlyWhenSafe | Apply-Workstation.ps1:677-694 | when a module is invoked all its dependencies, all its earlier-stage gates and every module of an earlier stage have succeeded |
| Pressure.PressureMeaning | scripts/memory-limits/EarlyOom.cs:73-78 | pressure in byte counts: headroom at most the emergency share of the commit limit, or both available memory and headroom at most their shares |
| Pressure.PressureIsMonotone | scripts/memory-limits/EarlyOom.cs:73-78 | less available memory or more committed memory never ends pressure |
| Pressure.RunStartMeaning | scripts/memory-limits/EarlyOom.cs:82-83 | the stored start is the time of the earliest sample of the unbroken pressured run, and the sentinel means that there is none |
| Pressure.LastActionMeaning | scripts/memory-limits/EarlyOom.cs:84-87 | the stored action time is the latest action ever taken |
| Pressure.MachineMatchesHistory | scripts/memory-limits/EarlyOom.cs:79-86 | comparing the two stored numbers decides sustain and cooldown as the whole history does |
| Pressure.PressureDecision.constructor | scripts/memory-limits/EarlyOom.cs:71-72 | a fresh decision has an empty history |
| Pressure.PressureDecision.Evaluate | scripts/memory-limits/EarlyOom.cs:79-86 | the answer is the whole-history verdict on the history extended by this sample; invalid telemetry raises and changes nothing |
| Pressure.PressureDecision.ActionTaken | scripts/memory-limits/EarlyOom.cs:87 | extends the history by an action |
| Pressure.PressureDecision.ResetPressure | scripts/memory-limits/EarlyOom.cs:88 | extends the history by a reset |
| Pressure.ActionsAreSpaced | scripts/memory-limits/EarlyOom.cs:79-87 | two actions are at least the cooldown and at least the sustain time apart |
| Pressure.SpacingMeaning | scripts/memory-limits/EarlyOom.cs:84-85 | the spacing is the longer of cooldown and sustain time |
| Pressure.ActionsInWindow | scripts/memory-limits/EarlyOom.cs:79-87 | n actions span at least n-1 such spacings |
| Candidates.EligibleMeaning | scripts/memory-limits/EarlyOom.cs:241-259 | a process is eligible exactly when it is a big enough, ordinary process of a user session, not below the Windows directory however that is written, and not a file of an excluded name in any directory |
| Candidates.ReasonMeaning | scripts/memory-limits/EarlyOom.cs:241-259 | the reason given is the first, in their precedence, of those that apply to the process by themselves |
| Candidates.BelowIff | scripts/memory-limits/EarlyOom.cs:254-255 | the prefix test with trimmed separators decides whether a path lies below a directory, whatever separators the directory ends in |
| Candidates.StricterPolicyShrinks | scripts/memory-limits/EarlyOom.cs:256-257 | excluding more names or raising the minimum never makes another process eligible |
| Candidates.FileNameIsTail | scripts/memory-limits/EarlyOom.cs:256 | the compared file name is the longest separator-free tail of the path |
| Candidates.CountsAddUp | scripts/memory-limits/EarlyOom.cs:288-302 | eligible entries and the counts of all exclusion reasons add up to the snapshot |
| Candidates.RankingIsStableSort | scripts/memory-limits/EarlyOom.cs:288-302 | the inspection order is descending by private bytes, loses nothing and keeps snapshot order on ties |
| Candidates.InsertRankedStable | scripts/memory-limits/EarlyOom.cs:288-302 | inserting keeps, for every size, the earlier entries of that size before the new one |
| Candidates.InsertRankedDescends | scripts/memory-limits/EarlyOom.cs:288-302 | inserting keeps the ranking descending |
| Candidates.BestIsFirstRanked | scripts/memory-limits/EarlyOom.cs:303-322 | the running maximum of the selection loop is the head of the inspection ranking |
| Candidates.Consider | scripts/memory-limits/EarlyOom.cs:303-322 | on every path all opened handles but the best one's are closed exactly once; an exception closes that one too |
| Candidates.FindCandidate | scripts/memory-limits/EarlyOom.cs:303-322 | returns the head of the ranking or nothing when it is empty, raises exactly when a query does, and leaves open exactly the handle the result owns |
| Candidates.ReadEntry | scripts/memory-limits/EarlyOom.cs:288-302 | an inspected entry's handle is closed exactly once whether or not the query raises |
| Candidates.InspectCandidates | scripts/memory-limits/EarlyOom.cs:288-302 | returns the ranking of all eligible entries and the exact count per reason, and leaves no handle open |
| Candidates.VictimHeadsRanking | scripts/memory-limits/EarlyOom.cs:288-322 | the victim is a largest eligible process, the earliest of that size, and there is none exactly when none is eligible |
| Reclaim.MemoryReclaimer.constructor | scripts/memory-limits/EarlyOom.cs:99-112 | remembers the stamp; an unreadable one is remembered as invalid |
| Reclaim.MemoryReclaimer.BeforeTermination | scripts/memory-limits/EarlyOom.cs:113-141 | memory and stamp file change as the crash model's step says; it skips exactly while suppressed, the stamp is in place before a launch, every effect is audited first, and failures return no reading |
| Reclaim.StepKeepsGuarded | scripts/memory-limits/EarlyOom.cs:99-141 | starts, calls, crashes at any point and damage keep every remembered or stored time at or after all launches |
| Reclaim.LaunchesAreSpaced | scripts/memory-limits/EarlyOom.cs:99-141 | in every interleaving, for any clock, a launch is at least its cooldown later than every earlier launch |
| Reclaim.LaunchesAreMinutesApart | scripts/memory-limits/EarlyOom.cs:99-141 | in every run, two launches are at least the configured minutes apart |
| Reclaim.LaunchMeaning | scripts/memory-limits/EarlyOom.cs:113-131 | the cleaner is launched exactly in Enforce mode with the option on, a trusted stamp at least the configured minutes old, an audited request and a replaced stamp |
| Reclaim.UnreadableSuppresses | scripts/memory-limits/EarlyOom.cs:103-121 | once the stamp is unreadable and no process trusts it, no call, crash, restart or damage ever launches the cleaner again |
| Reclaim.DistrustLasts | scripts/memory-limits/EarlyOom.cs:109-121 | a process that has lost trust in the stamp never launches the cleaner, even if the stamp is readable |
| Reclaim.FailureSilencesProcess | scripts/memory-limits/EarlyOom.cs:103-131 | a stamp that cannot be read at start or cannot be replaced before a launch silences the running process |
| Guard.EarlyOomGuard.constructor | scripts/memory-limits/EarlyOom.cs:171-172 | a new guard starts with an empty run, on whatever stamp file an earlier process left, as the crash model's start does |
| Guard.EarlyOomGuard.Sense | scripts/memory-limits/EarlyOom.cs:189-197 | reads, answers with the whole-history verdict on exactly that reading, and audits every change of answer and every due heartbeat; a failed audit raises |
| Guard.EarlyOomGuard.Relieve | scripts/memory-limits/EarlyOom.cs:201-216 | goes on to a victim exactly when both readings succeed and still show pressure; the crash model takes at most one step, and the pressure run starts anew exactly when pressure went only after reclaiming |
| Guard.EarlyOomGuard.Clean | scripts/memory-limits/EarlyOom.cs:205-210 | the reclaim call is one step of the crash model and keeps the cooldown guarded |
| Guard.EarlyOomGuard.Confront | scripts/memory-limits/EarlyOom.cs:220-232 | one re-check after the other, each with its row; raises exactly through a failed reading, query or request row |
| Guard.TerminatesIff | scripts/memory-limits/EarlyOom.cs:220-229 | the victim is terminated exactly outside Observe mode, under renewed pressure, if it is still the same eligible process and the request row is written |
| Guard.EarlyOomGuard.Strike | scripts/memory-limits/EarlyOom.cs:217-233 | search, confront and release, with a victim always released; raises exactly through one of its effects |
| Guard.EarlyOomGuard.Engage | scripts/memory-limits/EarlyOom.cs:201-233 | Observe mode goes straight to a victim, Enforce mode relieves first and strikes unless that sufficed; the crash model takes at most one step |
| Guard.EarlyOomGuard.Act | scripts/memory-limits/EarlyOom.cs:198-233 | the action is recorded before anything else, the tick's effects are safe, and it raises exactly through one of them |
| Guard.EarlyOomGuard.Tick | scripts/memory-limits/EarlyOom.cs:187-234 | one reading and verdict; the victim protocol runs exactly on Ready; it raises exactly if its trace holds an exception; the tick joins a run in which every termination is justified, and all cleaner launches so far keep their cooldown |
| Guard.EarlyOomGuard.Iterate | scripts/memory-limits/MemoryLimits.cs:101-104 | a tick whose trace holds an exception leaves a reset at the end of the decision history; the run stays good and cleaner launches keep their cooldown |
| Guard.EarlyOomGuard.SurvivesCrash | scripts/memory-limits/EarlyOom.cs:99-141 | however the process ends, even while stamping, the next guard may start on the stamp file it leaves |
| Guard.ReliefIsSafe | scripts/memory-limits/EarlyOom.cs:201-216 | relief touches no process and launches the cleaner at most once, after a pressured reading and an audit row |
| Guard.ConfrontIsSafe | scripts/memory-limits/EarlyOom.cs:217-233 | one victim, one termination at most, right after fresh pressure, an eligible re-read with the same creation time and an audit row |
| Guard.WholeTickIsSafe | scripts/memory-limits/EarlyOom.cs:187-234 | the parts of a tick compose: at most one termination and one launch, each justified inside the tick |
| Guard.HarmfulTicksAreSpaced | scripts/memory-limits/EarlyOom.cs:187-234 | over any run, n ticks that terminate or reclaim span at least n-1 spacings |
| Guard.HarmfulPairIsSpaced | scripts/memory-limits/EarlyOom.cs:187-234 | two acting ticks are at least the longer of cooldown and sustain time apart |
| Guard.OnlyEnforceActs | scripts/memory-limits/EarlyOom.cs:189-222 | outside Enforce mode no tick of any run terminates or reclaims |
| ParentLinks.Descendant | scripts/memory-limits/MemoryLimits.cs:236-246 | ends on every parent map and answers reachability along parent links, cyclic maps included |
| ParentLinks.ChainRepeats | scripts/memory-limits/MemoryLimits.cs:236-246 | once a chain revisits a process it never leaves the processes already seen |
| ParentLinks.Depth | scripts/memory-limits/MemoryLimits.cs:229-235 | ends on every parent map with the number of links before a repeat or a missing parent, at most 100 |
| ParentLinks.DepthBelowParent | scripts/memory-limits/MemoryLimits.cs:229-235 | off every cycle a process lies one level below its present parent, up to 100 |
| ParentLinks.ParentsFirst | scripts/memory-limits/MemoryLimits.cs:173-174 | in depth order a parent of depth below 100 is visited before its children off cycles |
| JobLimiter.SortByDepth | scripts/memory-limits/MemoryLimits.cs:174 | the visiting order holds every entry once and is ordered by depth |
| JobLimiter.MemoryLimits.constructor | scripts/memory-limits/MemoryLimits.cs:32-42 | a new limiter owns no job |
| JobLimiter.MemoryLimits.InManagedJob | scripts/memory-limits/MemoryLimits.cs:132-139 | a positive answer means membership; a negative one, that the query about every job the process was in has failed or that it has exited |
| JobLimiter.MemoryLimits.PruneJobs | scripts/memory-limits/MemoryLimits.cs:145-148 | only empty jobs are dropped, every job that was empty at the start is, each is closed once, and what the cache records stays justified |
| JobLimiter.MemoryLimits.PruneCaches | scripts/memory-limits/MemoryLimits.cs:149-151 | keeps exactly the records about process ids of the snapshot |
| JobLimiter.MemoryLimits.Target | scripts/memory-limits/MemoryLimits.cs:115-131 | a name on the list always counts, an interpreter if its command line carries a marker; if that cannot be read it does not count |
| JobLimiter.MemoryLimits.AttachDescendant | scripts/memory-limits/MemoryLimits.cs:160-170 | afterwards the child is in a managed job, or has an error because it is critical or a call about it failed; a critical one is never assigned |
| JobLimiter.MemoryLimits.RetryJob | scripts/memory-limits/MemoryLimits.cs:157-171 | every snapshot entry below a member of the job ends up managed, or refused with a cause |
| JobLimiter.MemoryLimits.RetryDescendants | scripts/memory-limits/MemoryLimits.cs:154-172 | the same for every job that limits a tree; jobs that limit single processes are passed over |
| JobLimiter.MemoryLimits.AttachChild | scripts/memory-limits/MemoryLimits.cs:205-215 | the child, critical or not, joins the job, or is older than the job's process, or a call about it failed |
| JobLimiter.MemoryLimits.AttachChildren | scripts/memory-limits/MemoryLimits.cs:203-216 | the same for every present descendant of a newly limited process |
| JobLimiter.MemoryLimits.Confine | scripts/memory-limits/MemoryLimits.cs:191-202 | the new job is owned and holds the process with the limit mode of its executable, pushing out exactly an existing handle of that job; or its handle is closed again and jobs and caches are unchanged |
| JobLimiter.MemoryLimits.Enclose | scripts/memory-limits/MemoryLimits.cs:190-219 | an uncritical target without a job gets one under its own name, with the mode of its executable; its present descendants, critical ones included, join unless single processes are limited |
| JobLimiter.MemoryLimits.Limit | scripts/memory-limits/MemoryLimits.cs:187-202 | a critical target is refused and recorded, and any other one is put in a job unless a call about it fails |
| JobLimiter.MemoryLimits.Decide | scripts/memory-limits/MemoryLimits.cs:186-202 | only a target is limited, and any other process is judged no target |
| JobLimiter.MemoryLimits.Inspect | scripts/memory-limits/MemoryLimits.cs:181-219 | a held process is skipped only if settled before for this very creation time; afterwards it is settled, or refused because it is critical or a call about it failed |
| JobLimiter.MemoryLimits.Examine | scripts/memory-limits/MemoryLimits.cs:176-226 | after its turn every matching surviving process of an entry is managed, judged no target, or refused with a cause |
| JobLimiter.MemoryLimits.Scan | scripts/memory-limits/MemoryLimits.cs:141-228 | keeps names one-to-one with open handles and caches honest; every assignment is of an uncritical target or of a process below another, every new error has a cause, and a matching survivor about which no call failed is managed or judged no target unless it is critical; descendants of tree jobs are rejoined |
| JobLimiter.MemoryLimits.RecoverJobs | scripts/memory-limits/MemoryLimits.cs:77-93 | for any saved list all invariants hold afterwards; a list without repetitions loses no handle, and one of rooted jobs leaves the jobs rooted |
| JobLimiter.MemoryLimits.RecoverOne | scripts/memory-limits/MemoryLimits.cs:85-91 | a reopened job takes the mode of the executable that now has its process id, and keeps its mode if there is none; a name listed twice pushes out the first handle |
| JobRules.RestartIsRooted | scripts/memory-limits/MemoryLimits.cs:250 | the job names saved by a limiter whose jobs are rooted are rooted at any later start |
| JobLimiter.MemoryLimits.CloseAll | scripts/memory-limits/MemoryLimits.cs:55-61 | at stop every handle ever opened has been closed exactly once, except the lost ones |
| JobRules.JobAdded | scripts/memory-limits/MemoryLimits.cs:199-202 | adding the new job keeps every invariant, settles its process and accounts for a handle it replaces |
| JobRules.ConfinedLosesNothing | scripts/memory-limits/MemoryLimits.cs:182-202 | a new job replaces a live handle only after a wrong negative membership answer, and that takes a failed query about the process's own job |
| JobRules.DroppingEmptyJob | scripts/memory-limits/MemoryLimits.cs:145-148 | an empty job supports no cached conclusion, so dropping it invalidates none |
| Shape.CheckDocument | linux/malware-analysis/evidence_ingest.py:67-107 | accepts exactly the documents whose height, node count, strings and keys are within bounds, with at most max_records + 1 calls on any input |
| Shape.ValidateShape | linux/malware-analysis/evidence_ingest.py:67-107 | the same for a nested value with a shared counter, which then has grown by exactly the value's nodes |
| Shape.ValidateMembers | linux/malware-analysis/evidence_ingest.py:84-97 | the same for the members of an object |
| Shape.ValidateItems | linux/malware-analysis/evidence_ingest.py:98-107 | the same for the items of a list |
| Shape.KeyBound | linux/malware-analysis/evidence_ingest.py:86 | a key may have 128 characters and no more |
| Sanitizing.SanitizeIsEscape | linux/malware-analysis/evidence_ingest.py:117-122 | whatever the pattern matches, sanitizing is character-wise escaping, is idempotent, and leaves no control or bidirectional character |
| Sanitizing.EscapeIgnoresSpans | linux/malware-analysis/evidence_ingest.py:117-122 | escaping matched spans first makes no difference |
| Sanitizing.UnchangedIffClean | linux/malware-analysis/evidence_ingest.py:110-122 | exactly the texts without such characters pass through unchanged |
| Sanitizing.NeedsEscapeMeaning | linux/malware-analysis/evidence_ingest.py:110-114 | exactly control characters and bidirectional controls are escaped |
| Sanitizing.EscapeNamesCharacter | linux/malware-analysis/evidence_ingest.py:110-114 | an escape names the code point of its character in four hexadecimal digits |
| Sanitizing.EscapeLosesOnlyLiterals | linux/malware-analysis/evidence_ingest.py:110-122 | decoding the sanitized text gives the original back exactly when the original contains no literal escape |
| Sanitizing.EscapeKeepsApart | linux/malware-analysis/evidence_ingest.py:110-122 | texts without literal escapes have equal sanitized forms only if they are equal |
| Sanitizing.LiteralsCollide | linux/malware-analysis/evidence_ingest.py:110-122 | every text with a literal escape has the same sanitized form as another text that has none |
| Canonical.FileParsesBack | linux/malware-analysis/evidence_ingest.py:283-285 | a canonical file parses back to exactly the rows written, each line once and in order |
| Canonical.FilesEqualIffSameRows | linux/malware-analysis/evidence_ingest.py:283-285 | two canonical files are equal exactly when they hold the same set of rows |
| Canonical.EqualFilesMeanEqualEvidence | linux/malware-analysis/evidence_ingest.py:110-122 | as long as no text contains a literal escape, equal files mean equal sets of evidence rows |
| Canonical.LiteralRowsCollide | linux/malware-analysis/evidence_ingest.py:110-122 | a row with a literal escape always shares its file with another row |
| Canonical.RecordFilesEqualIffSameEvidence | linux/malware-analysis/evidence_ingest.py:329-361 | two snapshot or handle files without literal escapes are equal exactly when the records have the same set of field texts |
| Canonical.TextsTellValuesOfOneKindApart | linux/malware-analysis/evidence_ingest.py:272-280 | the text of a value does not show its kind, but tells values of one kind apart |
| Canonical.DifferentEvidenceSameFile | linux/malware-analysis/evidence_ingest.py:272-285 | a tab and its literal escape, null and the empty text, a truth value and its name: pairs of different records with the same file |
| Canonical.ScalarForCanonical | linux/malware-analysis/evidence_ingest.py:272-280 | a value is representable exactly when it is a scalar whose text is short enough |
| Canonical.ScalarIsEscaped | linux/malware-analysis/evidence_ingest.py:272-280 | the field written is the escaped text of the value, and clean |
| Canonical.ScalarTexts | linux/malware-analysis/evidence_ingest.py:272-280 | the texts of null, truth values, numbers and strings; containers have none |
| Canonical.GetMeaning | linux/malware-analysis/evidence_ingest.py:337 | in a record without repeated keys, looking up a field finds the value held under it wherever it stands, and null exactly for a missing field |
| Canonical.RowShows | linux/malware-analysis/evidence_ingest.py:337 | each field of a row is the escaped text of the value that the record holds under that field |
| Canonical.CanonicalRow | linux/malware-analysis/evidence_ingest.py:329-338 | a record gives a row exactly when all fields are representable, and the row shows, field by field, the escaped texts of the values it holds |
| Canonical.CanonicalizeSnapshot | linux/malware-analysis/evidence_ingest.py:329-338 | succeeds exactly on loadable lists within the record bound with representable fields, and writes the canonical file of rows that show the records |
| Canonical.LoadJson | linux/malware-analysis/evidence_ingest.py:157-176 | loads exactly the files within the byte limit that parse and pass the shape check |
| Canonical.CanonicalizeHandles | linux/malware-analysis/evidence_ingest.py:341-361 | succeeds exactly when file size, line count, line lengths and records are acceptable, and writes the canonical file of rows that show the records |
| Artifacts.EnumerateArtifacts | linux/malware-analysis/evidence_ingest.py:235-269 | succeeds exactly within the count and total-size bounds, with one record per file that is hashed unless oversized |
| Artifacts.OpaqueRowMeaning | linux/malware-analysis/evidence_ingest.py:448-464 | the line of an unparsed artifact shows its escaped path, size, digest and state although the path is escaped twice |
| Artifacts.OpaqueRowsContents | linux/malware-analysis/evidence_ingest.py:448-464 | exactly the artifacts that no schema covers get a line, and every line parses back |
| Artifacts.OpaqueFileParsesBack | linux/malware-analysis/evidence_ingest.py:448-464 | the file is written exactly when every uncovered record is representable, and parses back to exactly their rows |
| Artifacts.OpaqueFilesEqualIffSameRows | linux/malware-analysis/evidence_ingest.py:448-464 | two such files are equal exactly when they list the same rows |
| Artifacts.ListableIff | linux/malware-analysis/evidence_ingest.py:448-464 | the file of enumerated artifacts is written exactly when every uncovered one is representable |
| Artifacts.OpaqueFilesEqualIffSameEvidence | linux/malware-analysis/evidence_ingest.py:235-269 | for paths without literal escapes, two such files are equal exactly when the same paths, sizes and digests are to be shown |
| BinaryDiff.ValidateSummary | linux/malware-analysis/evidence_ingest.py:179-232 | the chain of checks accepts exactly the summaries that satisfy all requirements together; a missing verdict is accepted |
| BinaryDiff.CountsWithinMatches | linux/malware-analysis/entrypoint.py:636-695 | changed and ambiguous matches never outnumber the matches, missing scores included |
| BinaryDiff.CountsMeaning | linux/malware-analysis/entrypoint.py:656-659 | changed matches are those with a similarity below 1, ambiguous ones those with a confidence below one half |
| BinaryDiff.CommandStateMeaning | linux/malware-analysis/entrypoint.py:249-266 | the outcome behind each state of a command |
| BinaryDiff.GhidraStatusesMeaning | linux/malware-analysis/entrypoint.py:544-633 | when each tool of an input is missing, and its state otherwise |
| BinaryDiff.AllowedStatesMeaning | linux/malware-analysis/evidence_ingest.py:179-222 | the validator allows exactly the states a tool can end in |
| BinaryDiff.Sha256Meaning | linux/malware-analysis/evidence_ingest.py:179-222 | a digest is 64 characters that have a hexadecimal value |
| BinaryDiff.ScoreOkMeaning | linux/malware-analysis/evidence_ingest.py:179-222 | a score is missing, or a number from 0 to 1 |
| BinaryDiff.AcceptedInputMeaning | linux/malware-analysis/entrypoint.py:497-506 | an input is a regular file of allowed size whose digest is the expected one up to the case of letters |
| BinaryDiff.FailuresMeaning | linux/malware-analysis/entrypoint.py:936-940 | each incomplete status adds its tool, role or "Comparison", and state, in order |
| BinaryDiff.ExportedIffComplete | linux/malware-analysis/entrypoint.py:530-633 | an input's two statuses are both complete exactly when tools, script, runs and files were all there |
| BinaryDiff.GatheredComplete | linux/malware-analysis/entrypoint.py:849-934 | every recorded state is an allowed one, and all are complete exactly when every step was |
| BinaryDiff.Compare | linux/malware-analysis/entrypoint.py:870-914 | the comparison is complete only with a readable database, there are metrics exactly in that case, and only an unexpected exception escapes |
| BinaryDiff.BuildSidecar | linux/malware-analysis/entrypoint.py:715-839 | the sidecar is complete exactly when both record files exist and were read to their end and stored and the projection was not cut; a cut is only reported for files that exist |
| BinaryDiff.SummaryReports | linux/malware-analysis/entrypoint.py:936-966 | the assembled summary is accepted exactly when its scores are valid; status, counts, truncation and failures agree with what happened |
| BinaryDiff.RunBinaryDiff | linux/malware-analysis/entrypoint.py:842-982 | any finished summary is accepted if the scores read are finite and in [0,1]; it is complete exactly when every step succeeded and all that the exporters wrote was read; no summary exactly for rejected inputs or an unexpected exception |
| BinaryDiff.CompleteHoldsAllRecords | linux/malware-analysis/entrypoint.py:698-839 | a complete summary stands for all records of both programs exactly when neither has more than the record bound |
| BinaryDiff.CompleteRunCanDropRecords | linux/malware-analysis/entrypoint.py:698-839 | for every record bound there is a complete, untruncated run whose exports each dropped a record |
| BinaryDiff.AddressesJoin | linux/malware-analysis/entrypoint.py:490-494 | a signed and an unsigned 64-bit address agree exactly when they are the same bit pattern |
| JsonText.PrintString | scripts/ExportGhidraAnalysis.java:25-43 | null, or the literal of the text cut to the bound |
| JsonText.CutMeaning | scripts/ExportGhidraAnalysis.java:27 | cutting keeps the longest beginning within the bound |
| JsonText.QuotedReads | scripts/ExportGhidraAnalysis.java:25-43 | a printed literal reads back, by section 7 of RFC 8259, to the printed text whatever follows |
| JsonText.PrintedHasNoControls | scripts/ExportGhidraAnalysis.java:28-41 | a printed literal holds no control character |
| JsonText.PrintedObjectReads | scripts/ExportGhidraAnalysis.java:88-129 | a printed record reads back to its members |
| JsonText.MembersStayOnOneLine | scripts/ExportGhidraAnalysis.java:58-63 | a printed record is one line |
| JsonText.LongerIsNoObject | linux/malware-analysis/entrypoint.py:708 | a proper beginning of an object is never itself an object |
| Exporter.Exporter.Emit | scripts/ExportGhidraAnalysis.java:58-63 | the file holds the first max_records of the records passed so far |
| Exporter.Exporter.ExportReferences | scripts/ExportGhidraAnalysis.java:104-113 | advances along the call records, stopping only at the bound |
| Exporter.Exporter.ExportInstructions | scripts/ExportGhidraAnalysis.java:97-115 | advances along instructions and their calls, stopping only at the bound or on cancellation |
| Exporter.Exporter.ExportBlocks | scripts/ExportGhidraAnalysis.java:116-131 | the same along blocks and their edges; nothing after a stop |
| Exporter.Exporter.ExportFunction | scripts/ExportGhidraAnalysis.java:82-132 | the same along one function, even if its instructions stopped early and its blocks are still tried |
| Exporter.Exporter.Run | scripts/ExportGhidraAnalysis.java:66-136 | without cancellation the file holds exactly the first max_records of the unbounded traversal; with it, a prefix of them |
| ExportLaws.FunctionMeaning | scripts/ExportGhidraAnalysis.java:88-95 | which part of a function each key of its line holds, decompiled or not |
| ExportLaws.MembersMeaning | scripts/ExportGhidraAnalysis.java:100-129 | which part of an instruction, call, block or edge each key of its line holds |
| ExportReader.ReadRecords | linux/malware-analysis/entrypoint.py:698-712 | the first bad line among the first max_records decides the error; otherwise their records, an unterminated last line included, and the flag exactly for further lines |
| ExportReader.TooLongMeaning | linux/malware-analysis/entrypoint.py:706 | a line is too long when its UTF-8 bytes, counted from its characters, exceed eight times the string bound |
| ExportReader.LineReads | linux/malware-analysis/entrypoint.py:698-712 | an exported line reads back to its record's members |
| ExportReader.ExportReadsBack | linux/malware-analysis/entrypoint.py:698-712 | reading under the same bounds returns every record written, in order, exactly when all lines fit; otherwise the file is refused as too long |
| ExportReader.TruncationGoesUnreported | linux/malware-analysis/entrypoint.py:698-712 | whatever the exporter dropped, a file that is read is never reported as truncated; it holds all records exactly when there were at most max_records |
| ExportReader.ReadIsDetermined | linux/malware-analysis/entrypoint.py:698-712 | a file gives only one result |
| ExportReader.CutRecordIsNoticed | linux/malware-analysis/entrypoint.py:698-712 | a file that stops inside a record within the bound is refused |
| ExportReader.ExportCanDrop | scripts/ExportGhidraAnalysis.java:58-63 | for every record bound there is a program whose export fits, reads back, and lacks a record |
| ExportReader.ExportCanBeRefused | scripts/ExportGhidraAnalysis.java:25-63 | for every string bound there is a record whose exported line the reader refuses under the same bound |
| FoldedStacks.CleanSegmentIsPlain | tools/NativeCpuStacks/Program.cs:27-35 | a cleaned segment is never empty and holds no separator or line break |
| FoldedStacks.CleanSegmentMeaning | tools/NativeCpuStacks/Program.cs:27-35 | cleaning trims white space at both ends, replaces separators and line breaks, and changes nothing else |
| FoldedStacks.SelectionMeaning | tools/NativeCpuStacks/Program.cs:81-112 | without a filter every sample is selected; a window admits what lies inside it, a process filter what matches by id or name |
| FoldedStacks.ProcessMeaning | tools/NativeCpuStacks/Program.cs:107-108 | where process name and id of a sample come from, and what stands for missing ones |
| FoldedStacks.IntTextMeaning | tools/NativeCpuStacks/Program.cs:121 | the printed process id reads back to the id |
| FoldedStacks.ModulesMergeRuns | tools/NativeCpuStacks/Program.cs:121-131 | no two neighbouring segments name the same module ignoring case, and every frame's module is listed |
| FoldedStacks.BuildSegments | tools/NativeCpuStacks/Program.cs:121-131 | the segments are process first, then the merged modules from the outermost frame inwards |
| FoldedStacks.CountSample | tools/NativeCpuStacks/Program.cs:98-134 | a sample is dropped, counted as without stack, or counted under its key, exactly one of these |
| FoldedStacks.Aggregate | tools/NativeCpuStacks/Program.cs:93-135 | the dictionary counts every key's occurrences; counted samples and samples without stacks add up to the selected ones |
| FoldedStacks.SortedEntries | tools/NativeCpuStacks/Program.cs:138-144 | whatever order the dictionary enumerates in, each key is listed once in the output order and the counts sum to the counted samples |
| FoldedStacks.KeysOfPermutation | tools/NativeCpuStacks/Program.cs:96-135 | permuting the samples permutes the keys |
| FoldedStacks.OutputOfPermutation | tools/NativeCpuStacks/Program.cs:93-144 | permuting the samples leaves the output the same |
| FoldedStacks.EntryLineParses | tools/NativeCpuStacks/Program.cs:133-142 | a printed line parses back to its segments and its count |
| FoldedStacks.WriteFolded | tools/NativeCpuStacks/Program.cs:93-144 | larger counts come first, equal ones in code-point order; printed counts plus samples without stacks equal the selected samples, and each line reads back to the segments of some sample and its count |
| Reactive.ParsedColorsAreReal | scripts/razer-rgb/RazerReactive.cs:199 | a parsed color is never the marker for "nothing sent", and parsing twice gives 24-bit colors back |
| Reactive.SwappedBytes | scripts/razer-rgb/RazerReactive.cs:199 | the three bytes of a parsed color: red and blue change places and green stays |
| Reactive.MatchesMeaning | scripts/razer-rgb/RazerReactive.cs:94 | a key lights the LED named after it, and the backslash key the two other names of that LED |
| Reactive.DeadlineDecides | scripts/razer-rgb/RazerReactive.cs:93 | one stored deadline decides whether any matching press of the whole history is recent |
| Reactive.DeadlineAfterPress | scripts/razer-rgb/RazerReactive.cs:181-186 | restarting the deadline on a matching press keeps it the deadline of the latest one |
| Reactive.Device.KeyPressed | scripts/razer-rgb/RazerReactive.cs:184-186 | every LED's deadline belongs to the press history extended by this press |
| Reactive.Device.Render | scripts/razer-rgb/RazerReactive.cs:151-155 | after a successful send the last frame is the ideal one; a frame is sent exactly if there was none before or the ideal one differs, so consecutive frames differ |
| Reactive.ReactiveWindow.KeyDown | scripts/razer-rgb/RazerReactive.cs:181-186 | a press reaches every connected device and is ignored without a connection |
| Reactive.ReactiveWindow.Connect | scripts/razer-rgb/RazerReactive.cs:142-149 | the server is asked for a connection; a new one has only supported devices that have been sent nothing |
| Reactive.ReactiveWindow.Prepare | scripts/razer-rgb/RazerReactive.cs:141-151 | connect without a connection, ask for the controllers again when due, then ask for changes, up to the first refusal |
| Reactive.ReactiveWindow.RenderAll | scripts/razer-rgb/RazerReactive.cs:152-156 | if all sends succeed every device shows the ideal frame |
| Reactive.ReactiveWindow.Tick | scripts/razer-rgb/RazerReactive.cs:137-161 | the server is asked in order and the window ends connected exactly if no answer was a refusal; while connected every device shows the ideal frame for this moment; a lost connection and a failed attempt to connect both wait five seconds |

## Left out

- The module dispatch of the workstation script, its mode and confirmation checks after planning, and the JSON form of a plan.
- Resolution of undeclared or numeric-text stage orders: orders are integers.
- Status texts, log rotation, heartbeats beyond the audit row, and service start-up in the memory-limit service.
- The limit values and flag bits of job objects; only whether a job limits a tree or single processes is kept.
- Closing of process handles inside a scan; job handles are accounted for.
- Exceptions of path normalisation in the exclusion rule; paths are taken as already full.
- Candidates.VictimHeadsRanking: does not connect the search inside a tick to the selection loop, because a tick is proved safe for any victim the search could return.
- Guard.EarlyOomGuard.Tick: the cleaner's exit code and the outcome of the termination call only change the wording of audit rows and are not recorded.
- The reader of exported lines accepts flat objects of strings, natural numbers and null without white space only, not every JSON text; bytes that are not UTF-8 are not modelled.
- SQLite, Ghidra and BinDiff themselves, resource limits of child processes, and the sidecar's tables; their outcomes are inputs.
- The analysis of single samples and its per-tool state precedence, a chain of tests on one tool's outcome.
- File-system resolution, symbolic links, hashing and directory listing in the evidence code: a list of paths, sizes and digests is given.
- The combined report over malware hashes and the per-result table, which repeat the canonical-file pattern.
- Surrogate pairs and UTF-8 decoding; a character is one code point.
- Matching of terminal sequences and of process-name wildcards: an arbitrary cutting of text, and an arbitrary predicate.
- Reactive.ReactiveWindow.KeyDown: uses one clock reading for a press, while the original reads the clock once per LED.
- OpenRGB sockets, raw input, the scan-code table and the window's lifetime.
- The pyinfra deployments, shell scripts, configuration data and documentation.
