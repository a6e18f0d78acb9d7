# A model of the repository's graph, refactoring, scoring and gate logic

This project models seven pieces of Python whose behaviour is decided by the code
alone, and proves what they are for:

- the alembic revision graph: reading and rewriting `down_revision` values, scanning
  a versions directory, walking each unlanded chain to where it forked, and the
  advice that repairs a forked graph (`RhsTokens`, `RhsRewrite`, `RhsRoots`,
  `RevisionScan`, `ScanRules`, `RevisionGraph`, `RemediationCases`, `RepointAdvice`,
  `RepointExample`);
- the module splitter of `ops_split.py`: free-name analysis against Python's scope
  rules (`PythonScopes`, `FreeNames`, `ScopeAgreement`, `ScopeGaps`), the split itself
  (`SplitPlan`, `SplitRefusals`, `SplitImports`, `SplitSources`, `SplitClosure`,
  `SplitOrigins`, `SplitReaders`, `SplitGap`, `SplitToys`, `SplitOversights`), the
  include list (`IncludeList`, `IncludeRules`) and the all-or-nothing write (`ApplyPlan`);
- detection scoring: rectangles as pixel sets, greedy matching and its quality,
  merging and removing boxes (`Boxes`, `StableSort`, `Matching`, `MatchRules`,
  `MatchQuality`, `MatchOptimal`, `BoxGroups`, `BoxRules`, `BoxThreshold`);
- the case-collision gate (`CaseCollisions`, `ModuleStems`, `StemEntries`,
  `CaseRenaming`);
- the exclusion of downgrade-only helpers (`DowngradeClosure`, `HelperRules`);
- the range compressor (`Compress`).

`Options`, `Orders` and `Sublists` hold an option type, the order on strings, and what
is left of a list when only some positions stay.

Code that updates things step by step is a method with loops, proved equal to a
function of its inputs; what the source promises is then proved about that function,
and a lemma says when the function gives each answer without naming its parts
(`SplitRefusals.PlannedExactly`, `RemediationCases.KindExactly`,
`RhsRoots.RootNoneExactly`, `BoxRules.RemainingExactly`, `MatchRules.ChosenExactly`,
`StemEntries.EntriesExactly`, `HelperRules.HelpersExactly` and those beside them).
The object that collects free names and the directory tree that `apply` writes to
are classes.

## What the proofs found

Where the documentation of the code promises more than the code gives, the code is
modelled, an input is exhibited, and a condition is proved that tells exactly when
the promise is kept; for greedy matching, and for what staying code needs, the
condition is a sufficient one.

- `RhsRewrite.MixedQuotesLost`: a literal whose closing quote is of the other kind is
  repaired by a rewrite, so writing the old parent back does not restore the text.
  Condition: `RhsRewrite.RewriteBack`.
- `SplitGap.CopiedStateShared`, `SplitOversights.StayingStateShared`: the splitter is to
  refuse a split that leaves two copies of one piece of state
  (`backend/restructure/ops_split.py:31-34`). It looks at what moved code rebinds, and
  not at copied names and the router; and it never looks at what the code left
  behind rebinds. Condition: `SplitReaders.SharedStateExactly`.
- `SplitOversights.ShadowedBuiltinLost`, `SplitOversights.RedefinedImportTaken`: a
  built-in name that `__init__` redefines is taken for the built-in, and a name that
  `__init__` imports and then defines is taken over by import, although moved code
  that uses a name `__init__` still defines is to be refused
  (`backend/restructure/ops_split.py:28-30`). Condition:
  `SplitOrigins.MovedCodeKeepsOrigins`.
- `ScopeGaps.EarlyClassReadMissed`, `ScopeGaps.DeletedInLoopMissed`,
  `ScopeGaps.TargetReadMissed`, `ScopeGaps.AugmentedMissed`,
  `ScopeGaps.ElementWalrusReported`: a class body that reads a name it has not bound
  yet or no more, a comprehension target that reads a name, an augmented assignment
  at the top level or in a class body, and a walrus tucked away in a comprehension
  element, a lambda or an annotation are analysed differently from Python's rules.
  Condition: `ScopeAgreement.FreeNamesAgree`.
- `SplitOversights.EarlyReadUnbound`, `SplitOversights.AugmentedLeftUnbound`: so an accepted
  split can leave a name unbound that the code of one of the modules needs. Condition:
  `SplitSources.MovedNeedsExactly`, `SplitSources.StayingNeedsMet`.
- `IncludeList.HeaderComesTogether`: removing the header once can bring a new header
  line pair together, and then adding the same alias again is not a no-op.
  Condition: `IncludeList.AddingAgain`.
- `MatchQuality.GreedyNotOptimal`: the matcher's docstring names the Hungarian algorithm
  (`research_env/evaluator.py:139`); the code is greedy, and can find half as many
  pairs. Where it is optimal: `MatchOptimal.GreedyOptimal`.
- `BoxGroups.RemovedWithoutKeeper`: at the default threshold a box can be removed
  because of a box that is itself removed. Condition: `BoxThreshold.KeepersExactly`.
- `ModuleStems.ExampleDropped`, `ModuleStems.ExampleStays`: a stem collision put down to a
  colliding directory (`scripts/ci/check_path_case_collisions.py:229-231`) can still be
  there once the spellings of the directory have become one. Conditions, for each of
  the two reasons to leave a group out: `CaseRenaming.DirectoryRenaming` and
  `CaseRenaming.FileRenaming`. The verdict of a whole scan is not affected
  (`ModuleStems.Scan`), and for path groups the promise is kept
  (`CaseRenaming.DroppedExactlyWhenFixed`).
- `DowngradeClosure.SharedHelperMissed`, `UpgradeExcluded` and `DowngradeDecoratorMissed`:
  helpers that run on the upgrade path are left out, against
  `scripts/ci/check_coord_column_drops.py:651-656`. Condition:
  `DowngradeClosure.ExclusionSound`.

## Model

| member | source | states |
|---|---|---|
| RhsRewrite.CommentExactly | scripts/ci/_alembic_graph.py:97 | a comment token runs from a hash to the end of its line, and everything that does is one |
| RhsRewrite.LiteralExactly | scripts/ci/_alembic_graph.py:97 | a literal token is at least one character between two quotes of any kind, none of them a quote or newline, and everything that is so is one |
| RhsTokens.LineEnd | scripts/ci/_alembic_graph.py:97 | a comment runs to the first newline or the end of the text, no further and no less |
| RhsTokens.RunEnd | scripts/ci/_alembic_graph.py:97 | a literal's text is the longest run without quote and newline |
| RhsRewrite.FindCommentSpec | scripts/ci/_alembic_graph.py:116-125 | the scan meets no comment before the one found, and none up to the end if none is found |
| RhsTokens.SearchNone | scripts/ci/_alembic_graph.py:128 | the first whole word None: it is one, and no earlier offset holds one |
| RhsTokens.SpaceStart | scripts/ci/_alembic_graph.py:1062 | the white space before a comment is kept whole: all of it is space, and what precedes it is not |
| RhsRewrite.FindLiteralSpec | scripts/ci/_alembic_graph.py:1035-1042 | a literal is found if and only if its text is among the parents read; it spells the id, the scan stops there, and no literal before it does |
| RhsRewrite.MatchShift | scripts/ci/_alembic_graph.py:97-113 | a token depends on the text behind its start and on nothing before it |
| RhsRewrite.Splice | scripts/ci/_alembic_graph.py:97-113 | what is read before an offset does not change when the text from there on changes, unless a stray quote could reach over it |
| RhsRewrite.NoneToken | scripts/ci/_alembic_graph.py:131-143 | the None of a chain root is the word in the original text, between tokens, with no stray quote before it and no parent in it |
| RhsRoots.BlankedExactly | scripts/ci/_alembic_graph.py:140 | blanking overwrites what lies in a comment or a literal with spaces, and nothing else |
| RhsRoots.RootNoneExactly | scripts/ci/_alembic_graph.py:131-143 | a root's None is found at an offset if and only if the word stands there outside every token and all the rest lies in tokens or is a blank, a tab, a line break or a parenthesis |
| RhsRewrite.RewriteThenParse | scripts/ci/_alembic_graph.py:1023-1063 | reading back the rewritten value gives exactly the new parent if and only if at most one parent was declared, or the fallback branch drops all of them |
| RhsRewrite.LiteralBranch | scripts/ci/_alembic_graph.py:1043-1050 | replacing the one parent literal leaves exactly the new id, whatever else the text holds |
| RhsRewrite.NoneBranch | scripts/ci/_alembic_graph.py:1051-1057 | replacing None puts the new id between the parents read before it and those read after it |
| RhsRewrite.FallbackBranch | scripts/ci/_alembic_graph.py:1058-1063 | the fallback declares the new id followed by the literals behind the first comment, and no others |
| RhsRewrite.LiteralFrame | scripts/ci/_alembic_graph.py:1043-1050 | the literal branch changes the old literal, quotes included, and no other character; the opening quote stays |
| RhsRewrite.NoneFrame | scripts/ci/_alembic_graph.py:1051-1057 | the None branch changes four characters that spell None and no others |
| RhsRewrite.FallbackFrame | scripts/ci/_alembic_graph.py:1058-1063 | the first comment and everything behind it ends the new text unchanged |
| RhsRoots.RootRewritten | scripts/ci/_alembic_graph.py:1051-1057 | with no parent declared and such a None, wrapped and commented as it may be, the new text keeps everything but those four characters |
| RhsRoots.FallbackExactly | scripts/ci/_alembic_graph.py:1058-1063 | with no single parent and no such None the quoted target stands in front of the first comment and of the white space before it, and what stood before goes |
| RhsRewrite.RewriteBack | scripts/ci/_alembic_graph.py:1043-1050 | rewriting there and back restores the text if and only if the old literal closed with its opening quote |
| RhsRewrite.MixedQuotesLost | scripts/ci/_alembic_graph.py:1043-1050 | a literal opened with one kind of quote and closed with the other is not restored |
| RevisionScan.ScanSources | scripts/ci/_alembic_graph.py:295-337 | the last file of each id counts, heads are the sorted declared ids that no parsed file names (overwritten files included), every overwrite is recorded per id, and parsed files equal ids plus overwrites |
| RevisionScan.SortIds | scripts/ci/_alembic_graph.py:329 | the sorted tuple lists exactly the given ids |
| ScanRules.LastDeclaringExactly | scripts/ci/_alembic_graph.py:315-328 | of the files that declare an id the last one counts |
| ScanRules.DeclaringPicks | scripts/ci/_alembic_graph.py:315-328 | the files that declare an id are listed in scan order, all of them |
| ScanRules.OverwritesExactly | scripts/ci/_alembic_graph.py:321-326 | each file but the first that declares an id is recorded together with the one before it |
| ScanRules.ParsedPicks | scripts/ci/_alembic_graph.py:315-320 | the files counted as parsed are those that declare some id |
| RevisionScan.DuplicateGroups | scripts/ci/_alembic_graph.py:340-354 | the loop over overwrites yields one group per overwritten id |
| RevisionScan.GroupsListEveryFile | scripts/ci/_alembic_graph.py:340-354 | an id has a group if and only if two files or more declare it, and the group is all of them in scan order |
| RevisionGraph.WalkToForkRoot | scripts/ci/_alembic_graph.py:459-488 | the walk terminates on every graph and its answer is that of the one ended chain from the head: a root, a merge revision or a closing cycle |
| RevisionGraph.WalkSpec | scripts/ci/_alembic_graph.py:459-488 | some chain of unlanded single-parent revisions from the head ends with the walk's answer, and every ended chain from it has that answer |
| RevisionGraph.EndsUnique | scripts/ci/_alembic_graph.py:459-488 | two ended chains that start alike are the same chain with the same answer |
| RevisionGraph.BlockedChains | scripts/ci/_alembic_graph.py:551-555 | no chain is reported blocked if and only if the walk from every unlanded head finds a root |
| RevisionGraph.Roots | scripts/ci/_alembic_graph.py:556-558 | the roots are exactly those that the walks from the heads find |
| RemediationCases.UnknownExactly | scripts/ci/_alembic_graph.py:525-532 | the answer is unknown if and only if the baseline could not be read, and then nothing else is claimed |
| RemediationCases.HeadsSplit | scripts/ci/_alembic_graph.py:533-534 | the landed and the unlanded heads are all heads of either kind, in order |
| RemediationCases.KindExactly | scripts/ci/_alembic_graph.py:533-579 | merge if and only if no head is unlanded, blocked if and only if a chain from an unlanded head ends at a merge revision or in a cycle, else repoint or chain as one head has landed or not one; and the target each names |
| RemediationCases.BlockedExactly | scripts/ci/_alembic_graph.py:551-555 | the blockers named are those of all such heads and of no others, in order, each with the way its chain ends |
| RemediationCases.EditsNamed | scripts/ci/_alembic_graph.py:556-559 | the edits are exactly the roots at which the chains from the unlanded heads end, each once, in the order the heads reach them, with the path of its file; blocked answers included |
| RepointAdvice.ScanHeads | scripts/ci/_alembic_graph.py:309-337 | the heads a scan reports are sorted heads of its graph, and all of them when no id was declared twice |
| RepointAdvice.PlanAdvises | scripts/ci/_alembic_graph.py:518-579 | a `repoint` answer names a landed head as target and only unlanded revisions that leave the unlanded graph; and the chain of every unlanded head ends at one of them, if no unlanded head went unreported |
| RepointAdvice.RepointFixesHeads | scripts/ci/_alembic_graph.py:518-579 | following a `repoint` answer in the text keeps the graph acyclic, and leaves exactly the unlanded heads it lists if and only if no unlanded head went unreported and the landed part has one head; in the former case the target ends up below every unlanded revision |
| RepointAdvice.RepointedGraph | scripts/ci/_alembic_graph.py:1001-1063 | editing the text of the named revisions has the effect on the graph that the advice means, and no other |
| RepointAdvice.StaysAcyclic | scripts/ci/_alembic_graph.py:518-579 | a cycle after the edits would have been one before |
| RepointAdvice.ReachesTarget | scripts/ci/_alembic_graph.py:491-515 | after the edits every unlanded revision has the target below it |
| RepointAdvice.HeadsAfter | scripts/ci/_alembic_graph.py:518-579 | the heads after the edits are the unlanded heads and the other tips of the landed part |
| RepointExample.ForkedPlan | scripts/ci/_alembic_graph.py:491-515 | on a fork of two unlanded revisions the planner names the shallower one, not the head, and the landed head as its new parent |
| RepointExample.ForkRepaired | scripts/ci/_alembic_graph.py:518-579 | following that advice leaves the unlanded head as the only one |
| RepointAdvice.EditsAreForkRoots | scripts/ci/_alembic_graph.py:491-515 | whatever the answer, duplicated ids or not, a revision named for editing is unlanded, has at most one parent, and is where the chain of some unlanded head leaves the graph |
| FreeNames.BoundInBody | backend/restructure/ops_split.py:159-203 | the worklist, in any nesting, computes the names bound minus those declared global or nonlocal |
| FreeNames.PushedSize | backend/restructure/ops_split.py:159-203 | what a node puts on the worklist is smaller than the node, so draining ends |
| FreeNames.Collector.constructor | backend/restructure/ops_split.py:240-241 | a new collector has found nothing |
| FreeNames.Collector.Lookup | backend/restructure/ops_split.py:243-245 | a name is added exactly when no scope of the chain holds it, and nothing is lost |
| FreeNames.Collector.VisitAnnotation | backend/restructure/ops_split.py:247-257 | a string in annotation position is visited as the expression it spells |
| FreeNames.Collector.Visit | backend/restructure/ops_split.py:285-341 | visiting a node adds exactly its free names under the given scopes |
| FreeNames.CollectFreeNames | backend/restructure/ops_split.py:344-349 | the free names of the statements without the built-in ones |
| ScopeAgreement.DrainedIs | backend/restructure/ops_split.py:159-203 | in every program the worklist finds exactly the names bound and declared in the block, but for walruses tucked away in a comprehension element, a lambda or a function's annotations |
| ScopeAgreement.LookupAgrees | backend/restructure/ops_split.py:223-245 | looking a name up in the scopes that are kept finds it exactly when a visible block plainly binds it or a comprehension target reads it |
| ScopeAgreement.HeldInModule | backend/restructure/ops_split.py:223-245 | a name of the module is taken for a local one exactly when a comprehension target reads it, or a class body reads it early and a visible block plainly binds it; what it asks of the blocks holds in every program by `ReadsUndeclaredAll` |
| ScopeAgreement.UnheldLocal | backend/restructure/ops_split.py:159-203 | a local name taken for one of the module is bound in a visible block by a tucked-away walrus alone; likewise |
| ScopeAgreement.ReadsUndeclaredAll | backend/restructure/ops_split.py:233-349 | around every occurrence in a program, no block declares a name global that is declared so nowhere, or has it both local and nonlocal |
| ScopeAgreement.FreeNamesExactly | backend/restructure/ops_split.py:233-349 | a name is reported if and only if it is declared global somewhere, or some occurrence other than in an augmented assignment is neither plainly bound in a visible block nor read by a comprehension target around it |
| ScopeAgreement.FreeNamesAgree | backend/restructure/ops_split.py:233-349 | the analysis agrees with section 4.2.2 of the Python Language Reference on a name if and only if the name is declared global, or some occurrence resolves to the module with nothing to hide it, or there are both or neither of: an occurrence of the module's name in an augmented assignment, a comprehension target or early in a class body; and an occurrence that only a tucked-away walrus binds |
| ScopeAgreement.FreeNamesPlainly | backend/restructure/ops_split.py:233-349 | without occurrences of these kinds a name is reported exactly when it is declared global or some occurrence resolves to the module |
| ScopeAgreement.FreeNamesOrdinary | backend/restructure/ops_split.py:233-349 | so it is for every name of a program without walruses tucked away, reading targets, augmented assignments and early reads in class bodies |
| ScopeGaps.EarlyClassReadMissed | backend/restructure/ops_split.py:290-303 | a read that precedes the binding in a class body reaches the module and is not reported |
| ScopeGaps.LoopTargetFound | backend/restructure/ops_split.py:290-303 | the target of a loop in a class body is the class's own name in the loop body, and is not reported |
| ScopeGaps.DeletedInLoopMissed | backend/restructure/ops_split.py:290-303 | a loop in a class body that deletes its name reads the module's on the second round, and the name is not reported |
| ScopeGaps.AugmentedMissed | backend/restructure/ops_split.py:334-341 | a top-level augmented assignment reads the module's name, and nothing is reported |
| ScopeGaps.TargetReadMissed | backend/restructure/ops_split.py:304-323 | a name read in a comprehension target is taken for one the target binds |
| ScopeGaps.ElementWalrusReported | backend/restructure/ops_split.py:159-203 | a walrus in a comprehension element binds locally, and the local name is reported as free |
| SplitSources.UsesAreFree | backend/restructure/ops_split.py:344-360 | what the split takes as used and rebound by a list of statements is what the analyses say of all their code |
| SplitSources.RebindsAreUses | backend/restructure/ops_split.py:344-360 | a name that code declares global counts as used by it |
| SplitSources.MovedNeedsMet | backend/restructure/ops_split.py:890-978 | every name that moved or copied code needs by the scope rules is bound in the new module or built in, unless that code needs it by overlooked occurrences alone |
| SplitSources.MovedNeedsExactly | backend/restructure/ops_split.py:890-978 | the new module binds all that the moved and copied code needs by the scope rules, built-in names aside, if and only if each name that some of it needs by overlooked occurrences alone is used by other such code or named by the split or built in |
| SplitSources.StayingNeedsMet | backend/restructure/ops_split.py:980-1087 | every name that staying code needs by the scope rules and that was bound stays bound, unless that code needs it by overlooked occurrences alone |
| SplitPlan.SelectStatements | backend/restructure/ops_split.py:851-871 | the selection, or the first refusal, that the listed names determine |
| SplitPlan.ResolveNames | backend/restructure/ops_split.py:911-945 | the imports and the failures that resolving every name gives, whatever the order |
| SplitPlan.PruneImports | backend/restructure/ops_split.py:1047-1068 | the statements without the imports that are provably dead |
| SplitPlan.PlanSplit | backend/restructure/ops_split.py:815-1101 | the outcome that `SplitRefusals.PlannedExactly` and the rows after it describe |
| SplitRefusals.PlannedExactly | backend/restructure/ops_split.py:815-1101 | a refusal gives a reason that applies while none raised earlier does; already split if and only if the target exists and no listed name is left in `__init__` or missing from it; accepted if and only if there is no target and no reason applies |
| SplitRefusals.PlanAgain | backend/restructure/ops_split.py:837-848 | planning a split again once it is applied finds it done |
| SplitRefusals.DomainExactly | backend/restructure/ops_split.py:741 | which domains are taken: a module name, which one newline may follow |
| SplitRefusals.SelectMeans | backend/restructure/ops_split.py:851-871 | a selection fails if a listed name is missing, bound twice, or bound together with one that is not listed, and not otherwise |
| SplitRefusals.ResolveExactly | backend/restructure/ops_split.py:911-945 | which names are bound by an import of the package itself, still defined here, in a proxy that imports back, or nowhere |
| SplitRefusals.ResolvedExactly | backend/restructure/ops_split.py:923-945 | the imports that serve any other name: those of `__init__`, with an alias that repeats the name dropped, else the sibling that defines it, else the proxy |
| SplitRefusals.MergeMeans | backend/restructure/ops_split.py:1108-1139 | merging fails if no import stands at the beginning, or one that is not relative follows a relative one in the leading run, and not otherwise |
| SplitImports.NewModuleImports | backend/restructure/ops_split.py:908-961 | the new module imports the router class, by the last import of it, and what serves each name that its code takes, and nothing else |
| SplitImports.NewInitImports | backend/restructure/ops_split.py:1039-1086 | `__init__` keeps every import but those that only moved code used and that may be rewritten, and gains the new router and the re-exports, and nothing else |
| SplitImports.PrunedPicks | backend/restructure/ops_split.py:1047-1068 | pruning cuts the dead imports out of each statement in place and drops the statements left empty |
| SplitImports.NewInitLaid | backend/restructure/ops_split.py:1104-1142 | the merged block stands where the relative imports stood, behind docstring and other imports, and no import follows it; the include line ends the text |
| SplitImports.FirstComponentExactly | backend/restructure/ops_split.py:516-520 | a dotted path binds what stands before its first dot |
| SplitClosure.SelectSound | backend/restructure/ops_split.py:851-871 | a selection holds whole definitions of listed names only, one for each name |
| SplitClosure.ImportsOfBinds | backend/restructure/ops_split.py:891-894 | the imports found for a name are exactly the import members of `__init__` that bind it |
| SplitClosure.NewModuleClosed | backend/restructure/ops_split.py:890-978 | every accepted split: each name that the analysis finds used in the new module is built in or bound there |
| SplitClosure.NewInitClosed | backend/restructure/ops_split.py:980-1087 | an accepted split of an `__init__` with a router that is closed, as far as the analysis tells, leaves it so |
| SplitClosure.PruneKeeps | backend/restructure/ops_split.py:1039-1068 | pruning loses no use, no definition and no import of a name that is not prunable |
| SplitClosure.MergeKeeps | backend/restructure/ops_split.py:1104-1142 | merging local imports adds the given imports and loses or changes nothing |
| SplitOrigins.SameSource | backend/restructure/ops_split.py:923-931 | a relative import copied from `__init__` into the submodule reads the same module |
| SplitOrigins.MovedCodeKeepsOrigins | backend/restructure/ops_split.py:890-978 | every name that moved or copied code uses, router and copies aside, has the origin it had, if and only if that code uses no built-in that `__init__` shadows and no name that `__init__` both imports and defines |
| SplitOrigins.KeepsOrigin | backend/restructure/ops_split.py:890-978 | the same name by name |
| SplitOrigins.MovedNameOrigin | backend/restructure/ops_split.py:851-978 | a moved name stands in the new module for exactly the statements of `__init__` that defined it |
| SplitOrigins.ImportedNameOrigin | backend/restructure/ops_split.py:911-945 | a name the moved code takes by import stands for exactly what the imports of `__init__` made it |
| SplitReaders.StayingNameOrigin | backend/restructure/ops_split.py:1039-1068 | a name that is still read and not moved keeps its origin in `__init__`: no live import is pruned |
| SplitReaders.MovedNameReached | backend/restructure/ops_split.py:980-998 | a moved name that is still read through the package is there, as the re-export of its definition, beside what `__init__` imported under that name and nothing else |
| SplitReaders.MovedRebindsShared | backend/restructure/ops_split.py:1000-1022 | a still-read name that moved code rebinds is bound in both modules if and only if it is a copied one or the router |
| SplitReaders.StayingRebindsShared | backend/restructure/ops_split.py:1000-1022 | a name that staying code rebinds and moved code uses is always bound in both modules, built-in names aside |
| SplitReaders.SharedStateExactly | backend/restructure/ops_split.py:1000-1022 | which names one module rebinds and the other uses with a binding of its own, after an accepted split: the union of the two cases |
| SplitReaders.CodeConserved | backend/restructure/ops_split.py:963-1087 | apart from imports, the new router and the include line, every statement is in exactly the module it belongs to, in order, copies in both |
| SplitImports.PickPicks | backend/restructure/ops_split.py:869-871 | the statements taken are those at the chosen positions, or all others, in file order |
| SplitGap.ToyMeetsAll | backend/restructure/ops_split.py:815-1101 | a small package and request that are accepted and meet every hypothesis of the theorems on accepted splits |
| SplitGap.CopiedStateShared | backend/restructure/ops_split.py:1000-1022 | a split that is accepted although moved code rebinds a name that `__init__` still reads |
| SplitOversights.StayingStateShared | backend/restructure/ops_split.py:1000-1022 | a split that is accepted although code left behind rebinds an imported name that moved code uses |
| SplitOversights.ShadowedBuiltinLost | backend/restructure/ops_split.py:147-156 | an accepted split whose moved code uses a built-in name that `__init__` redefines: the new module does not bind it |
| SplitOversights.RedefinedImportTaken | backend/restructure/ops_split.py:923-936 | an accepted split whose moved code used a name that `__init__` imports and then defines: it is given the import |
| SplitOversights.EarlyReadUnbound | backend/restructure/ops_split.py:890-978 | an accepted split that moves a class away from the name its body reads early: the new module does not bind it |
| SplitOversights.AugmentedLeftUnbound | backend/restructure/ops_split.py:980-998 | an accepted split that moves a definition away from an augmented assignment to it: the new `__init__` does not bind it |
| IncludeList.ParseRender | backend/restructure/ops_split.py:738-740 | reading a written include line gives its alias and order back |
| IncludeList.SortEntries | backend/restructure/ops_split.py:1158 | the entries, all of them, ascending by order and then alias |
| IncludeRules.ListingOrdered | backend/restructure/ops_split.py:1158 | smaller orders come first, and among equal ones the alias that is a beginning of the other or smaller where they first differ |
| IncludeRules.ParseExactly | backend/restructure/ops_split.py:738-740 | a line is read as an entry if and only if it spells it |
| IncludeRules.RenderExactly | backend/restructure/ops_split.py:1156-1157 | an order is written in decimal digits without leading zeros |
| IncludeRules.EntriesExactly | backend/restructure/ops_split.py:1147-1152 | an alias has the order its last include line says; one without a line has the order asked for |
| IncludeRules.KeptPicks | backend/restructure/ops_split.py:1149-1154 | the lines kept are those that are no include lines, in order |
| IncludeRules.WithoutHeaderPicks | backend/restructure/ops_split.py:1155 | every pair of header lines goes and every other line stays |
| IncludeRules.TrimExactly | backend/restructure/ops_split.py:1155 | trimming cuts the empty lines at the end, all of them and nothing else |
| IncludeRules.BodyExactly | backend/restructure/ops_split.py:1155 | above the list stand the lines so left, or one empty line when none are |
| IncludeRules.RenderAllAt | backend/restructure/ops_split.py:1156-1159 | the lines are written in the order of the entries, one each |
| IncludeList.RewriteIncludeList | backend/restructure/ops_split.py:1145-1160 | the loop over the lines gives body, header and sorted entries |
| IncludeList.RewrittenRead | backend/restructure/ops_split.py:1145-1160 | reading the result back gives the entries there were and the new one, none lost, sorted, below an unchanged body |
| IncludeList.AddingAgain | backend/restructure/ops_split.py:1145-1160 | adding an alias again, at any order, changes nothing if and only if header removal left no header |
| IncludeList.HeaderComesTogether | backend/restructure/ops_split.py:1155 | two first header lines before two second ones: adding an alias again changes the text |
| IncludeList.AddingCommutes | backend/restructure/ops_split.py:1145-1160 | adding two domains in either order gives the same text |
| ApplyPlan.Tree.Apply | backend/restructure/ops_split.py:1163-1199 | for a failure at any step the tree is the initial one and otherwise the overlaid one, less the stage paths begun |
| ApplyPlan.Tree.StageAll | backend/restructure/ops_split.py:1177-1181 | staging changes stage files only, and says how many were begun |
| ApplyPlan.Tree.ReplaceAll | backend/restructure/ops_split.py:1182-1186 | targets are replaced in order, each recorded before it is replaced |
| ApplyPlan.Tree.Rollback | backend/restructure/ops_split.py:1187-1196 | every path but the stages is as it was before the run |
| ApplyPlan.Tree.Cleanup | backend/restructure/ops_split.py:1197-1199 | the stages begun are gone and nothing else is |
| ApplyPlan.AllOrNothing | backend/restructure/ops_split.py:1163-1199 | for every failure the tree ends as it began and without one it is overlaid, if and only if no stage file was there beforehand |
| ApplyPlan.RunExactly | backend/restructure/ops_split.py:1163-1199 | path by path: nothing is left at a stage that was opened, else the new text if the run got through, else the old one |
| ApplyPlan.VisibleTargetsApart | backend/restructure/ops_split.py:1178 | targets whose names do not start with a dot are never stage files |
| Boxes.PixelCount | research_env/evaluator.py:25-27 | the area of a well-formed box is the number of its pixels |
| Boxes.IouIsPixelRatio | research_env/evaluator.py:116-133 | the measure of well-formed boxes is common pixels over covered pixels |
| Boxes.IouSymmetric | research_env/evaluator.py:116-133 | the measure does not depend on the order of the boxes |
| Boxes.IouRange | research_env/evaluator.py:116-133 | the measure lies in [0, 1] and is 1 exactly for the same box of positive area |
| StableSort.Sorts | research_env/evaluator.py:174 | sorting permutes and puts larger keys first |
| StableSort.Stable | research_env/evaluator.py:174 | elements with equal keys keep their order, also with `reverse=True` |
| StableSort.SortsOnce | research_env/detectors/base_detector.py:134-135 | sorting a sorted list changes nothing |
| Matching.FillMatrix | research_env/evaluator.py:157-161 | every cell of the matrix holds the measure of its two boxes |
| Matching.Flatten | research_env/evaluator.py:169-173 | the flat list is the matrix row by row |
| Matching.TakeGreedily | research_env/evaluator.py:176-184 | the one pass takes the greedy choice and records its rows and columns |
| Matching.MatchBoxes | research_env/evaluator.py:135-191 | the matches are the greedy choice and the rest are the boxes not in it, for empty lists too |
| Matching.ChosenMembers | research_env/evaluator.py:163-184 | the choice is one-to-one, and every pair holds the measure of its boxes, at or above the threshold |
| MatchRules.ChosenExactly | research_env/evaluator.py:163-184 | the pairs in descending order of their measure, equal ones row by row: a pair is chosen if and only if it reaches the threshold and no pair chosen before it has its row or its column |
| MatchRules.FlatAt | research_env/evaluator.py:169-173 | the list of pairs goes row by row |
| MatchRules.ExpandedExactly | research_env/evaluator.py:105-114 | with a positive margin a box stands for all pixels at most that far from one of its own, otherwise for itself |
| MatchRules.UnusedPicks | research_env/evaluator.py:186-191 | the boxes left over are those at the other indices, in order |
| MatchQuality.HalfOptimal | research_env/evaluator.py:163-184 | no one-to-one matching at or above the threshold has more than twice the pairs or twice the total |
| MatchQuality.NoBlockingPair | research_env/evaluator.py:163-184 | every pair at or above the threshold shares a box with a chosen pair of at least its measure |
| MatchQuality.EveryBoxOnce | research_env/evaluator.py:186-191 | matched and unmatched boxes are together all boxes, each once, on both sides |
| MatchQuality.GreedyNotOptimal | research_env/evaluator.py:138-139 | on two boxes and two predictions greedy matching finds one pair where two exist |
| MatchOptimal.GreedyOptimal | research_env/evaluator.py:163-184 | the choice is a largest matching and one of largest total whenever of two boxes that reach the threshold together one does so with no other box |
| MatchOptimal.GreedyOptimalDisjoint | research_env/evaluator.py:163-184 | so it is with pairwise disjoint ground truth, no margin and a threshold above one half |
| MatchQuality.MetricsMeaning | research_env/evaluator.py:216-235 | F1 is twice the matches over all boxes of both sides, and an evaluation is perfect exactly when something matched and nothing is left |
| MatchRules.ScoresExactly | research_env/evaluator.py:216-230 | precision is the share of the predictions that were matched and recall that of the ground truth; a share of nothing is zero |
| MatchQuality.RecallAtLeastHalf | research_env/evaluator.py:193-235 | the reported recall is at least half of what any matching reaches, and the counts add up to the list lengths |
| BoxGroups.CollectGroup | research_env/detectors/base_detector.py:69-88 | the inner loop collects the boxes still free that join the first, and leaves the others free |
| BoxGroups.MergeOverlappingBoxes | research_env/detectors/base_detector.py:52-100 | the loop with its used marks returns the boxes around the groups |
| BoxGroups.GroupsMeaning | research_env/detectors/base_detector.py:65-88 | each member joined the first box of its group, and no box of a later group joins the first box of an earlier one |
| BoxRules.GroupsPlaced | research_env/detectors/base_detector.py:65-88 | taking whole groups out of the list is the same as placing its boxes one by one, each into the first group whose first box it joins, or its own |
| BoxRules.JoinsExactly | research_env/detectors/base_detector.py:74-87 | a box joins when the common pixels of the two are at least the threshold's share of all they cover, and there are any |
| BoxRules.MergedExactly | research_env/detectors/base_detector.py:58-98 | the groups are those of the boxes sorted largest first, each opened by a largest box of all that were left; a box alone is returned as it is |
| BoxGroups.MergePartitions | research_env/detectors/base_detector.py:52-100 | the groups hold every input box exactly once, and the output is no longer than the input |
| BoxGroups.HullEncloses | research_env/detectors/base_detector.py:90-98 | a merged box encloses its group and each of its edges is a member's |
| BoxGroups.MergeKeepsBounds | research_env/detectors/base_detector.py:52-100 | a box bounds the output, edges attained, if and only if it bounds the input |
| BoxGroups.PositiveArea | research_env/detectors/base_detector.py:149-152 | a box that overlaps another has positive area, so nothing is divided by zero |
| BoxGroups.RemoveContainedBoxes | research_env/detectors/base_detector.py:129-159 | the loops keep what `BoxRules.RemainingExactly` describes |
| BoxRules.RemainingExactly | research_env/detectors/base_detector.py:134-157 | of the boxes sorted largest first, equally large ones as they stood, those remain that none before them contains, removed or not |
| BoxRules.RemainingApart | research_env/detectors/base_detector.py:134-157 | the boxes that remain stand largest first, and none is contained in a larger one that remains |
| BoxRules.ContainedExactly | research_env/detectors/base_detector.py:143-152 | a box is contained when the common pixels are at least the threshold's share of its own, and there are any |
| BoxGroups.RemoveTwice | research_env/detectors/base_detector.py:129-159 | removing again removes nothing, at every threshold |
| BoxGroups.RemovedLieInside | research_env/detectors/base_detector.py:129-159 | at threshold one and above every box lies inside a kept one |
| BoxGroups.RemovedWithoutKeeper | research_env/detectors/base_detector.py:142-154 | at the default threshold a box can be removed that no kept box contains to that share |
| BoxThreshold.KeepersExactly | research_env/detectors/base_detector.py:129-159 | every box removed is contained, to the threshold, in one that is kept, on all inputs, if and only if the threshold is at least one |
| CaseCollisions.PrefixesAreJoins | scripts/ci/check_path_case_collisions.py:164-168 | the joins of the first parts of a path are exactly the path cut at a slash, and the path |
| CaseCollisions.CollectSpellings | scripts/ci/check_path_case_collisions.py:163-168 | every prefix of a tracked path is filed under its fold, and nothing else is |
| CaseCollisions.PathCollisions | scripts/ci/check_path_case_collisions.py:152-171 | the report is the colliding groups without those that a colliding ancestor explains |
| CaseCollisions.ReportedExplainer | scripts/ci/check_path_case_collisions.py:202-223 | an explaining ancestor can always be found among the reported groups |
| CaseCollisions.DroppedExactlyWhenExplained | scripts/ci/check_path_case_collisions.py:202-223 | a colliding group is dropped if and only if a reported one stands above it and its members read the same below |
| CaseCollisions.EmptyReport | scripts/ci/check_path_case_collisions.py:152-171 | nothing is reported if and only if no two distinct tracked prefixes fold together |
| StemEntries.ReportMembers | scripts/ci/check_path_case_collisions.py:163-171 | a reported group is all tracked prefixes of its fold |
| CaseRenaming.RenamingFixes | scripts/ci/check_path_case_collisions.py:202-223 | giving a directory one spelling leaves one spelling of a prefix group below it if and only if its members read the same below the directory |
| CaseRenaming.DroppedExactlyWhenFixed | scripts/ci/check_path_case_collisions.py:202-223 | a colliding prefix group is dropped if and only if there is a reported directory above it whose renaming, to any spelling, fixes the group too |
| ModuleStems.LongestExtension | scripts/ci/check_path_case_collisions.py:142-149 | the extension found is the longest of the list that ends the folded path; none is found exactly when none does |
| ModuleStems.ModuleStemCollisions | scripts/ci/check_path_case_collisions.py:174-199 | the loop over the tracked paths yields the groups of stems with two spellings |
| ModuleStems.StemsCollected | scripts/ci/check_path_case_collisions.py:184-193 | a stem is filed under a fold if and only if some tracked path contributes it and it folds so |
| StemEntries.EntriesExactly | scripts/ci/check_path_case_collisions.py:131-149 | a path contributes its own stem, what stands before the longest module extension it folds to, and its directory if it is an index file with any of the extensions, and nothing else |
| StemEntries.IndexFiled | scripts/ci/check_path_case_collisions.py:189-193 | an index file files its directory, whatever the directory and the extension |
| StemEntries.IndexCollides | scripts/ci/check_path_case_collisions.py:189-199 | a directory with an index file and another stem that folds like it and differs make the gate fail |
| ModuleStems.NoStemGroups | scripts/ci/check_path_case_collisions.py:195-199 | there is no stem group if and only if no two distinct tracked stems fold together |
| ModuleStems.Scan | scripts/ci/check_path_case_collisions.py:282-313 | the gate passes if and only if no two distinct prefixes and no two distinct stems of tracked files fold together |
| StemEntries.OutsideExactly | scripts/ci/check_path_case_collisions.py:226-244 | a stem group is reported beside the paths if and only if its first member is below no reported directory and none of its members is itself a reported path |
| ModuleStems.ExampleDropped | scripts/ci/check_path_case_collisions.py:226-244 | a stem group below a colliding directory is left out of the report |
| ModuleStems.ExampleStays | scripts/ci/check_path_case_collisions.py:226-244 | after the directory is renamed no path collides and the stems of that group still do |
| CaseRenaming.DroppedStems | scripts/ci/check_path_case_collisions.py:237-244 | a stem group that is left out has a member below a reported path or at one |
| CaseRenaming.OneStemMeans | scripts/ci/check_path_case_collisions.py:195-199 | there is no stem group for a fold if and only if all stems with that fold are one |
| CaseRenaming.DirectoryRenaming | scripts/ci/check_path_case_collisions.py:229-231 | for a group with a member below a directory: giving the directory one spelling leaves no stem group if and only if the stems read the same behind it and those of files beside it begin with that spelling |
| CaseRenaming.FileRenaming | scripts/ci/check_path_case_collisions.py:231-235 | for a group with a member at a reported path: giving the path one spelling leaves no stem group if and only if all other members have the stem of that spelling already |
| DowngradeClosure.ComputeClosure | scripts/ci/check_coord_column_drops.py:658-676 | the worklist terminates with exactly the functions that a chain of references from `downgrade` reaches without returning to it |
| DowngradeClosure.DowngradeOnlyHelpers | scripts/ci/check_coord_column_drops.py:635-697 | the helpers are that closure without the names kept outside it |
| HelperRules.FunctionsExactly | scripts/ci/check_coord_column_drops.py:658-662 | of the definitions of a name the last one counts |
| HelperRules.HelpersExactly | scripts/ci/check_coord_column_drops.py:635-697 | a function is a helper if and only if a chain of names leads to it from `downgrade` and no statement names it but `downgrade` and the bodies of functions so led to |
| DowngradeClosure.ExclusionSound | scripts/ci/check_coord_column_drops.py:678-697 | no excluded helper is reachable from the upgrade path in any number of steps if and only if all of the closure is named from outside, or `upgrade` is not excluded and nothing outside, no kept closure member and no decorator of `downgrade` names an excluded helper or `downgrade` |
| DowngradeClosure.ExclusionSoundWhenApart | scripts/ci/check_coord_column_drops.py:651-656 | no helper that matters is skipped when `upgrade` and all functions named from outside lie outside the closure |
| DowngradeClosure.SharedHelperMissed | scripts/ci/check_coord_column_drops.py:684-697 | a helper of a helper that both directions call is excluded although `upgrade` reaches it |
| DowngradeClosure.UpgradeExcluded | scripts/ci/check_coord_column_drops.py:684-697 | `upgrade` itself is excluded when only `downgrade` names it |
| DowngradeClosure.DowngradeDecoratorMissed | scripts/ci/check_coord_column_drops.py:681-695 | a helper that a decorator of `downgrade` runs at import time is excluded |
| Compress.CompressPoints | backend/scripts/gen_build_record_scan_vectors.py:62-69 | the ranges expand back to exactly the points, and for increasing points they are sorted and leave gaps |
| Compress.CanonicalUnique | backend/scripts/gen_build_record_scan_vectors.py:62-69 | sorted ranges with gaps are determined by the points they expand to |
| Compress.Shortest | backend/scripts/gen_build_record_scan_vectors.py:62-69 | no list of ranges for the same points is shorter |
| Compress.UniqueShortest | backend/scripts/gen_build_record_scan_vectors.py:62-69 | sorted ranges with gaps are the only list for their points that is no longer than they are |

## Left out

Stated with a condition, or weaker than could be wished:

- ScopeAgreement.FreeNamesAgree: programs that Python rejects are left out (`global` or `nonlocal` inside an expression, a parameter declared nonlocal); a class body is described by the order in which its parts are evaluated, choices among them and loops, and jumps out of a statement are not followed.
- MatchOptimal.GreedyOptimal: a sufficient condition for greedy matching to be optimal, not a necessary one.
- SplitReaders.SharedStateExactly: no built-in name is spelled like the router alias; names that other files rebind through the package are not looked at.
- CaseRenaming.FileRenaming: the reported path does not end in a slash, as no tracked path does.
- RepointAdvice.RepointFixesHeads: with ids declared twice an unlanded head can go unreported, and then nothing is said of what lies above it; the target is an id that may stand between quotes, as every id read from a revision file is.
- SplitSources.StayingNeedsMet: one direction; a name that staying code needs by overlooked occurrences alone may be bound all the same.
- SplitClosure.NewModuleClosed: counts the names that the analysis finds used; those needed by the scope rules are in `SplitSources.MovedNeedsMet`.
- SplitClosure.NewInitClosed: likewise, see `SplitSources.StayingNeedsMet`.
- SplitOrigins.MovedCodeKeepsOrigins: stated for an `__init__` that imports `APIRouter` and does not define it; origins are sets of bindings, so the order in which two of them bind one name is not looked at.
- ApplyPlan.Tree.Apply: steps of the rollback and the deletion of stage files are taken not to fail, and targets and stages to be distinct paths.
- DowngradeClosure.ExclusionSoundWhenApart: one direction only; the exact condition is `DowngradeClosure.ExclusionSound`.
- ModuleStems.Scan: needs a fold that maps one character to one and keeps slashes; `str.lower` does so except for a few characters.
- IncludeList.RewriteIncludeList: works on whole lines, so a header that starts in the middle of a line, or a last line without its newline, is not captured; `\w` and `\d` are the ASCII ones.

Not part of this model:

- the test that a copied statement is a logger factory call (`_check_copyable`): whether a statement may be copied is an input;
- reading and parsing files, git, the tokenizer and `ast`: sources, landed ids, tracked paths and statements are inputs;
- the regular expressions other than the token one, the None word and the include line: a file's id and its `down_revision` text are inputs;
- in `repoint_sites`, the removal of carriage returns and trailing space, the `Revises:` line and the test pins;
- message texts, notes and exit codes other than whether a scan is clean;
- `measure_order` and `_string_spans`, `render_imports` layout, comment blocks and blank lines of moved statements: the split works on statements rather than on text, and generated import blocks are sets;
- names bound by top-level statements other than imports, definitions and assignments, as the source leaves them out of `definitions` too;
- how other files reach a name through the package, sibling and proxy definitions, and string targets: they are inputs of the split;
- type parameters, name mangling and the implicit `__class__`: the scope rules are those of functions, lambdas, comprehensions, classes, `global` and `nonlocal`;
- the order of the groups in the collision report, which is a map or a set here;
- floating-point rounding: measures, thresholds and metrics are exact reals;
- `filter_boxes_by_size`, averages of measures, datasets, multi-screenshot evaluation and visualisation: only easy members.
