# Verified models of the OpenEmbedded build library

OpenEmbedded's `oe` library and some scripts beside it hold algorithms that run without BitBake: path
resolution below a root, license choice, dependency closure, signature locking, in-place patching of SDK
binaries, assignment of files to packages. This project models them in Dafny 4.11 and proves what they are
for. `dafny verify dfyconfig.toml` checks it.

Code that changes state step by step is a method or a class, proved against a function that says what it
computes; the properties of that function are lemmas. Code that only computes is a function.

| part | modules |
|---|---|
| rooted symlink resolution, plain and on stat caches | `PosixPath`, `RealPath`, `RealPathSafety`, `RealPathModes`, `RealPathWalk`, `RealPathKernel`, `RealPathResults`, `RealPathDots`, `RealPathDepth`, `RealPathUnresolved`, `PathLib`, `StatCaches`, `CachedPathLib` |
| license expressions: choice and manifest | `License`, `Manifest`, `ManifestResults`, `ManifestShape`, `ManifestTokens` |
| layer dependencies, signature comparison | `LayerDeps`, `RootCauses` |
| locked signatures: decisions during a build, merging files | `SigLocks`, `SigLocksNames`, `SigLocksRuns`, `LockedSigs`, `LockedSigsResults`, `LockedSigsLines` |
| the process pool | `ProcessPool` |
| relocation of SDK binaries | `Relocate`, `RelocateResults`, `RelocateContents`, `RelocateTexts`, `RelocateTables`, `RelocateUnbound`, `RelocateWhole`, `RelocateHeader`, `RelocateRecords`, `RelocateExamples` |
| file moves in the build history | `FileMoves`, `FileMovesEntries`, `FileMovesBooks`, `FileMovesResults` |
| order of test suites | `SuiteOrder` |
| FILES expansion and packages | `PackageFiles`, `PackageListing`, `Packages`, `PackagesResults`, `PackagesLeftover`, `PackageOrder`, `PackageDebug` |
| value splitting, file name escape, version order | `VarSplit`, `VarSplitPlaces`, `FileTranslate`, `CveVersion`, `CveOrder` |
| shared | `Wrappers` |

What the outside world answers is a parameter: the file system is a map of normalised paths to stat answers
and link targets, a child process says how often it is found alive and how it ends, `fnmatch` is a test on
names, BitBake's base class gives the computed hash, `glob` has been done.

## Where the code does not do what it seems to promise

Each has a lemma with an exact condition, a concrete input, or both.

- Links to "." are not removed from the path, so a later ".." climbs to the wrong directory: exactly when it stands behind such a "." (`RealPathKernel.GoesAlongIff`; `RealPathDots.DotTargetMisleads`).
- Cached and plain resolution differ exactly when the root itself is a link (`RealPathModes.ModesAgreeIffRootIsNoLink`); the cached test for a link normalises the slash away.
- The license weight 1000, called arbitrary in the comment, can be outweighed by the licenses an excluded option includes; the answer for an expression is wrong exactly when such an OR counts in it (`License.CleanIff`, `License.GreedyChoiceIsOptimalIff`; `License.ThousandIsTooMany`).
- Filtering licenses can leave a text that is no expression: exactly when a bracketed part keeps nothing, or loses its first license behind a kept one (`ManifestShape.WellFormedIff`; `ManifestResults.FilteredBracketsBreak`, `ManifestShape.FirstInGroupFiltered`).
- An unlocked recipe name unlocks whatever depends on a recipe with that name inside its own (`SigLocksNames.QuestionIsExactIff`, `SigLocksNames.RunIsExactIff`; `SigLocks.SubstringUnlocks`). An empty locked hash counts as none (`SigLocks.DecisionsAreFinal`).
- `.sysdirslen` is packed little-endian whatever the file is: right in a big-endian file exactly for palindromes (`RelocateTables.EntryReadsRightIff`; `RelocateTables.BigEndianMisread`).
- `sysdirslen` is never set when its section is missing, since the script sets `sysdirs_len`: of the files whose sections get done, exactly those with .sysdirs alone end on it (`RelocateUnbound.UnboundIff`; `RelocateExamples.SmallFileIsUnbound`).
- Tables that outgrow their sections are written over what follows, and the test of the size at the end sees that only past the end of the file (`RelocateResults.TablesLand`, `RelocateResults.LocalIff`, `RelocateWhole.WholeReach`; `RelocateExamples.OverrunFileOverruns`).
- The directory rename test asks whether the old directory is among the additions, since all common paths have been popped by then; so a directory in both lists can be taken for renamed, and only that sets the search apart from one that looks into the whole new list (`FileMovesResults.SearchIsFairIff`; `FileMovesResults.FalseRename`).
- A child of the process pool that dies without a message is counted as finished and its item as done without an error (`ProcessPool.DeadChildrenAreDone`; `ProcessPool.DeadChildIsDone`); a return has a value for every item exactly when every child returned something truthy (`ProcessPool.ResultForEachIff`).
- "//" in FILES is announced as fixed and is not; the file can then be in two packages (`PackagesResults.FirstListerShips` says when; `PackageOrder.DoubledSlash`).
- Changed tasks that only lead to each other are reported by nobody, and these are all that are not (`RootCauses.ExplainedIff`; `RootCauses.CircleIsNotReported`, `RootCauses.TwoInACircle`).
- A second header of a type in the main file drops the signatures under the first: none of a type is lost exactly when none stands before its last header (`LockedSigsResults.NothingLostIff`; `LockedSigsResults.SecondHeaderDrops`).
- An interpreter in "/usr/lib/" is not left alone, though its variants with 32 and 64 are: the list has "/usr/lib32/" twice (`RelocateRecords.SystemPathIff`; `RelocateRecords.UsrLibIsMissing`).
- Patch numbers are compared as texts (`CveVersion.PatchOrderIsNumericIff`), and pre-release labels not at all (`CveVersion.EqualVersions`).

## Model

| member | source | states |
|---|---|---|
| `PosixPath.NormpathIdempotent` | layers/openembedded-core/meta/lib/oe/cachedpath.py:29-34 | normalising a normalised path changes nothing, so a cached normal form can itself be looked up |
| `PosixPath.NormalOfBuilt` | layers/openembedded-core/meta/lib/oe/cachedpath.py:167-173 | the cached lookup of a path text built by joining names asks about the names without "." |
| `PosixPath.EmptyPartsDrop` | layers/openembedded-core/meta/lib/oe/cachedpath.py:29-34 | in a normal form "" and "." count for nothing, wherever they stand |
| `PosixPath.NameGoesUp` | layers/openembedded-core/meta/lib/oe/cachedpath.py:29-34 | a name goes with the ".." behind it, wherever they stand |
| `PosixPath.RootIsTop` | layers/openembedded-core/meta/lib/oe/cachedpath.py:29-34 | ".." at the beginning of an absolute path goes |
| `PosixPath.NormpathKeeps` | layers/openembedded-core/meta/lib/oe/cachedpath.py:29-34 | a path without any of these is its own normal form; with the three rules before that fixes the normal form of every path |
| `RealPath.TextBelow` | layers/openembedded-core/meta/lib/oe/path.py:188-189 | the text test of `__is_path_below` holds exactly when the names of the root are a prefix of those of the file |
| `RealPath.TextNotShorter` | layers/openembedded-core/meta/lib/oe/path.py:199-216 | for paths below the root, comparing text lengths tells exactly whether a path is the root without its slash |
| `RealPathSafety.NeverEscapes` | layers/openembedded-core/meta/lib/oe/path.py:188-272 | for every tree, link layout, flag and link budget: no internal assertion fails, a success is at or below the root, with `use_physdir` no name of it below the root is a link, and EINVAL is raised exactly for a file outside the root |
| `RealPathSafety.RelStaysBelow` | layers/openembedded-core/meta/lib/oe/path.py:191-213 | every round of `__realpath_rel`, ".." past the root included, keeps the path below the root; both assertions hold |
| `RealPathSafety.RelResolves` | layers/openembedded-core/meta/lib/oe/path.py:191-213 | no part of the answer of `__realpath_rel` below the root is a link, for any component list |
| `RealPathSafety.LinkResolves` | layers/openembedded-core/meta/lib/oe/path.py:215-236 | the answer of `__realpath` has no link below the root even when links point to links |
| `RealPathSafety.OneLinkPerLoop` | layers/openembedded-core/meta/lib/oe/cachedpath.py:180-201 | what a link target resolves to is no link any more, so the `while` loop of `__realpath` follows one link only; in the cached form alone a root that is a link is never accepted |
| `RealPathSafety.BudgetOnlyDecidesLoops` | layers/openembedded-core/meta/lib/oe/cachedpath.py:203-237 | a larger link budget changes no answer and no error other than ELOOP |
| `RealPathSafety.RelAssume` | layers/openembedded-core/meta/lib/oe/path.py:191-213 | what resolves without `assume_dir` resolves to the same path with it |
| `RealPathModes.ModesAgreeIffRootIsNoLink` | layers/openembedded-core/meta/lib/oe/cachedpath.py:156-237 | with `use_physdir` cached and plain resolution give the same path or the same error for a file below the root, on every tree and budget, if and only if the root is not a link |
| `RealPathModes.ModesAgreeUnresolved` | layers/openembedded-core/meta/lib/oe/cachedpath.py:203-237 | without `use_physdir` they agree where, as the documentation asks, no directory of the file is a link, and, that promise broken, on every tree without a link to "." |
| `RealPathUnresolved.UnresolvedIsResolved` | layers/openembedded-core/meta/lib/oe/path.py:238-272 | where no directory of the file is a link, as the documentation asks, `realpath` without `use_physdir` answers what it answers with it, if `assume_dir` is set or all these are directories; else only the latter raises ENOENT |
| `RealPathWalk.ResolverFollowsWalk` | layers/openembedded-core/meta/lib/oe/path.py:191-236 | on every tree the mutually recursive resolvers visit only what a flat walker over one list of names and link targets visits |
| `RealPathWalk.WalkGivesResolver` | layers/openembedded-core/meta/lib/oe/path.py:191-236 | on every tree a walk that ends within the budget is found by the resolvers, with the same end |
| `RealPathResults.ResolutionIsTheWalk` | layers/openembedded-core/meta/lib/oe/path.py:238-272 | on every tree a success of `realpath` is the end of the flat walk; with `assume_dir` the only failure is ELOOP and then no walk of that many steps ends |
| `RealPathKernel.StepAlongIff` | layers/openembedded-core/meta/lib/oe/path.py:196-211 | one step: a kernel that ignores "." goes where the resolvers go if and only if the step is not a ".." behind a "." that a link left in the path below a directory |
| `RealPathKernel.GoesAlongIff` | layers/openembedded-core/meta/lib/oe/path.py:191-236 | whole walks: the kernel goes along for k steps if and only if none of these steps is such a one |
| `RealPathResults.ResolutionIsTheKernelWalk` | layers/openembedded-core/meta/lib/oe/path.py:238-272 | where the walk has no such step, `realpath` answers where a kernel inside the root would end, and fails with `assume_dir` only if the kernel takes more steps than links are allowed |
| `RealPathResults.SteadyTrees` | layers/openembedded-core/meta/lib/oe/path.py:191-236 | every walk is of this kind where no link leads to ".", and where no link target begins with ".." |
| `RealPathResults.ReachesOnce` | layers/openembedded-core/meta/lib/oe/path.py:191-236 | the flat walk has one end and one length |
| `RealPathDepth.ResolvesIffShallow` | layers/openembedded-core/meta/lib/oe/path.py:191-272 | on every tree: with `assume_dir` and a budget of n links `realpath` succeeds if and only if its walk never meets a link nested n deep in link targets; how many links it meets does not matter |
| `RealPathDepth.ResolvesIffFaultless` | layers/openembedded-core/meta/lib/oe/path.py:191-272 | on every tree, with `assume_dir` or without: `realpath` succeeds if and only if its walk meets neither a link nested n deep nor, before a part that is tested, a place whose stat is no directory |
| `RealPathDepth.NoDirectoryIff` | layers/openembedded-core/meta/lib/oe/path.py:197-232 | the first such fault decides the error: ENOENT, naming the place, if and only if it is a place that is no directory |
| `RealPathDepth.AnswerOfTheWalk` | layers/openembedded-core/meta/lib/oe/path.py:191-272 | every answer is read off the walk: the place of a success, the place of ENOENT, ELOOP for a link nested too deep, and nothing else |
| `RealPathDepth.ResolverGoesAlong` | layers/openembedded-core/meta/lib/oe/path.py:191-236 | from any start and level the resolver with budget n goes with the walk that may follow links n levels deeper: it ends where that ends, and fails as that does at its first fault |
| `RealPathDepth.DeepIsTheWalk` | layers/openembedded-core/meta/lib/oe/path.py:191-236 | the walk with levels is the flat walk |
| `RealPathDots.DotTargetMisleads` | layers/openembedded-core/meta/lib/oe/path.py:217-229 | on every tree with a link to "." and a link to "../x" in one directory, for all names: `realpath` answers /d/x where a kernel walks to /x |
| `RealPathDots.DotTreeHasDotLink` | layers/openembedded-core/meta/lib/oe/path.py:217-229 | such a tree |
| `RealPathResults.ResolvedAgain` | layers/openembedded-core/meta/lib/oe/path.py:238-272 | resolving an answer again with `assume_dir` and any budget returns it, up to "." and the slash of the root |
| `RealPathResults.OnlyLoopsFail` | layers/openembedded-core/meta/lib/oe/path.py:191-236 | with `assume_dir` and readable links nothing but ELOOP can happen |
| `PathLib.RealpathRel` | layers/openembedded-core/meta/lib/oe/path.py:191-213 | the component loop computes the specification for every start below the root |
| `PathLib.RealpathLink` | layers/openembedded-core/meta/lib/oe/path.py:215-236 | the link loop computes the specification |
| `PathLib.Realpath` | layers/openembedded-core/meta/lib/oe/path.py:238-272 | the whole function computes the specification, error rewriting included |
| `StatCaches.LstatCoherent` | layers/openembedded-core/meta/lib/oe/cachedpath.py:56-72 | `calllstat` answers for the normalised path and leaves every cached path in both caches with the answer of the file system |
| `StatCaches.StatCoherent` | layers/openembedded-core/meta/lib/oe/cachedpath.py:51-54 | `callstat` never misses its cache and answers for the normalised path |
| `StatCaches.UpdateCoherent` | layers/openembedded-core/meta/lib/oe/cachedpath.py:22-27 | `updatecache` repairs caches that are wrong about one normalised path only |
| `StatCaches.ChangeKeepsOthers` | layers/openembedded-core/meta/lib/oe/cachedpath.py:22-27 | a change of one path leaves the caches right about all others |
| `StatCaches.RunsAnswerRight` | layers/openembedded-core/meta/lib/oe/cachedpath.py:22-72 | over every run of queries and changes, each change followed by `updatecache`, every answer is the answer of the file system at that time |
| `StatCaches.AskedOnce` | layers/openembedded-core/meta/lib/oe/cachedpath.py:51-72 | a path asked about once is answered from the caches from then on, and no query about it stores anything new |
| `StatCaches.UpdateForgetsOne` | layers/openembedded-core/meta/lib/oe/cachedpath.py:22-27 | `updatecache` forgets one normalised path in both caches and nothing else |
| `CachedPathLib.CachedPath.constructor` | layers/openembedded-core/meta/lib/oe/cachedpath.py:16-20 | empty caches are right about every tree |
| `CachedPathLib.CachedPath.UpdateCache` | layers/openembedded-core/meta/lib/oe/cachedpath.py:22-27 | both stat caches lose exactly the normalised path |
| `CachedPathLib.CachedPath.NormPath` | layers/openembedded-core/meta/lib/oe/cachedpath.py:29-34 | one more normal form is remembered, nothing else changes |
| `CachedPathLib.CachedPath.FillStat` | layers/openembedded-core/meta/lib/oe/cachedpath.py:36-45 | an answer, or its absence, is stored once and returned |
| `CachedPathLib.CachedPath.CallStat` | layers/openembedded-core/meta/lib/oe/cachedpath.py:51-54 | new caches, and the answer of `stat` |
| `CachedPathLib.CachedPath.CallLstat` | layers/openembedded-core/meta/lib/oe/cachedpath.py:56-72 | new caches, and the answer of `lstat` |
| `CachedPathLib.CachedPath.IsFile` | layers/openembedded-core/meta/lib/oe/cachedpath.py:76-84 | true exactly for a regular file, links followed |
| `CachedPathLib.CachedPath.CheckDir` | layers/openembedded-core/meta/lib/oe/cachedpath.py:86-91 | true exactly for a directory, links followed |
| `CachedPathLib.CachedPath.CheckLink` | layers/openembedded-core/meta/lib/oe/cachedpath.py:93-100 | true exactly for a link |
| `CachedPathLib.CachedPath.Exists` | layers/openembedded-core/meta/lib/oe/cachedpath.py:102-106 | true exactly when `stat` succeeds |
| `CachedPathLib.CachedPath.Lexists` | layers/openembedded-core/meta/lib/oe/cachedpath.py:108-112 | true exactly when `lstat` succeeds |
| `CachedPathLib.CachedPath.RealpathRel` | layers/openembedded-core/meta/lib/oe/cachedpath.py:156-178 | the component loop on the caches computes the specification and keeps the caches right |
| `CachedPathLib.CachedPath.RealpathLink` | layers/openembedded-core/meta/lib/oe/cachedpath.py:180-201 | the link loop on the caches computes the specification and keeps the caches right |
| `CachedPathLib.CachedPath.Realpath` | layers/openembedded-core/meta/lib/oe/cachedpath.py:203-237 | the whole function computes the specification from any right caches |
| `License.FlattenVisitor.Visit` | layers/openembedded-core/meta/lib/oe/license.py:78-103 | appends the chosen licenses of the tree to the list |
| `License.IsIncluded` | layers/openembedded-core/meta/lib/oe/license.py:114-158 | the flag is the absence of excluded licenses in the chosen list, the list its included or excluded ones |
| `License.FlattenIsChoice` | layers/openembedded-core/meta/lib/oe/license.py:78-103 | the chosen list is what one choice of OR branches gives |
| `License.OptionTaken` | layers/openembedded-core/meta/lib/oe/license.py:129-144 | of two options alike in having excluded licenses or not the one with more included ones is taken, the left one if they have equally many; of unlike ones that without, unless the other includes a thousand more |
| `License.MatchingPlaces` | layers/openembedded-core/meta/lib/oe/license.py:150-158 | the reported licenses are those at the places that pass the test, in order and as often as they stand there |
| `License.GreedyChoiceIsOptimalIff` | layers/openembedded-core/meta/lib/oe/license.py:129-158 | for every expression and filter: the chosen list is clean exactly when some choice is and has the most included licenses of all clean choices, if and only if the expression is not faulty: at no OR that counts is the better option answered badly or outweighed by an excluded one |
| `License.CleanIff` | layers/openembedded-core/meta/lib/oe/license.py:129-144 | for every expression: the chosen list is clean where one can be if and only if no OR that counts is misjudged, which is when just one option is clean and the other includes a thousand licenses more (on the right side: more than a thousand) |
| `License.BestChoice` | layers/openembedded-core/meta/lib/oe/license.py:129-144 | the best number of included licenses is reached by a clean choice |
| `License.CleanChoiceBound` | layers/openembedded-core/meta/lib/oe/license.py:129-144 | and exceeded by none; a clean choice exists only where the test for one says so |
| `License.ModerateIsRight` | layers/openembedded-core/meta/lib/oe/license.py:132-144 | with fewer than a thousand licenses on either side of each OR no expression is faulty |
| `License.FlattenBeats` | layers/openembedded-core/meta/lib/oe/license.py:129-144 | where the expression is not faulty no clean choice has more included licenses than the chosen list |
| `License.FewerThanThousand` | layers/openembedded-core/meta/lib/oe/license.py:132-144 | a tree of fewer than a thousand licenses meets the bound |
| `License.ThousandIsTooMany` | layers/openembedded-core/meta/lib/oe/license.py:132-144 | n included and excluded licenses against one plain license: the clean choice is made if and only if n is below 1000 |
| `Manifest.GetElements` | layers/openembedded-core/meta/lib/oe/license.py:55-69 | the token list with the implied "&" for valid elements; else the first invalid element is reported |
| `Manifest.CutApart` | layers/openembedded-core/meta/lib/oe/license.py:49-57 | a text is cut at every operator character, which is a piece itself |
| `Manifest.CutWhole` | layers/openembedded-core/meta/lib/oe/license.py:49-57 | and nowhere else; blank pieces are dropped |
| `Manifest.SpellApart` | layers/openembedded-core/meta/lib/oe/license.py:58-67 | elements read in two parts give the tokens of both, with "&" between them exactly if a word meets a word |
| `Manifest.SpellOne` | layers/openembedded-core/meta/lib/oe/license.py:58-67 | a single word gives its name, an operator itself |
| `Manifest.WordCharIff` | layers/openembedded-core/meta/lib/oe/license.py:51-51 | a license name is made of letters, digits and ".", "+", "_", "-" |
| `Manifest.ManifestVisitor.Print` | layers/openembedded-core/meta/lib/oe/license.py:195-204 | one token is appended to the text |
| `Manifest.ManifestVisitor.CollapseOperators` | layers/openembedded-core/meta/lib/oe/license.py:180-193 | the pending operators with each run of "&" and "|" cut to its last |
| `Manifest.ManifestVisitor.PrintOperators` | layers/openembedded-core/meta/lib/oe/license.py:180-201 | the pending operators are printed, binary ones only after a license, and forgotten |
| `Manifest.ManifestVisitor.Walk` | layers/openembedded-core/meta/lib/oe/license.py:174-214 | the visitor state after a tree |
| `Manifest.ManifestLicenses` | layers/openembedded-core/meta/lib/oe/license.py:216-235 | the text and license list of the final state, brackets turned back |
| `ManifestResults.PrintingUndoesParsing` | layers/openembedded-core/meta/lib/oe/license.py:174-235 | when nothing is filtered, the printed text cut and spelled again gives the tokens of the tree, brackets and implied "&" included, and all licenses in order |
| `ManifestResults.UnfilteredVisit` | layers/openembedded-core/meta/lib/oe/license.py:174-214 | when nothing is filtered, each subtree prints the pending operators and then its own tokens |
| `ManifestResults.FilteredManifest` | layers/openembedded-core/meta/lib/oe/license.py:174-214 | for bracket-free trees and any filter: the survivors in order, each but the first after exactly the one operator that stands before it in the input |
| `ManifestResults.FilteredBracketsBreak` | layers/openembedded-core/meta/lib/oe/license.py:174-214 | a filtered license in brackets, with another after it, leaves its brackets behind: for all names |
| `ManifestShape.WellFormedIff` | layers/openembedded-core/meta/lib/oe/license.py:174-214 | for every tree and filter: the printed tokens form an expression or nothing if and only if each bracketed part keeps a license, and keeps its first one unless none before it is kept |
| `ManifestShape.VisitComes` | layers/openembedded-core/meta/lib/oe/license.py:174-214 | from any state in which an expression may follow, a subtree that meets the condition leaves a text read to its end with the brackets that were pending open, and one that does not leaves it misread or with a "(" pending behind a license |
| `ManifestShape.LostStays` | layers/openembedded-core/meta/lib/oe/license.py:174-214 | what the visitor has spoiled it does not mend, whatever subtree comes after |
| `ManifestShape.FirstInGroupFiltered` | layers/openembedded-core/meta/lib/oe/license.py:174-214 | "c | (a & b)" without "a" is printed with an operator behind the "(": for all names |
| `ManifestTokens.VisitIsTokenwise` | layers/openembedded-core/meta/lib/oe/license.py:174-214 | the visitor does one thing at each token of the text, whatever tree the parser makes of the tokens |
| `ManifestTokens.GroupingIsUnseen` | layers/openembedded-core/meta/lib/oe/license.py:174-214 | two trees over the same tokens give the same manifest |
| `ManifestTokens.TextComesBack` | layers/openembedded-core/meta/lib/oe/license.py:55-69 | from text to text: for every text the scanner accepts and every tree over its tokens, with nothing filtered the printed text has the same tokens |
| `LayerDeps.FindLayer` | layers/openembedded-core/scripts/lib/checklayer/__init__.py:154-162 | the first layer with a collection of that name, or none |
| `LayerDeps.FindIff` | layers/openembedded-core/scripts/lib/checklayer/__init__.py:154-162 | a layer is found if and only if it stands at the first place whose layer has a collection of that name |
| `LayerDeps.RecurseDependencies` | layers/openembedded-core/scripts/lib/checklayer/__init__.py:186-221 | the list grows by finished layers below the start and stays free of repetition; None only in trouble |
| `LayerDeps.VisitCollections` | layers/openembedded-core/scripts/lib/checklayer/__init__.py:211-219 | the same for all collections of one layer |
| `LayerDeps.GetLayerDependencies` | layers/openembedded-core/scripts/lib/checklayer/__init__.py:185-232 | on any layer graph, cycles included: None exactly when the start or a layer reachable from it names a missing layer other than core; otherwise exactly the layers reachable in one or more steps, each once |
| `LayerDeps.ClosedUnderPaths` | layers/openembedded-core/scripts/lib/checklayer/__init__.py:185-232 | a list closed under single dependencies is closed under paths |
| `RootCauses.CompareSignatures` | layers/openembedded-core/scripts/lib/checklayer/__init__.py:390-435 | `None` exactly when no signature changed; else the failure on the first name the loops come to that cannot be split, or the changed ones without a changed dependency, in order, with both hashes |
| `RootCauses.CausesPlaces` | layers/openembedded-core/scripts/lib/checklayer/__init__.py:419-435 | the report has one line for each changed task without a changed dependency, in order, with the old hash before the new one |
| `RootCauses.FirstCutIff` | layers/openembedded-core/scripts/lib/checklayer/__init__.py:406-435 | the comparison ends on a name if and only if it is the one on which the first changed task that stops it does: its own without ":", or the first listed one without ".", with no changed task listed before |
| `RootCauses.FirstCutIsUnsplittable` | layers/openembedded-core/scripts/lib/checklayer/__init__.py:410-431 | a comparison ends that way only on a changed task without ":" or a name without "." listed for one |
| `RootCauses.NameComesBackIff` | layers/openembedded-core/scripts/lib/checklayer/__init__.py:406-415 | a task converted to its name in the graph and back is itself if and only if no "." follows its last ":" |
| `RootCauses.ExplainedIff` | layers/openembedded-core/scripts/lib/checklayer/__init__.py:419-435 | for every graph, circles included: a changed task leads over changed dependencies to a reported one if and only if no set of changed tasks that have changed dependencies among themselves only holds it |
| `RootCauses.ChangeIsTraced` | layers/openembedded-core/scripts/lib/checklayer/__init__.py:419-435 | so without circles every change leads to a reported one |
| `RootCauses.CircleIsNotReported` | layers/openembedded-core/scripts/lib/checklayer/__init__.py:427-435 | a circle of changed tasks of any length without a changed dependency outside: none leads to a reported one |
| `RootCauses.TwoInACircle` | layers/openembedded-core/scripts/lib/checklayer/__init__.py:427-435 | two such tasks, for all hashes: a change is counted and nothing is reported |
| `SigLocks.SignatureGenerator.constructor` | layers/openembedded-core/meta/lib/oe/sstatesig.py:99-113 | nothing is decided at the start |
| `SigLocks.SignatureGenerator.GetTaskhash` | layers/openembedded-core/meta/lib/oe/sstatesig.py:153-202 | new decisions, returned hash, recorded recipe names and hash file names, mismatch messages and their number |
| `SigLocks.SignatureGenerator.GetStampfileHash` | layers/openembedded-core/meta/lib/oe/sstatesig.py:204-207 | the locked hash where there is a nonempty one |
| `SigLocks.SignatureGenerator.GetCachedUnihash` | layers/openembedded-core/meta/lib/oe/sstatesig.py:209-212 | the locked hash where there is a nonempty one and the object is at rest |
| `SigLocks.RunGrows` | layers/openembedded-core/meta/lib/oe/sstatesig.py:153-202 | over a run no decision changes and no recipe is locked again |
| `SigLocks.UnlockingPropagates` | layers/openembedded-core/meta/lib/oe/sstatesig.py:168-202 | over every run that asks after dependencies first, each task that reaches an unlocked recipe through dependencies of its multiconfig is unlocked and so is its recipe |
| `SigLocksNames.SubstringMeans` | layers/openembedded-core/meta/lib/oe/sstatesig.py:174-179 | a dependency unlocks exactly when its own recipe is unlocked or an unlocked name is properly inside the name of its recipe |
| `SigLocksNames.QuestionIsExactIff` | layers/openembedded-core/meta/lib/oe/sstatesig.py:168-202 | one question: the code decides and unlocks what a test on whole names would if and only if it is not that the task is new, neither its recipe nor that of a dependency is unlocked, and an unlocked name is properly inside the name of a dependency |
| `SigLocksNames.RunIsExactIff` | layers/openembedded-core/meta/lib/oe/sstatesig.py:168-202 | whole runs: the two agree at every moment if and only if no question of the run is of that kind |
| `SigLocksNames.ApartNamesAreExact` | layers/openembedded-core/meta/lib/oe/sstatesig.py:168-202 | where no recipe or unlocked name of the run is properly inside the name of a dependency they agree, and every unlocked recipe is explained by dependencies that are themselves unlocked |
| `SigLocks.UnlockingIsExplained` | layers/openembedded-core/meta/lib/oe/sstatesig.py:168-181 | every unlocked recipe is explained by a chain of asked tasks back to one unlocked at the start |
| `SigLocks.SubstringUnlocks` | layers/openembedded-core/meta/lib/oe/sstatesig.py:176-181 | unlocking "gcc" unlocks what depends on "gcc-runtime": the test is on substrings |
| `SigLocks.DecisionsAreFinal` | layers/openembedded-core/meta/lib/oe/sstatesig.py:153-212 | however a run goes on, the decision about a task stays and all three accessors answer a nonempty locked hash with it |
| `SigLocks.LockedAsConfigured` | layers/openembedded-core/meta/lib/oe/sstatesig.py:183-198 | a locked hash is the configured one |
| `SigLocksRuns.DecidedIff` | layers/openembedded-core/meta/lib/oe/sstatesig.py:153-202 | every run, every task asked: its entry is the configured hash, an empty one too, if and only if its recipe is not unlocked at its first question, and this question returns that hash, else the computed one |
| `SigLocksRuns.UnlockedIff` | layers/openembedded-core/meta/lib/oe/sstatesig.py:160-181 | the recipes unlocked at any moment are those of the start and those of earlier first questions that found a dependency of their multiconfig with an unlocked name in its recipe name |
| `SigLocksRuns.AskedIsLocked` | layers/openembedded-core/meta/lib/oe/sstatesig.py:153-202 | a task asked that has a configured hash is locked to it, unless its recipe ends up unlocked |
| `ProcessPool.MultiprocessLaunch` | layers/openembedded-core/meta/lib/oe/utils.py:313-350 | the loop makes a run of the step system to its end: on a return no item raised, the results are, as a multiset, the truthy results of all items, as many as items exactly if every child returned something truthy, and the items of dead children are done without a trace; a failure carries errors that items raised |
| `ProcessPool.PollAll` | layers/openembedded-core/meta/lib/oe/utils.py:325-336 | polling over a list that shrinks under the loop makes only legal steps and always progress |
| `ProcessPool.RunSound` | layers/openembedded-core/meta/lib/oe/utils.py:317-336 | at every state each item is in exactly one of pending, running and finished, at most `max_process` run, and errors and results are those of the finished items in order |
| `ProcessPool.NoLaunchAfterError` | layers/openembedded-core/meta/lib/oe/utils.py:317-324 | after an error nothing is launched and no error is lost |
| `ProcessPool.ErrorFreeRunIsComplete` | layers/openembedded-core/meta/lib/oe/utils.py:337-350 | an ended run without errors ran each item exactly once and its results are all truthy results |
| `ProcessPool.RunResult` | layers/openembedded-core/meta/lib/oe/utils.py:337-350 | every ended run has all results and no error, or only errors that items raised |
| `ProcessPool.ResultsPermute` | layers/openembedded-core/meta/lib/oe/utils.py:331-336 | the order in which processes finish does not change the multiset of results |
| `ProcessPool.ResultForEachIff` | layers/openembedded-core/meta/lib/oe/utils.py:331-350 | an ended run without errors has as many results as items if and only if every child returned something truthy |
| `ProcessPool.DeadChildrenAreDone` | layers/openembedded-core/meta/lib/oe/utils.py:331-350 | in every ended run without errors each item whose child died is among the finished ones, and errors and results are those of the other finished items |
| `ProcessPool.DeadChildIsDone` | layers/openembedded-core/meta/lib/oe/utils.py:331-336 | one item whose child dies: the run ends without an error and without a result |
| `Relocate.BinaryFile.Read` | layers/openembedded-core/scripts/relocate_sdk.py:79-97 | a short read at the end of the file, and the new position |
| `Relocate.BinaryFile.Write` | layers/openembedded-core/scripts/relocate_sdk.py:109-110 | the bytes at the position are replaced, the file grows if it must |
| `Relocate.ChangeInterpreter` | layers/openembedded-core/scripts/relocate_sdk.py:72-112 | the new bytes and the outcome are those of the specification |
| `Relocate.ChangeSlots` | layers/openembedded-core/scripts/relocate_sdk.py:168-184 | the slot loop, which reads on from where it stands, computes the specification |
| `Relocate.ChangeSection` | layers/openembedded-core/scripts/relocate_sdk.py:143-184 | one section of the table |
| `Relocate.ChangeHeader` | layers/openembedded-core/scripts/relocate_sdk.py:134-184 | one section header: read, named, and its section changed if it is SHT_PROGBITS |
| `Relocate.ChangeSections` | layers/openembedded-core/scripts/relocate_sdk.py:134-184 | the loop over the headers, which stops at the first failure |
| `Relocate.ChangeSegment` | layers/openembedded-core/scripts/relocate_sdk.py:91-112 | the PT_INTERP segment is rewritten, left alone or refused |
| `Relocate.ChangeSlot` | layers/openembedded-core/scripts/relocate_sdk.py:170-184 | one slot, and where the file stands after it |
| `Relocate.NewTables` | layers/openembedded-core/scripts/relocate_sdk.py:186-200 | the two tables of the relocated paths |
| `Relocate.ChangeSysdirs` | layers/openembedded-core/scripts/relocate_sdk.py:185-209 | the path table and the length table, or the failure on a variable never set |
| `Relocate.WriteTables` | layers/openembedded-core/scripts/relocate_sdk.py:202-209 | both tables are written at their sections |
| `Relocate.ChangeDlSysdirs` | layers/openembedded-core/scripts/relocate_sdk.py:114-209 | the new bytes and the outcome are those of the specification |
| `RelocateResults.InterpreterPatch` | layers/openembedded-core/scripts/relocate_sdk.py:78-112 | size and all bytes outside the first PT_INTERP segment stay; a system path or empty segment stays; a path that does not fit is refused unwritten; else the segment is the path and at least one NUL |
| `RelocateResults.SlotsPatch` | layers/openembedded-core/scripts/relocate_sdk.py:168-184 | each 4096-byte slot becomes its relocated path padded with NULs, the rest of the section stays |
| `RelocateResults.RelocationReach` | layers/openembedded-core/scripts/relocate_sdk.py:114-209 | for every file: no byte changes outside the four named sections and the bytes the two tables are written over, and the file grows exactly when a table reaches past its end |
| `RelocateResults.TablesLand` | layers/openembedded-core/scripts/relocate_sdk.py:185-209 | for every file: both tables are in the finished file at their full length, past the end of their sections too |
| `RelocateResults.LocalIff` | layers/openembedded-core/scripts/relocate_sdk.py:114-209 | for every file: its size stays and only the four named sections change if and only if no table is written, or both end inside the file and what they are written over outside these sections is what stood there |
| `RelocateResults.RelocationIsLocal` | layers/openembedded-core/scripts/relocate_sdk.py:114-209 | when the new tables fit, the file keeps its size and no byte outside the four named sections changes |
| `RelocateWhole.RelocateExecutable` | layers/openembedded-core/scripts/relocate_sdk.py:252-254 | one executable through both patches, a refused interpreter being noted |
| `RelocateWhole.WholeReach` | layers/openembedded-core/scripts/relocate_sdk.py:72-209 | with or without an interpreter, whatever the tables: outside the PT_INTERP segment, the four named sections and what the tables are written over nothing changes, and the size stays if and only if no table ends past the file |
| `RelocateWhole.UnreadableIsKept` | layers/openembedded-core/scripts/relocate_sdk.py:79-89 | a file whose program headers cannot be unpacked is left as it is |
| `RelocateWhole.WholeIsLocal` | layers/openembedded-core/scripts/relocate_sdk.py:72-209 | where the tables do no harm both patches together keep the size and change nothing outside the PT_INTERP segment and the four named sections |
| `RelocateHeader.GetArch` | layers/openembedded-core/scripts/relocate_sdk.py:32-50 | 32 or 64 bits by the class, for files whose first byte is 0x7f; under Python 3 the letters after it make no difference, being compared with a string |
| `RelocateHeader.ParseElfHeader` | layers/openembedded-core/scripts/relocate_sdk.py:52-70 | the fields of the header in the byte order of the file |
| `RelocateHeader.ProcessFile` | layers/openembedded-core/scripts/relocate_sdk.py:246-264 | one file of the list: passed over, or through both patches with the fields of its own header, and the test of its size |
| `RelocateRecords.FileFromEndToEnd` | layers/openembedded-core/scripts/relocate_sdk.py:52-264 | a file laid out as the gABI says, of either class and byte order, from end to end: the interpreter named by its header and program headers is replaced, left alone or, for lack of room, noted as an error; then its sections are changed |
| `RelocateRecords.PassedOverIff` | layers/openembedded-core/scripts/relocate_sdk.py:32-50 | which files are passed over |
| `RelocateRecords.SegmentDecoded` | layers/openembedded-core/scripts/relocate_sdk.py:79-94 | a program header of either class and byte order, written field by field, is read as its type, offset and file size |
| `RelocateRecords.SectionDecoded` | layers/openembedded-core/scripts/relocate_sdk.py:115-141 | a section header as its name, type, offset and size |
| `RelocateRecords.HeaderDecoded` | layers/openembedded-core/scripts/relocate_sdk.py:52-70 | the file header as where both tables are, how long their records are, how many there are, and which section has the names |
| `RelocateRecords.InterpreterInPlace` | layers/openembedded-core/scripts/relocate_sdk.py:72-112 | the first entry of type PT_INTERP says where, by its offset in the file and not its address, and how much is written |
| `RelocateRecords.SystemPathIff` | layers/openembedded-core/scripts/relocate_sdk.py:98-101 | an interpreter is left alone if and only if it begins with "/lib/", "/lib32/", "/lib64/", "/usr/lib32/" or "/usr/lib64/" |
| `RelocateRecords.UsrLibIsMissing` | layers/openembedded-core/scripts/relocate_sdk.py:98-101 | one in "/usr/lib/" is not: the list has "/usr/lib32/" twice |
| `RelocateUnbound.UnboundIff` | layers/openembedded-core/scripts/relocate_sdk.py:131-185 | the variable never set ends the script if and only if all sections get done and the file has a section .sysdirs and none .sysdirslen |
| `RelocateExamples.SmallFileIsUnbound` | layers/openembedded-core/scripts/relocate_sdk.py:32-209 | a 32-bit little-endian file of 142 bytes, taken as such from its own header, for which it does, whatever prefix and interpreter |
| `RelocateExamples.OverrunFileOverruns` | layers/openembedded-core/scripts/relocate_sdk.py:32-264 | a file of 272 bytes: with every ASCII prefix longer than the placeholder the script ends well and has changed the first byte of .text; up to 187 bytes the test of the size sees nothing |
| `RelocateContents.RelocatedFile` | layers/openembedded-core/scripts/relocate_sdk.py:114-209 | with sections that lie apart, at the end each .ldsocache holds its relocated path and a NUL, each .gccrelocprefix its relocated slots, and both directory tables are rewritten |
| `RelocateContents.TablesWritten` | layers/openembedded-core/scripts/relocate_sdk.py:185-209 | the two tables are written side by side and touch nothing else |
| `RelocateTexts.SubFirst` | layers/openembedded-core/scripts/relocate_sdk.py:30-30 | the relocated text has the new prefix for the first placeholder and goes on behind it |
| `RelocateTexts.SubNone` | layers/openembedded-core/scripts/relocate_sdk.py:30-30 | a text without the placeholder stays |
| `RelocateTexts.StripIs` | layers/openembedded-core/scripts/relocate_sdk.py:156-160 | of a stripped text only the NULs at its end go, and all of them |
| `RelocateTexts.NameIs` | layers/openembedded-core/scripts/relocate_sdk.py:141-141 | a section name goes up to its NUL; without one its last byte is lost |
| `RelocateTables.TablesAgree` | layers/openembedded-core/scripts/relocate_sdk.py:186-209 | reading .sysdirs back gives the relocated paths, and entry i of .sysdirslen, read little-endian, is the length of path i |
| `RelocateTables.TableSplits` | layers/openembedded-core/scripts/relocate_sdk.py:186-195 | splitting the written table at NULs up to the first empty path gives the paths written |
| `RelocateTables.LengthReadsRightIff` | layers/openembedded-core/scripts/relocate_sdk.py:197-200 | a packed length, read in the byte order of the file, is that length if and only if the file is little-endian or its bytes are a palindrome |
| `RelocateTables.EntryReadsRightIff` | layers/openembedded-core/scripts/relocate_sdk.py:186-209 | so for every entry of .sysdirslen in a relocated file |
| `RelocateTables.BigEndianMisread` | layers/openembedded-core/scripts/relocate_sdk.py:197-200 | a length from 1 to 65535 in four bytes or more is misread in every big-endian file |
| `FileMoves.CompareFileLists` | layers/openembedded-core/meta/lib/oe/buildhistory_analysis.py:288-388 | all reported changes are those of the specification, lists of any kind |
| `FileMoves.CompareCommon` | layers/openembedded-core/meta/lib/oe/buildhistory_analysis.py:294-330 | changes of the paths in both lists in order; the paths only in one |
| `FileMovesEntries.EntriesReportedIff` | layers/openembedded-core/meta/lib/oe/buildhistory_analysis.py:294-330 | for all lists: a change of type, permissions, ownership or link target is reported, once, if and only if the path is in both lists and this became of its entry, old value first |
| `FileMovesEntries.EntryCounts` | layers/openembedded-core/meta/lib/oe/buildhistory_analysis.py:297-324 | so for one path: ownership counts only where it is compared, the target only of what is a link now |
| `FileMoves.DigitlessIs` | layers/openembedded-core/meta/lib/oe/buildhistory_analysis.py:334-347 | paths are alike when they are so with every digit made an X |
| `FileMoves.ReplaceFirst` | layers/openembedded-core/meta/lib/oe/buildhistory_analysis.py:369-371 | replacing the old directory by the new one goes on behind the first occurrence |
| `FileMoves.ReplaceNone` | layers/openembedded-core/meta/lib/oe/buildhistory_analysis.py:369-371 | and leaves a text without one as it is |
| `FileMoves.DetectMoves` | layers/openembedded-core/meta/lib/oe/buildhistory_analysis.py:332-388 | moves, directory renames and what is left of additions and removals are those the search specified as a function finds |
| `FileMoves.ConsiderAddition` | layers/openembedded-core/meta/lib/oe/buildhistory_analysis.py:346-379 | one addition: passed over, moved, or turned into a directory rename, as specified |
| `FileMoves.Absorb` | layers/openembedded-core/meta/lib/oe/buildhistory_analysis.py:368-373 | a directory rename takes exactly the specified pairs out of both lists |
| `FileMoves.FirstDifference` | layers/openembedded-core/meta/lib/oe/buildhistory_analysis.py:356-360 | the loop always stops at a component that differs, the ones before it being equal |
| `FileMoves.ReverseMap` | layers/openembedded-core/meta/lib/oe/buildhistory_analysis.py:334-339 | the removals with the same text up to digits, in order |
| `FileMoves.SomeComponentDiffers` | layers/openembedded-core/meta/lib/oe/buildhistory_analysis.py:354-360 | two different paths equal up to digits have the same number of components and one that differs |
| `FileMovesBooks.FoundInOrder` | layers/openembedded-core/meta/lib/oe/buildhistory_analysis.py:345-379 | at the end of the search the accounts balance and every move and rename has its reason |
| `FileMovesBooks.EveryPathReported` | layers/openembedded-core/meta/lib/oe/buildhistory_analysis.py:288-388 | for all lists: each path only in the new list is reported as added, as a move target, or through a directory rename of a path only in the old list; each path only in the old list likewise |
| `FileMovesBooks.NothingIsLost` | layers/openembedded-core/meta/lib/oe/buildhistory_analysis.py:346-388 | a path only in the new list is exactly once an addition, a move target or absorbed; one only in the old list is still a removal exactly when it is no move source and not absorbed |
| `FileMovesBooks.NewPathTold` | layers/openembedded-core/meta/lib/oe/buildhistory_analysis.py:346-384 | a path only in the new list is reported |
| `FileMovesBooks.OldPathTold` | layers/openembedded-core/meta/lib/oe/buildhistory_analysis.py:346-386 | a path only in the old list is reported |
| `FileMovesBooks.BookMove` | layers/openembedded-core/meta/lib/oe/buildhistory_analysis.py:375-379 | a reported move keeps the accounts |
| `FileMovesBooks.BookAbsorbed` | layers/openembedded-core/meta/lib/oe/buildhistory_analysis.py:369-373 | an absorbed pair keeps the accounts |
| `FileMovesBooks.BookRename` | layers/openembedded-core/meta/lib/oe/buildhistory_analysis.py:365-367 | a directory is renamed once and for a reason |
| `FileMovesResults.RenameTestMisses` | layers/openembedded-core/meta/lib/oe/buildhistory_analysis.py:363-366 | the test lets a directory of the new list pass exactly when it is in both lists |
| `FileMovesResults.RenameReported` | layers/openembedded-core/meta/lib/oe/buildhistory_analysis.py:363-381 | every reported rename is a reported move, its new directory is not in the old list, and its old one, if still in the new list, is in both |
| `FileMovesResults.TurnIsFairIff` | layers/openembedded-core/meta/lib/oe/buildhistory_analysis.py:346-379 | one addition: the search does what one that looks into the whole new list does if and only if it does not take for renamed a directory that is in both lists |
| `FileMovesResults.SearchIsFairIff` | layers/openembedded-core/meta/lib/oe/buildhistory_analysis.py:345-379 | the whole search: the two agree at every turn if and only if no turn is of that kind |
| `FileMovesResults.FalseRename` | layers/openembedded-core/meta/lib/oe/buildhistory_analysis.py:345-381 | /1 and /1/a before, /1, /2 and /2/a after: /1 is reported as moved to /2 |
| `FileMovesResults.StaysAddedIff` | layers/openembedded-core/meta/lib/oe/buildhistory_analysis.py:346-384 | an addition with exactly one removal like it stays an addition if and only if its turn made a directory rename and no rename absorbed it; then the path it replaces is no removal any more |
| `LockedSigs.WriteSigsFile` | layers/openembedded-core/meta/lib/oe/copy_buildsystem.py:236-248 | the lines of the nonempty types, then the list of these types |
| `LockedSigs.ScanMain` | layers/openembedded-core/meta/lib/oe/copy_buildsystem.py:203-214 | the lines per type and the order of the types |
| `LockedSigs.ScanExtra` | layers/openembedded-core/meta/lib/oe/copy_buildsystem.py:216-234 | the merged lines, the lines to copy, or the failure on a line without a ":" |
| `LockedSigs.MergeLockedsigs` | layers/openembedded-core/meta/lib/oe/copy_buildsystem.py:200-253 | both files, or the failure |
| `LockedSigsResults.MergedContents` | layers/openembedded-core/meta/lib/oe/copy_buildsystem.py:200-234 | for all files, types with several headers included: the types in order; under each the lines of its last header in the main file, then the first occurrences of new extra lines; to copy are the lines for asked tasks that its last header in the extra file adds |
| `LockedSigsResults.MergedUnique` | layers/openembedded-core/meta/lib/oe/copy_buildsystem.py:200-234 | with one header for each type: the lines of both files, and to copy the added ones for the asked tasks |
| `LockedSigsResults.NothingLostIff` | layers/openembedded-core/meta/lib/oe/copy_buildsystem.py:203-214 | the main scan keeps all signatures of a type if and only if none stands before its last header |
| `LockedSigsResults.SecondHeaderDrops` | layers/openembedded-core/meta/lib/oe/copy_buildsystem.py:203-214 | two headers of one type with a signature each: the first is gone, for all signatures |
| `LockedSigsResults.CopyContents` | layers/openembedded-core/meta/lib/oe/copy_buildsystem.py:216-234 | the lines to copy through a whole file from any state |
| `LockedSigsLines.ForTasksPlaces` | layers/openembedded-core/meta/lib/oe/copy_buildsystem.py:222-226 | of the added lines those of the asked tasks are copied, or all where none is asked for, in order |
| `LockedSigsLines.TaskIs` | layers/openembedded-core/meta/lib/oe/copy_buildsystem.py:223-223 | the task of a line stands behind its first ":" and ends at the next or at the end of the text |
| `LockedSigsLines.NoTask` | layers/openembedded-core/meta/lib/oe/copy_buildsystem.py:223-223 | a line without ":" has no task, which ends the merge |
| `LockedSigsLines.LineParts` | layers/openembedded-core/meta/lib/oe/copy_buildsystem.py:223-223 | every line is one of these: a text that neither begins nor ends with space, and space around it |
| `LockedSigsLines.HeaderIff` | layers/openembedded-core/meta/lib/oe/copy_buildsystem.py:211-211 | a header is a line that begins with SIGGEN_LOCKEDSIGS_t- |
| `LockedSigsLines.ContinuedIff` | layers/openembedded-core/meta/lib/oe/copy_buildsystem.py:207-207 | a value goes on while its lines end in a backslash and a line feed |
| `LockedSigsLines.JoinedApart` | layers/openembedded-core/meta/lib/oe/copy_buildsystem.py:248-248 | the list of types has one space between any two |
| `LockedSigsLines.FileOfOne` | layers/openembedded-core/meta/lib/oe/copy_buildsystem.py:236-248 | a file with one type and signature, letter by letter |
| `LockedSigsResults.MainContents` | layers/openembedded-core/meta/lib/oe/copy_buildsystem.py:203-214 | the types and lines of a main file from any state: a second header of a type drops the lines of the first |
| `LockedSigsResults.WrittenReadsBack` | layers/openembedded-core/meta/lib/oe/copy_buildsystem.py:236-248 | reading a written file with the scanner of the main file gives its nonempty types in order |
| `LockedSigsResults.MergedFileReadsBack` | layers/openembedded-core/meta/lib/oe/copy_buildsystem.py:200-253 | the merged file read back gives the merged map without empty types, for all input files |
| `LockedSigsResults.HeaderReadsBack` | layers/openembedded-core/meta/lib/oe/copy_buildsystem.py:211-243 | the header written for a type is read as that type |
| `LockedSigsResults.TypesAreClean` | layers/openembedded-core/meta/lib/oe/copy_buildsystem.py:211-212 | a type read from a header has neither "=" nor space at its end |
| `SuiteOrder.DependencyMeaning` | layers/openembedded-core/meta/lib/oeqa/oetest.py:291-308 | a suite depends on exactly the first suites that define a method one of its methods asks for, itself excepted |
| `SuiteOrder.ProviderIff` | layers/openembedded-core/meta/lib/oeqa/oetest.py:291-308 | the provider of a method is the first suite that has one of that name |
| `SuiteOrder.LinkSuite` | layers/openembedded-core/meta/lib/oeqa/oetest.py:291-308 | the dependencies of one suite, depth 0 |
| `SuiteOrder.LinkSuites` | layers/openembedded-core/meta/lib/oeqa/oetest.py:291-308 | the dependencies of all suites |
| `SuiteOrder.SetSuiteDepth` | layers/openembedded-core/meta/lib/oeqa/oetest.py:313-318 | from depths that are lengths of chains, the recursive update ends with the length of the longest chain, and no depth falls |
| `SuiteOrder.SetDepDepth` | layers/openembedded-core/meta/lib/oeqa/oetest.py:314-317 | one dependency |
| `SuiteOrder.Raise` | layers/openembedded-core/meta/lib/oeqa/oetest.py:316-317 | the depth is raised to a longer chain only |
| `SuiteOrder.SetDepths` | layers/openembedded-core/meta/lib/oeqa/oetest.py:320-322 | every depth is the longest chain, every index the position |
| `SuiteOrder.LongestFromDeps` | layers/openembedded-core/meta/lib/oeqa/oetest.py:313-318 | a chain longer than every chain of the dependencies is the longest |
| `SuiteOrder.Sort` | layers/openembedded-core/meta/lib/oeqa/oetest.py:324-330 | a permutation ascending in depth, then index |
| `SuiteOrder.LoadTests` | layers/openembedded-core/meta/lib/oeqa/oetest.py:285-334 | for acyclic dependencies the final order is a permutation with each suite after all its dependencies |
| `SuiteOrder.DependenciesFirst` | layers/openembedded-core/meta/lib/oeqa/oetest.py:310-330 | ascending longest chains put dependencies first |
| `PackageFiles.FilesFromFilevars` | layers/openembedded-core/meta/lib/oe/package.py:561-584 | the walk over a list that grows as it goes ends with the specified list and warnings |
| `PackageFiles.VisitEntry` | layers/openembedded-core/meta/lib/oe/package.py:562-582 | one entry: cut at the first directory link, its warning, its children appended |
| `PackageFiles.FindLinkedDir` | layers/openembedded-core/meta/lib/oe/package.py:564-576 | the joined path up to the first directory that is a link |
| `PackageFiles.ChildrenWeigh` | layers/openembedded-core/meta/lib/oe/package.py:578-582 | an entry brings less of the tree into the list than it takes out: the walk ends |
| `PackageListing.ExpandMeaning` | layers/openembedded-core/meta/lib/oe/package.py:561-584 | a path is in the list exactly when it is an entry asked for, cut at its first directory link, or lies below one in the tree |
| `PackageListing.CutAtFirstLink` | layers/openembedded-core/meta/lib/oe/package.py:564-576 | the cut is the shortest prefix that is a link, or the whole path when no directory of it is one |
| `PackageListing.ListIsClosed` | layers/openembedded-core/meta/lib/oe/package.py:578-582 | nothing listed lies beneath a link, and all of the tree below a listed path is listed |
| `PackageListing.WarnedPlaces` | layers/openembedded-core/meta/lib/oe/package.py:561-576 | warned about are exactly the entries asked for with a linked directory on the way to the last component, in order and once each |
| `PackageListing.WarnedAreAsked` | layers/openembedded-core/meta/lib/oe/package.py:569-576 | only entries asked for are warned about, once each and in order |
| `Packages.MakeDirectories` | layers/openembedded-core/meta/lib/oe/package.py:1387-1407 | the directories made and marked on the way down to a path |
| `Packages.PlaceFile` | layers/openembedded-core/meta/lib/oe/package.py:1381-1420 | one path of one package: skipped, made, linked, copied or refused |
| `Packages.PopulatePackage` | layers/openembedded-core/meta/lib/oe/package.py:1380-1420 | all paths of one package |
| `Packages.PopulatePackages` | layers/openembedded-core/meta/lib/oe/package.py:1364-1429 | all packages over one list of what was seen, each followed by the test that its warned paths exist in its root |
| `Packages.FindUnshipped` | layers/openembedded-core/meta/lib/oe/package.py:1445-1453 | the entries whose dotted text was never seen |
| `PackagesResults.FirstListerShips` | layers/openembedded-core/meta/lib/oe/package.py:1380-1420 | a file is in a package exactly when the list of that package spells it in a way no earlier list does; every package root has all directories above its files |
| `PackagesResults.PlaceFacts` | layers/openembedded-core/meta/lib/oe/package.py:1381-1420 | what placing one path adds to a package root and to the list of what was seen |
| `PackagesResults.RecurseFacts` | layers/openembedded-core/meta/lib/oe/package.py:1387-1407 | making directories adds directories of the install tree down to the path and nothing else |
| `PackagesLeftover.OnlyFirstShips` | layers/openembedded-core/meta/lib/oe/package.py:1364-1420 | with paths spelled in one way, up to a slash behind directories, no placement fails, and a file is in one package at most, the first whose list has it |
| `PackagesLeftover.LeftoverIsUnpackaged` | layers/openembedded-core/meta/lib/oe/package.py:1445-1453 | with such paths the unshipped entries are exactly those no package holds |
| `PackagesLeftover.TwoSpellingsShipTwice` | layers/openembedded-core/meta/lib/oe/package.py:1380-1417 | two spellings of a file ship it in two packages, and fail in one |
| `PackageOrder.DoubledSlash` | layers/openembedded-core/meta/lib/oe/package.py:1366-1377 | from FILES to two packages: a doubled slash is such a spelling, since the cleaned text is dropped, and the file is in both |
| `PackageOrder.OrderIsSorted` | layers/openembedded-core/meta/lib/oe/package.py:1331-1345 | every package once, ascending in priority and then in first position |
| `PackageOrder.SourcesThenDebug` | layers/openembedded-core/meta/lib/oe/package.py:1335-1345 | one package takes its files before another if and only if it is a source package and the other none, or, where debug files are split off, a debug package and the other neither, or both are of one kind and PACKAGES has it first |
| `PackageDebug.ListMeaning` | layers/openembedded-core/meta/lib/oe/package.py:1354-1378 | the list of a package has what its FILES expand to, that of a debug package, where these are split off, also every entry of the tree whose path text is one of debug files |
| `PackageOrder.ExpandTidy` | layers/openembedded-core/meta/lib/oe/package.py:561-584 | FILES entries spelled in one way, directories and links with or without a slash at the end, are expanded to paths spelled in one way |
| `PackageOrder.EveryFileOnce` | layers/openembedded-core/meta/lib/oe/package.py:1331-1453 | from PACKAGES and FILES to the end: each file or link of the tree is left over or is in exactly one package, the first in order whose list has it |
| `VarSplit.ScanItems` | layers/openembedded-core/meta/lib/oe/recipeutils.py:100-125 | the character loop computes the specification |
| `VarSplit.SplitVarValue` | layers/openembedded-core/meta/lib/oe/recipeutils.py:85-139 | the loop, and for an assignment the joined head |
| `VarSplitPlaces.ItemsHavePlaces` | layers/openembedded-core/meta/lib/oe/recipeutils.py:100-125 | for every value: the items are its quotes outside expressions, in an assignment, and the text between any two cuts, all of them and in order; a place is outside where as many "${" as "}" stand before it |
| `VarSplit.OnlySpaceDropped` | layers/openembedded-core/meta/lib/oe/recipeutils.py:104-125 | the items put together are the value without the whitespace outside expressions: nothing else is lost or moved |
| `VarSplit.ItemsAreGood` | layers/openembedded-core/meta/lib/oe/recipeutils.py:104-125 | no item is empty or could be cut again, and all but the last close their expressions |
| `VarSplit.SplitUndoesSpaced` | layers/openembedded-core/meta/lib/oe/recipeutils.py:104-125 | such items joined with single spaces are split into themselves |
| `VarSplit.SplitAgain` | layers/openembedded-core/meta/lib/oe/recipeutils.py:85-125 | for every value, braces balanced or not: joining its items with spaces and splitting again gives the items |
| `VarSplit.AssignmentIsSplit` | layers/openembedded-core/meta/lib/oe/recipeutils.py:90-139 | an assignment gives its head up to the opening quote, the items of its body, and the closing quote |
| `FileTranslate.TranslateIsEscape` | layers/openembedded-core/meta/lib/oe/package.py:200-207 | the six replacements in a row are one escape of every character |
| `FileTranslate.TranslationReadsBack` | layers/openembedded-core/meta/lib/oe/package.py:200-207 | a decoder answers with a name exactly for the translation of that name |
| `FileTranslate.TranslationInjective` | layers/openembedded-core/meta/lib/oe/package.py:200-207 | no two names have one translation |
| `CveVersion.StrippedIsPadded` | layers/openembedded-core/meta/lib/oe/cve_check.py:59-63 | comparing releases without trailing zeros is comparing them number by number, a missing number being 0 |
| `CveVersion.EqualVersions` | layers/openembedded-core/meta/lib/oe/cve_check.py:49-71 | two versions are equal exactly when their padded releases, patch texts and pre-release numbers are |
| `CveOrder.VersionOrderIff` | layers/openembedded-core/meta/lib/oe/cve_check.py:49-71 | for all versions: one is below another if and only if it has the lower number at the first place where their releases differ, or, these being equal, the lower character at the first place where their patch texts differ in capital letters, or, these too, is the lower pre-release: below what is none, by number, without a number lowest |
| `CveOrder.UpperIs` | layers/openembedded-core/meta/lib/oe/cve_check.py:65-65 | each small letter counts as the capital letter of its place in the alphabet, all else as itself |
| `CveOrder.ReleaseBeforeLetter` | layers/openembedded-core/meta/lib/oe/cve_check.py:49-71 | 1.1.1w is below 3.0.0a, 1.0 is 1, and rc9 is below beta10 |
| `CveVersion.KeysAreOrdered` | layers/openembedded-core/meta/lib/oe/cve_check.py:49-71 | the order is total and antisymmetric, and equal means the same key |
| `CveVersion.OrderIsTransitive` | layers/openembedded-core/meta/lib/oe/cve_check.py:49-71 | the order is transitive |
| `CveVersion.PatchOrderIsNumericIff` | layers/openembedded-core/meta/lib/oe/cve_check.py:27-71 | the text order of patch numbers is their numeric order if and only if they have equally many digits or the shorter is not after the beginning of the longer |
| `CveVersion.EveryNumber` | layers/openembedded-core/meta/lib/oe/cve_check.py:27-71 | every number is written as such a text |
| `CveVersion.TenthPatchIsBeforeNinth` | layers/openembedded-core/meta/lib/oe/cve_check.py:27-71 | patch 10 counts as older than patch 9 |

## Left out

- RealPathResults.ResolutionIsTheWalk: every link has a readable target.
- RealPathModes.ModesAgreeUnresolved: says nothing of a file with a linked directory above it, against the documentation, on a tree with a link to ".".
- PackagesLeftover.OnlyFirstShips: for paths spelled in one way, up to a slash behind directories; for all others `PackagesResults.FirstListerShips` says exactly which package ships a file.
- PackagesLeftover.LeftoverIsUnpackaged: for the same paths; with "a//b" a shipped file is also reported as unshipped.
- ManifestResults.FilteredManifest: bracket-free trees; with brackets `ManifestShape.WellFormedIff` says when the text is an expression at all.
- RelocateResults.RelocationIsLocal: when the rewritten tables fit their sections; `LocalIff` has no such condition.
- RelocateContents.RelocatedFile: the same, and sections that do not overlap.
- SuiteOrder.LoadTests: acyclic dependencies; on a cycle Python's recursion limit ends the program.
- The text of the message about changed signatures, and its sorting.
- PathLib.Realpath: the root is absolute; relative roots, a leading "//" kept by `normpath`, and permission errors are not modelled.
- CachedPathLib.CachedPath.Realpath: the same.
- Files that change during one resolution: a tree is frozen while `realpath` runs, and changes between queries are in `RunsAnswerRight`.
- `CachedPath.walk`, `stat` and `lstat`, which pass cached answers on.
- `glob` and "..", in FILES; a final "/" on a FILES entry that names a file is refused as the kernel does.
- Packages.PopulatePackages: whether a warned path exists under a package root is answered from outside, as links in it may lead anywhere.
- Modes, owners, `PACKAGE_DEBUG_SPLIT_STYLE`, and the order in which `walk` meets entries; unshipped entries come in tree order.
- Python's `ast` parser: trees over the scanned tokens are given, and a license next to a bracket without an operator is not parsed; a license name with a final line feed, which the pattern lets pass.
- `set_taskdata`, `dump_lockedsigs`, `sstate_lockedsigs`, the mismatch text and BitBake's own hash functions.
- ProcessPool.MultiprocessLaunch: with `max_process` 0 there are no items, since otherwise the loop never ends; pipes and signals of child processes are not modelled.
- Escapes in the replacement text, permissions, and Python 2 for `relocate_sdk.py`.
- FileMoves.CompareFileLists: lists are given as `file_list_to_dict` makes them, a path once in each and every link with its target.
- `prune_lockedsigs`, `simplify_history`, `license_ok` and report texts.
- Tag filtering and warnings in `loadTests`.
- The regular expressions for versions (with IGNORECASE they let a few letters outside ASCII pass as a patch) and the rounding of large pre-release numbers as floats.
