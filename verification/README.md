# Verification of the framework's algorithmic core

This project models the parts of the framework that carry real algorithms and proves what
they promise. Pure logic is written as datatypes, functions and lemmas. Code that changes
state is written as classes and loops whose contracts tie them to those functions.
`dafny verify dfyconfig.toml` checks everything.

## What is modelled

**Configuration** (`pkg/appconfig`). `Text`, `KeyFormat`, `CamelCase` and `Placeholder` hold
the string work: key normalisation, and parsing and replacing `${key:default}`. `ConfigTree`
reads, writes and walks the nested tree by flat keys; reading and writing a walked leaf is
shown to be lookup and update in the map of leaves. `Resolver` is the placeholder resolver on
those leaves, with strings as tokens and its write-back acting as a memo, and
`ConfigResolver` is the class that does it in place. Both take the iteration orders of Go
maps as arbitrary. `Substitution` is the pure recursive meaning it is compared with;
`Replacement`, `Ambiguity`, `Memo`, `Resolution`, `Persistence` and `Collapse` relate the
two, and `Cycles` and `CycleReports` say what happens to cycles. `StringLevel` leads from
token sequences back to plain strings. `TextResolver` is the resolver on text, scanned each
time it is read; `TextRefinement` shows that it does what the resolver on tokens does, and
`Dollars` where it does not. `TextFilling` says what becomes of the text of a leaf.
`TreeResolver` runs the resolver on a nested tree, written back by flat
key, and `TreeWrites` says when a write by flat key goes through and what it creates.
`ConfigLoad` is the loop that asks provider groups for providers until nothing new comes
up, and `LoadedConfig` puts loading and resolving together.

**Tenants** (`pkg/tenancy`). `TenantIndex` shows that lexicographic ranges over relation
texts find exactly the right relations. `TenantHierarchy` builds ancestors, descendants,
paths, access decisions and changes of the hierarchy on that index.

**Security** (`pkg/security`). `FeatureList` is what configurers do to the features of a web
security, and `FeaturePipeline` the loop that applies features meanwhile. `CompositeAuth`
flattens composites and asks them in order.

**The rest.** `LogLevels` is the registry of cached logger levels, `Versions` and `Migrator`
the database migrations, `Scheduler` one scheduled task with its goroutines as a step system,
`ModuleClosure` the expansion of modules, `Ordering` the order and the stable sort used by
several of them, and `Collections` what they share about sets and sequences.

## Where the code does not do what one would expect

Each of these comes with an input that shows it and with the condition under which the
expectation does hold.

- **Resolving depends on the visiting order.** A string such as `"${m}${e}"`, with `m` missing
  and `e` empty, becomes the text of one unresolved placeholder. Read again it counts as a
  lone placeholder without a value. A leaf `"${x:d}"` that refers to it then gets the default
  `d` or the text, depending on which leaf was visited first, and keeps it to the end. All
  runs over all leaves agree with the pure substitution if and only if no leaf refers to a
  leaf that collapses in this way (`Collapse.PureExactlyWhenClean`,
  `Collapse.CollapseHappens`).
- **A placeholder with a value can be left standing.** Entries are kept by key and searched
  for by the printed default. `"${a}${a:d}"` keeps one of its placeholders, `"${a:1}${a:2}"`
  its first (`TextFilling.LaterDefaultWins`), and so does `"x${a:1.0}"` if the parsed default
  prints as `1`. A longer string is resolved rightly if
  and only if it is not ambiguous in this sense (`Ambiguity.FreshExactly`,
  `Ambiguity.TwiceIsMissed`, `Ambiguity.OddDefaultIsMissed`).
- **A default on a reference cycle is order dependent too**, because the check for a repeated
  key comes before the default is considered (`Cycles.DefaultOnCycleIsOrderDependent`). For
  strings that are not ambiguous, a circular reference is reported exactly when there is one,
  in every run over all leaves, if and only if there is none, or a cycle of references without
  default, or a leaf that mentions itself (`CycleReports.ReportedExactly`).
- **A literal dollar can make a new placeholder** with the value put in after it, and then the
  outcome depends on the visiting order (`Dollars.DollarMeetsBracket`). When a replacement does
  this is said exactly (`StringLevel.WrittenExactly`).
- **A provider can be kept without being merged, and merged without being kept.** The last
  round is not merged. Whether the properties reflect the providers kept is decided by the
  chain of answers of the groups (`ConfigLoad.ReflectsExactly`,
  `ConfigLoad.PreloadedIsLeftOut`, `ConfigLoad.WithdrawnStays`).
- **Providers are sorted within their groups only**, so a provider can be stored behind one it
  outranks; the whole list is in order if and only if no provider outranks one of a group
  asked later (`ConfigLoad.KeptOutOfOrder`, `ConfigLoad.KeptInOrder`).
- **Camel case beyond ASCII** is looked at in the wrong place (`CamelCase.DashLeftOut`), or past
  the end, which panics (`CamelCase.LooksPastTheEnd`). `CamelCase.ConvertsExactly` says when it
  comes out right.
- **A feature can be passed over.** The index check after a change does not look at the last
  index, so disabling an applied feature is accepted exactly if no more features are left than
  have been applied (`FeaturePipeline.RefusedExactly`). The applied features are the final
  ones if and only if no applied feature was disabled (`FeaturePipeline.Build`,
  `FeaturePipeline.FeaturePassedOver`).
- **A failed refresh can leave caches stale**, because the level tables have changed by then:
  they are right afterwards if and only if every registered logger has the same effective
  level under the old and the new tables (`LogLevels.LoggerFactory.Refresh`,
  `LogLevels.LoggerFactory.StaleAfterFailure`). Setting the root level repairs them
  (`LogLevels.LoggerFactory.RepairAfterFailure`). It also leaves no core creator, so that
  creating a logger panics until a refresh succeeds (`LogLevels.LoggerFactory.NewLoggerPanics`).
- **The empty version does not survive its text** (`Versions.RoundTrip`).
- **At a fixed rate, and for dynamic triggers, done can be signalled with an execution in
  flight** (`Scheduler.SignalsEarly`, `Scheduler.SerialExactly`).
- **An index that is no number counts as zero, a negative one as no index, and the largest
  one overflows the length computed from it**; misplaced brackets panic
  (`ConfigTree.OddSegments`), so that no list is created for it (`TreeWrites.WritesExactly`).
  That a write is read back holds regardless (`ConfigTree.ReadBack`).

## Model

| member | source | states |
|---|---|---|
| `KeyFormat.ConvertCamelCase` | pkg/utils/string.go:66-79 | the rune loop computes the character-by-character definition, on ASCII text |
| `KeyFormat.SnakeHasNoUpper` | pkg/utils/string.go:66-79 | a converted text has no capitals |
| `KeyFormat.SnakeFixpoint` | pkg/utils/string.go:66-79 | a text is left alone exactly when it has no capitals |
| `KeyFormat.SnakeConcat` | pkg/utils/string.go:66-79 | conversion distributes over a cut after any character that is not a small letter |
| `KeyFormat.SnakeSpreads` | pkg/utils/string.go:66-79 | every character has its place in the result, a capital as the small letter of the same rank, and between neighbours there is a dash exactly where a capital follows a small letter, and nothing else |
| `CamelCase.ConvertText` | pkg/utils/string.go:66-79 | for all text, with byte positions used as character indices: the loop panics exactly if it looks back past the end from a capital, and otherwise puts dashes where the place looked at is a small letter |
| `CamelCase.ConvertsExactly` | pkg/utils/string.go:66-79 | dashes come out exactly before the capitals that follow a small letter if and only if the place looked at from every capital is in range and as small as the character before |
| `CamelCase.AsciiConverts` | pkg/utils/string.go:66-79 | on ASCII text it never panics and is the plain conversion |
| `CamelCase.LooksPastTheEnd` | pkg/utils/string.go:70-71 | two characters of two bytes and a capital make it panic |
| `CamelCase.DashLeftOut` | pkg/utils/string.go:70-71 | a small letter of two bytes before a capital: no panic, but the dash that is due is left out |
| `KeyFormat.NormalizeSegments` | pkg/appconfig/map_util.go:220-233 | the loop over the dotted segments computes the segment-wise definition |
| `KeyFormat.NormalizeIsSnake` | pkg/appconfig/map_util.go:220-233 | normalising segment by segment equals converting the whole key |
| `KeyFormat.NormalizeIdempotent` | pkg/appconfig/map_util.go:220-233 | normalising twice is normalising once; normalised keys are exactly those without capitals |
| `Placeholder.ParsePlaceHolder` | pkg/appconfig/config.go:484-521 | the bracket-stack loop returns what the recursive scanner reports, for every string |
| `Placeholder.ParseFailsExactlyOnNesting` | pkg/appconfig/config.go:484-521 | parsing fails if and only if a second `${` comes before the next `}` |
| `Placeholder.ParseUndoesRender` | pkg/appconfig/config.go:469-521 | parsing a rendered token sequence gives back its references in order with their defaults, and flags embedding exactly for more than one token |
| `Placeholder.ScanFindsClosed` | pkg/appconfig/config.go:484-521 | in any text without nesting, unclosed openings included, exactly the openings that are closed are found, each with what stands before the next closing bracket |
| `Placeholder.FoundInExactly` | pkg/appconfig/config.go:469-474 | what is found is a key without colon, and as default what stands behind the first colon |
| `Placeholder.ReplaceIsTokenwise` | pkg/appconfig/config.go:437-446 | replacing the text of a placeholder in a rendered string is replacing that token, for literal text without `${` |
| `StringLevel.TextsFollowTokens` | pkg/appconfig/config.go:438-443 | the series of string replacements equals the series of token replacements as long as no replacement makes literal text read `${` |
| `StringLevel.WrittenExactly` | pkg/appconfig/config.go:438-443 | one replacement makes literal text read `${` if and only if a literal dollar, of the string or ending the value, comes to stand before a literal bracket, of the string or beginning the value, with only placeholders of empty value between |
| `StringLevel.TameStaysWritten` | pkg/appconfig/config.go:438-443 | no replacement of the series does so if, throughout the string and the values, every literal dollar is followed by another literal than a bracket, or every literal bracket preceded by another literal than a dollar |
| `StringLevel.ResolveKeepsSound` | pkg/appconfig/config.go:386-453 | resolving a value, with everything it writes back, keeps all strings such that text and tokens agree |
| `StringLevel.ScannerSeesTokens` | pkg/appconfig/config.go:484-521 | for every token sequence the syntax can carry, the scanner sees exactly its placeholders, and embedding exactly when there is another token |
| `Resolver.ResolveValue` | pkg/appconfig/config.go:386-453 | resolution with write-back keeps the leaves and mentions no new keys; it terminates by the keys not yet visited |
| `Resolver.ResolveAll` | pkg/appconfig/config.go:411-432 | resolving the placeholders of one string in turn keeps the leaves and mentions no new keys |
| `Resolver.Placeholders` | pkg/appconfig/config.go:484-521 | the references of a string, each of them a token of it |
| `Resolver.AssembleIn` | pkg/appconfig/config.go:437-446 | the assembled string mentions only keys of the original and of the values put in |
| `Substitution.PureIsValueAt` | pkg/appconfig/config.go:372-453 | the tabulated pure values are the recursive substitution |
| `Substitution.PureLeavesDead` | pkg/appconfig/config.go:411-446 | a placeholder left in a value has no default and no value |
| `Replacement.ReplaceInAnyOrder` | pkg/appconfig/config.go:438-443 | replacing entry after entry, in any order, equals replacing all at once, if no value brings in what another entry searches for |
| `Replacement.TextDeterminesKey` | pkg/appconfig/config.go:469-474 | placeholders with the same text have the same key and written default |
| `Replacement.MatchIsPure` | pkg/appconfig/config.go:438-443 | in a string that is not ambiguous the entry a token matches is the one recorded for it |
| `Replacement.AssembleIsPure` | pkg/appconfig/config.go:437-446 | assembling a string that is not ambiguous from the gathered entries, in any iteration order, is its pure substitution |
| `Replacement.AssembleLone` | pkg/appconfig/config.go:444-446 | a lone placeholder becomes the value itself, not its text |
| `Ambiguity.AssembleExactly` | pkg/appconfig/config.go:411-446 | a longer string becomes its pure substitution if and only if its placeholders that have a value print back as written and no two different ones share a key |
| `Ambiguity.GatheredDistinct` | pkg/appconfig/config.go:411-432 | one entry is gathered per key, the later placeholder replacing the earlier |
| `Ambiguity.FreshExactly` | pkg/appconfig/config.go:386-453 | resolving a leaf whose references are in order leaves it with its pure substitution if and only if its string is not ambiguous |
| `Ambiguity.TwiceIsMissed` | pkg/appconfig/config.go:411-443 | a key mentioned without and with a default: one of the two placeholders is left standing |
| `Ambiguity.OddDefaultIsMissed` | pkg/appconfig/config.go:438-474 | a default that prints otherwise than it is written is left standing inside a longer string |
| `Memo.WriteBack` | pkg/appconfig/config.go:448-450 | writing a pure value back keeps the store memoised |
| `Memo.DeadValue` | pkg/appconfig/config.go:386-453 | reading an already resolved string again changes nothing, unless it is one lone placeholder without a value |
| `Memo.FinishIsPure` | pkg/appconfig/config.go:437-452 | the assembled and written-back value is the pure one |
| `Memo.GatherIsPure` | pkg/appconfig/config.go:411-432 | the loop over placeholders gathers exactly the pure values, over every memoised store |
| `Memo.ResolveIsPure` | pkg/appconfig/config.go:386-453 | from every memoised store, resolving a key yields its pure substitution, if no leaf up to its rank is ambiguous or refers to a leaf that collapses |
| `Resolution.VisitsFromMemo` | pkg/appconfig/config.go:372-382 | any series of visits from a memoised store keeps it memoised and ends each visited leaf with its pure value |
| `Resolution.VisitsArePure` | pkg/appconfig/config.go:372-382 | without cycles, ambiguous strings and collapsing references, every series of visits succeeds exactly when no visited leaf runs into a malformed string, and leaves each visited leaf with its pure substitution |
| `Resolution.OrderIsIrrelevant` | pkg/appconfig/config.go:372-382 | two complete runs with different visiting and iteration orders agree on success and on the resulting configuration |
| `Collapse.PureExactlyWhenClean` | pkg/appconfig/config.go:372-453 | all runs that visit every leaf once give every leaf its pure substitution if and only if no leaf refers to a leaf that collapses to one unresolvable placeholder |
| `Collapse.DirtyGoesWrong` | pkg/appconfig/config.go:386-453 | if some leaf refers to one that collapses, a run that visits every leaf once, the target first, succeeds and ends with a wrong value there |
| `Collapse.SpoiledLeaf` | pkg/appconfig/config.go:386-453 | resolving a leaf whose target has collapsed leaves it with a value other than its pure substitution |
| `Collapse.SpoiledIsSteady` | pkg/appconfig/config.go:386-453 | the leaf so left shows no placeholder that could still be given a value |
| `Persistence.RanksKept` | pkg/appconfig/config.go:386-453 | resolving keeps a configuration without cycles and malformed strings so, and succeeds |
| `Persistence.ResolvesLow` | pkg/appconfig/config.go:386-453 | resolving a key reads and writes leaves of no higher rank than its own |
| `Persistence.LowKey` | pkg/appconfig/config.go:386-453 | lower leaves stay memoised and resolve as in a clean configuration, whatever higher leaves hold |
| `Persistence.StaysSteady` | pkg/appconfig/config.go:386-453 | resolving any key leaves a steady leaf as it is |
| `Persistence.VisitsStaySteady` | pkg/appconfig/config.go:372-382 | so does any series of visits, and it succeeds |
| `Collapse.CollapseHappens` | pkg/appconfig/config.go:386-453 | an acyclic configuration without ambiguous strings, for any four keys, that some run visiting every leaf once resolves wrongly |
| `Cycles.ReportsAreReal` | pkg/appconfig/config.go:399-409 | a circular reference reported while resolving a key means that the key reaches a cycle |
| `Cycles.SuccessTerminates` | pkg/appconfig/config.go:386-432 | a key that resolves has no infinite chain of references without default, from every store a run can be in |
| `Cycles.CircularIsReal` | pkg/appconfig/config.go:399-409 | a reported circular reference is always real, with or without defaults |
| `Cycles.CircularExactly` | pkg/appconfig/config.go:386-432 | without malformed strings every run succeeds or reports a circular reference: always if a visited leaf reaches a cycle of references without default, only if one reaches a cycle, and exactly then if no default refers towards a cycle |
| `Cycles.TerminatingReachesNoCycle` | pkg/appconfig/config.go:399-409 | a leaf whose reference chains are bounded reaches no cycle |
| `Cycles.TerminatesExactly` | pkg/appconfig/config.go:386-453 | the chains of references from a leaf are bounded if and only if it reaches no cycle |
| `Cycles.RankedIffAcyclic` | pkg/appconfig/config.go:386-453 | a configuration can be ranked if and only if no leaf reaches itself |
| `Cycles.DefaultOnCycleIsOrderDependent` | pkg/appconfig/config.go:399-428 | with a default on a cycle one visiting order succeeds and another reports a circular reference |
| `CycleReports.ReportedInEveryRun` | pkg/appconfig/config.go:372-453 | every run over all leaves reports a circular reference if and only if there is a cycle of references without default or a leaf mentions itself |
| `CycleReports.ReportedExactly` | pkg/appconfig/config.go:372-453 | a circular reference is reported exactly when there is one, in every run over all leaves, if and only if there is none, or one of references without default, or a leaf mentions itself |
| `CycleReports.SomeRunSucceeds` | pkg/appconfig/config.go:372-453 | otherwise visiting the leaves by rank along references without default succeeds |
| `CycleReports.KeyGoes` | pkg/appconfig/config.go:386-453 | from every store a run can be in, resolving a key rewrites a leaf only to a value whose remaining references have no default and end in nothing |
| `CycleReports.VisitPasses` | pkg/appconfig/config.go:386-453 | a leaf that does not mention itself and whose references without default lead to such leaves is resolved, whatever its defaulted references run into |
| `CycleReports.SelfStays` | pkg/appconfig/config.go:399-409 | a leaf that mentions itself is never rewritten, and resolving it is an error |
| `CycleReports.LoadReports` | pkg/appconfig/config.go:372-453 | what a load that stops at the first error says about cycles, and the absence of an error about their absence |
| `CycleReports.OddDefaultOnCycle` | pkg/appconfig/config.go:399-446 | a default that is never put in place: every run is reported although the only cycle has a default on it |
| `ConfigResolver.Config.constructor` | pkg/appconfig/config.go:372-374 | the resolver starts from the given leaves |
| `ConfigResolver.Config.ResolveValue` | pkg/appconfig/config.go:386-453 | the recursive method with in-place write-back does what the resolution function says |
| `ConfigResolver.Config.GatherEntries` | pkg/appconfig/config.go:411-432 | the loop over placeholders does what the resolution function says |
| `ConfigResolver.Config.Resolve` | pkg/appconfig/config.go:372-382 | visiting the leaves in an arbitrary order does what the resolution function says, visits no leaf twice, and on success all of them |
| `ConfigResolver.Config.ResolveCleanly` | pkg/appconfig/config.go:372-382 | whatever the map order, a clean acyclic configuration ends with every leaf at its pure substitution |
| `ConfigResolver.Config.ResolveOrReportCycle` | pkg/appconfig/config.go:372-453 | without malformed strings a load succeeds or reports a circular reference: always for a cycle of references without default or a leaf that mentions itself, only for a cycle, and exactly then if no default refers towards one |
| `Resolver.Repeats` | pkg/appconfig/config.go:399-409 | the nested loops find a repeated key exactly when there is one |
| `ConfigResolver.ReplaceLoop` | pkg/appconfig/config.go:438-443 | the replacement loop is the fold over the entries |
| `TextRefinement.TextFollows` | pkg/appconfig/config.go:386-453 | resolving a leaf by scanning and replacing text shows, result and leaves, what resolving it on tokens does, where dollars and brackets are kept apart |
| `TextRefinement.GatherFollows` | pkg/appconfig/config.go:411-432 | so does gathering the values of what the scanner finds |
| `TextRefinement.AssembleShows` | pkg/appconfig/config.go:434-446 | text assembled in the order a map is iterated renders what is assembled from tokens in that order |
| `TextRefinement.VisitsFollow` | pkg/appconfig/config.go:372-382 | any series of visits on text shows the same series on tokens |
| `TextFilling.TextIsFilled` | pkg/appconfig/config.go:386-453 | for any number of placeholders, any iteration order and any other leaves: each gives way to the text of the leaf its key leads to, else to the default written in it, else it stays; the leaf is rewritten and no other |
| `TextFilling.LoneIsFilled` | pkg/appconfig/config.go:437-446 | a text that is one placeholder becomes the leaf its key leads to, else its default with the type it was given, else it stays |
| `TextFilling.DefaultInPlace` | pkg/appconfig/config.go:417-443 | `${key:raw}` between any two texts, where the key leads nowhere, becomes `raw` between the two texts |
| `TextFilling.LaterDefaultWins` | pkg/appconfig/config.go:411-443 | one key with two defaults: the later placeholder gives way and the earlier stays |
| `TextFilling.NestingIsReported` | pkg/appconfig/config.go:392-397 | a text with nested placeholders is an error and nothing is written |
| `TextFilling.DefaultCoversError` | pkg/appconfig/config.go:411-421 | a default covers an error of what its key leads to; without one the error is passed on |
| `TextFilling.FillInTree` | pkg/appconfig/config.go:372-453 | the same in the nested tree: the leaf is rewritten and no other touched |
| `TextFilling.PureIsTextual` | pkg/appconfig/config.go:386-453 | the pure substitution as text, at every depth: the text of a leaf with each placeholder replaced by what its key stands for, else by its printed default, else left; a lone one takes the value over with its type |
| `Dollars.DollarMeetsBracket` | pkg/appconfig/config.go:372-453 | leaves `$${a}`, `{b}` and `${x}`, for any four keys: two runs over all leaves succeed and end with different texts, one of them the value of a key that no leaf mentions |
| `TreeResolver.ReadsLeaf` | pkg/appconfig/config.go:236-247 | reading a key of the tree reads its leaf |
| `TreeResolver.WritesLeaf` | pkg/appconfig/config.go:448-450 | writing a scalar by flat key updates exactly that leaf, nil none, and keys lead where they led |
| `TreeResolver.ReplaceInText` | pkg/appconfig/config.go:438-443 | the loop of string replacements in the order a map is iterated |
| `TreeResolver.GatherOne` | pkg/appconfig/config.go:413-431 | one placeholder found in the text: read from the tree, resolved, and recorded |
| `TreeResolver.Gather` | pkg/appconfig/config.go:411-432 | the loop over the placeholders found does to the tree what gathering does to its leaves |
| `TreeResolver.Followed` | pkg/appconfig/config.go:411-452 | assembling text and writing it into the tree updates the leaf |
| `TreeResolver.ResolveInTree` | pkg/appconfig/config.go:386-453 | for any text, resolving in the tree does to its leaves what the resolver on text does, with its errors |
| `TreeResolver.VisitLeaves` | pkg/appconfig/config.go:372-382 | visits no leaf twice, on success all of them, and stops at the first error |
| `TreeResolver.TreeConfig.Resolve` | pkg/appconfig/config.go:372-382 | for any text, resolving the tree in place is a run of the resolver on text over its leaves |
| `TreeResolver.TreeConfig.ResolveCleanly` | pkg/appconfig/config.go:372-453 | for a clean acyclic configuration, whatever the map orders, it succeeds exactly if no string is malformed, and the tree then shows the pure substitution of every leaf as text |
| `LoadedConfig.LoadResolved` | pkg/appconfig/config.go:84-194 | a load ends with the pure substitution of the merged properties, and succeeds exactly if the rounds do and no leaf runs into a malformed string |
| `ConfigTree.ReadValue` | pkg/appconfig/config.go:236-325 | the descending loop computes the value under a flat key, for every tree and key |
| `ConfigTree.GetAfterSet` | pkg/appconfig/config.go:252-325 | a non-null value written along a path is found along that path |
| `ConfigTree.ReadBack` | pkg/appconfig/config.go:236-325 | for every tree and key, with or without creating nodes: a successful write of a non-null value is read back |
| `ConfigTree.OddSegments` | pkg/appconfig/config.go:284-305 | a text between brackets that is no number counts as index zero, minus one as no index, brackets the wrong way round panic, and the length for the largest index overflows |
| `TreeWrites.WritesExactly` | pkg/appconfig/config.go:254-325 | a write goes through if and only if, along its path, what is read is a map or a long enough list, or, when nodes may be created, nothing, except that no list is made for the largest index |
| `TreeWrites.WrittenLeaves` | pkg/appconfig/config.go:254-325 | after a write that goes through, into existing or created nodes, the value is read back, the walk hands out its leaves below its key, and every leaf that neither leads there nor lies below stays |
| `TreeWrites.WrittenGood` | pkg/appconfig/config.go:254-325 | the tree keeps its form |
| `TreeWrites.WrittenLists` | pkg/appconfig/config.go:262-270 | a list that was there keeps its length, and a new one is as long as its index needs |
| `TreeWrites.NothingWritten` | pkg/appconfig/config.go:254-325 | a write that fails, and a write of null, changes no leaf other than null, and nothing at all when no nodes may be created |
| `ConfigTree.WalkFollowsPaths` | pkg/appconfig/map_util.go:78-130 | everything the walk hands out is a leaf at the end of a path, under the flat key of that path |
| `ConfigTree.PathsAreWalked` | pkg/appconfig/map_util.go:78-130 | every leaf at the end of a path is handed out by the walk |
| `ConfigTree.PartsOfFlatKey` | pkg/appconfig/map_util.go:205-215 | splitting the flat key of a path gives the texts of its segments |
| `ConfigTree.FlatKeyInjective` | pkg/appconfig/config.go:327-343 | different paths have different flat keys |
| `ConfigTree.WalkedLeavesReadBack` | pkg/appconfig/config.go:236-247 | every pair handed out by the walk is read back at its key |
| `ConfigTree.KeysAreUnique` | pkg/appconfig/map_util.go:78-130 | the walk hands out each key once |
| `ConfigTree.SetIsGraft` | pkg/appconfig/config.go:252-325 | writing anything but null over a leaf goes through and replaces that leaf by what is written |
| `ConfigTree.GraftWalk` | pkg/appconfig/map_util.go:78-130 | walking the new tree hands out the leaves of what was put in, under its key, and all others |
| `ConfigTree.NowhereStays` | pkg/appconfig/config.go:252-325 | a path that leads nowhere still does when a scalar replaces a scalar |
| `ConfigTree.WriteOneLeaf` | pkg/appconfig/config.go:252-325 | writing any value but null over a leaf: the walk then hands out the leaves of that value and every other leaf unchanged |
| `ConfigTree.TreeIsItsFlatMap` | pkg/appconfig/config.go:236-325 | reading by flat key is lookup in the map of leaves; writing any value but null is removing the leaf and adding the leaves of the value |
| `ConfigTree.ScalarUpdatesFlatMap` | pkg/appconfig/config.go:252-325 | writing a scalar is updating the map at one key |
| `ConfigLoad.Pull` | pkg/appconfig/config.go:123-131 | loading a list leaves everything in it loaded |
| `ConfigLoad.PullExactly` | pkg/appconfig/config.go:123-131 | loading a list succeeds if and only if everything in it that is not loaded can be |
| `ConfigLoad.EachLoadedOnce` | pkg/appconfig/config.go:112-132 | every provider is loaded at most once and none that was loaded before; what is loaded afterwards is accounted for, on failure too |
| `ConfigLoad.LoadEnds` | pkg/appconfig/config.go:112-170 | the rounds number at most two more than the providers still to be loaded |
| `ConfigLoad.LoadSettles` | pkg/appconfig/config.go:112-170 | on success the properties are the merge of the list used, the providers kept are what the groups answer for them, and all are loaded |
| `ConfigLoad.ReflectsExactly` | pkg/appconfig/config.go:112-170 | success, properties and providers are decided by the chain of answers computed from the groups alone: a load succeeds if and only if the chain has a first round that brings nothing unloaded and everything before it loads; the list merged is the list kept if and only if the last two answers agree; the properties are the merge of the providers kept if and only if one more merge would not change them |
| `ConfigLoad.RoundsReadOff` | pkg/appconfig/config.go:112-170 | the outcome of the rounds from any point on is read off the chain |
| `ConfigLoad.ForcedReflects` | pkg/appconfig/config.go:96-170 | with groups that only reveal further providers a forced load ends with the merge of exactly the providers kept |
| `ConfigLoad.PreloadedIsLeftOut` | pkg/appconfig/config.go:134-137 | a provider loaded earlier that is offered in the second round is kept without being merged |
| `ConfigLoad.WithdrawnStays` | pkg/appconfig/config.go:134-137 | a provider withdrawn in the second round stays merged without being kept |
| `ConfigLoad.PullGroup` | pkg/appconfig/config.go:123-131 | the loop over one group loads what is not loaded, in order, and stops at the first failure |
| `ConfigLoad.CollectRound` | pkg/appconfig/config.go:113-132 | one round collects the answers of all groups in order and loads them |
| `ConfigLoad.RunRounds` | pkg/appconfig/config.go:105-170 | the round loop computes the round-by-round definition |
| `ConfigLoad.HighestFirst` | pkg/appconfig/config.go:186-191 | the providers are stored in reverse order |
| `ConfigLoad.GroupsSorted` | pkg/appconfig/config.go:93-94 | the groups are asked with those without order first and priority ordered ones last, by decreasing number; sorting them again in a later load changes nothing |
| `ConfigLoad.GroupsStay` | pkg/appconfig/config.go:93-94 | groups with the same order are asked as registered |
| `ConfigLoad.ProvidersStay` | pkg/appconfig/config.go:115-118 | providers of a group with the same precedence stay as answered, and none is lost |
| `ConfigLoad.KeptInOrder` | pkg/appconfig/config.go:115-118 | the stored list has priority ordered providers first and those without order last, by number, if and only if no provider outranks one of a group asked later |
| `ConfigLoad.KeptOutOfOrder` | pkg/appconfig/config.go:115-118 | two groups of one provider each whose stored list is not in order |
| `ConfigLoad.CollectProfiles` | pkg/appconfig/config.go:178-184 | exactly the non-empty profiles |
| `ConfigLoad.Config.constructor` | pkg/appconfig/config.go:75-81 | nothing is loaded at first |
| `ConfigLoad.Config.LoadFrom` | pkg/appconfig/config.go:96-194 | the rounds, resolving, profiles and the reversed list, with the flags on success and failure |
| `ConfigLoad.Config.Load` | pkg/appconfig/config.go:84-194 | groups are sorted; success exactly when rounds, merging and resolving succeed; failure leaves properties and providers unchanged and the configuration not loaded; profiles are those of the resolved properties, and a forced load that fails has none |
| `ConfigLoad.Config.Reload` | pkg/appconfig/config.go:96-176 | a successful forced load ends with the resolved merge of exactly the providers it keeps, which are those the groups answer |
| `TenantIndex.PrefixRange` | pkg/tenancy/util.go:44-46 | a lexicographic range from a text to an extension of it holds exactly the extensions up to that end |
| `TenantIndex.RangeIsExact` | pkg/tenancy/accessor.go:47-92 | the range for a subject and a predicate holds exactly the relations with that subject and predicate |
| `TenantIndex.ObjectOfTriple` | pkg/tenancy/util.go:26-42 | the object is recovered from the text of a relation |
| `TenantIndex.TripleInjective` | pkg/tenancy/util.go:26-32 | different relations have different texts |
| `TenantHierarchy.ZRangeByLex` | pkg/tenancy/accessor.go:52-59 | a range query returns exactly the members in the range |
| `TenantHierarchy.ZAddSorted` | pkg/tenancy/modifier/modifier.go:109-114 | adding to the sorted set keeps it sorted |
| `TenantHierarchy.ParentAgrees` | pkg/tenancy/accessor.go:47-69 | the parent found through the index is the parent in the relation |
| `TenantHierarchy.ChildrenAgree` | pkg/tenancy/accessor.go:71-92 | the children found through the index are the children in the relation, each once |
| `TenantHierarchy.AncestorsTransitive` | pkg/tenancy/accessor.go:94-111 | an ancestor of an ancestor is an ancestor |
| `TenantHierarchy.AncestorsUnique` | pkg/tenancy/accessor.go:94-111 | the chain of ancestors does not depend on how depth is measured |
| `TenantHierarchy.ClosedHoldsDescendants` | pkg/tenancy/accessor.go:113-166 | what is closed under children holds all descendants |
| `TenantHierarchy.Climb` | pkg/tenancy/accessor.go:99-104 | going from parent to parent through the index yields the chain of ancestors in the relation |
| `TenantHierarchy.GetLevel` | pkg/tenancy/accessor.go:125-158 | one round of the search collects the children of the whole queue |
| `TenantHierarchy.SearchStep` | pkg/tenancy/accessor.go:123-164 | a round keeps what was met distinct, below the start, and closed up to the queue |
| `TenantHierarchy.Search` | pkg/tenancy/accessor.go:113-166 | the level-order search terminates with exactly the descendants, each once |
| `TenantHierarchy.CollectObjects` | pkg/tenancy/accessor.go:83-91 | the loop over relations returns their objects, or fails at the first malformed one |
| `TenantHierarchy.ParseIds` | pkg/tenancy/accessor.go:207-213 | reads every text or fails at the first that cannot be read |
| `TenantHierarchy.ReverseInPlace` | pkg/tenancy/accessor.go:215-221 | swapping in place reverses the path |
| `TenantHierarchy.ReversedChainIsPath` | pkg/tenancy/accessor.go:195-223 | the reversed chain starts at a root, ends at the tenant, and each element is the parent of the next |
| `TenantHierarchy.AccessIsInherited` | pkg/security/context.go:197-214 | access to a tenant is access to all its descendants |
| `TenantHierarchy.AddEncodes` | pkg/tenancy/modifier/modifier.go:109-114 | adding both relations encodes the extended relation |
| `TenantHierarchy.AddStaysAcyclic` | pkg/tenancy/modifier/modifier.go:98-107 | an addition that passes the checks keeps the hierarchy free of cycles |
| `TenantHierarchy.RemoveEncodes` | pkg/tenancy/modifier/modifier.go:67-72 | removing both relations of a leaf encodes the smaller relation |
| `TenantHierarchy.Tenancy.constructor` | pkg/tenancy/accessor.go:40-45 | an empty hierarchy is well formed |
| `TenantHierarchy.Tenancy.GetParent` | pkg/tenancy/accessor.go:47-69 | the query, with its errors for missing data and for several parents |
| `TenantHierarchy.Tenancy.GetChildren` | pkg/tenancy/accessor.go:71-92 | the query, with its error for missing data |
| `TenantHierarchy.Tenancy.GetAncestors` | pkg/tenancy/accessor.go:94-111 | the loop returns the chain of parents, nearest first |
| `TenantHierarchy.Tenancy.GetDescendants` | pkg/tenancy/accessor.go:113-166 | returns no duplicates, and d if and only if the tenant is an ancestor of d |
| `TenantHierarchy.Tenancy.AnyHasDescendant` | pkg/tenancy/context.go:80-100 | true exactly if the tenant is in the set or below a member of it |
| `TenantHierarchy.Tenancy.GetTenancyPath` | pkg/tenancy/accessor.go:195-223 | the ids from the root down to the tenant, each read from its text; fails exactly if the tenant, or once loaded an ancestor, cannot be read |
| `TenantHierarchy.Tenancy.IsTenantValid` | pkg/security/context.go:162-176 | true exactly for the root and for tenants that have a parent |
| `TenantHierarchy.Tenancy.Access` | pkg/security/context.go:197-214 | granted if and only if the tenant is valid and the tenants of the session hold the wildcard or some tenant on its path from the root; invalid exactly if it has no parent and is not the root, or nothing is loaded; denied otherwise |
| `TenantHierarchy.DeniedOffPath` | pkg/security/context.go:197-214 | a session without tenants, or whose tenants hold neither the wildcard nor anything on the path, is denied |
| `TenantHierarchy.OnlyPath` | pkg/tenancy/accessor.go:195-223 | there is only one path from the root to a tenant |
| `TenantHierarchy.Tenancy.AddTenant` | pkg/tenancy/modifier/modifier.go:75-115 | refused additions change nothing; accepted ones extend the relation by one edge and keep it a forest |
| `TenantHierarchy.Tenancy.RemoveTenant` | pkg/tenancy/modifier/modifier.go:40-73 | refused removals change nothing; accepted ones drop one leaf and keep the rest |
| `Ordering.LessIsTotal` | pkg/utils/order/ordered.go:72-98 | the comparison is a strict total order on what objects say about their order |
| `Ordering.InOrderIsByClass` | pkg/utils/order/ordered.go:68-98 | a list is in order if and only if priority ordered elements come first, then ordered ones, each by increasing number, then the rest |
| `Ordering.SortKeepsOfKey` | pkg/utils/order/ordered.go:58-66 | elements with the same order keep their places among themselves |
| `Ordering.StableSortSorts` | pkg/utils/order/ordered.go:58-66 | the result is sorted |
| `Ordering.StableSort` | pkg/utils/order/ordered.go:58-66 | the result is a permutation |
| `Ordering.SortKeepsPeers` | pkg/utils/order/ordered.go:58-66 | elements that rank alike keep their order |
| `Ordering.SortedUnique` | pkg/utils/order/ordered.go:58-66 | sorted, permuted and stable determine the result |
| `Ordering.SortPartFirst` | pkg/utils/order/ordered.go:58-66 | sorting a part beforehand makes no difference |
| `Ordering.SortOfSorted` | pkg/utils/order/ordered.go:58-66 | a sorted list is left alone |
| `CompositeAuth.FlattenIsOneSort` | pkg/security/authenticate.go:84-98 | flattening level by level, with a sort at every level, equals one stable sort of the leaves in tree order |
| `CompositeAuth.FlattenKeepsLeaves` | pkg/security/authenticate.go:84-98 | flattening loses and duplicates nothing and leaves no composite |
| `CompositeAuth.FlattenByClass` | pkg/security/authenticate.go:84-98 | flattening gives priority ordered authenticators first, then ordered ones, each by number, then the rest, and those with the same order as they stand in the tree |
| `CompositeAuth.LeavesInTreeOrder` | pkg/security/authenticate.go:84-98 | the leaves of a composite are those of its children, in their order |
| `CompositeAuth.WithoutKeepsOthers` | pkg/security/authenticate.go:122-136 | exactly the composite itself is removed |
| `CompositeAuth.WithoutConcat` | pkg/security/authenticate.go:122-136 | the others keep their places |
| `CompositeAuth.Compact` | pkg/security/authenticate.go:122-130 | the in-place compaction moves the kept items to the front in order |
| `CompositeAuth.ClearFrom` | pkg/security/authenticate.go:131-134 | the tail is cleared and nothing else |
| `CompositeAuth.RemoveSelf` | pkg/security/authenticate.go:122-136 | the array holds the kept items in order followed by nothing |
| `CompositeAuth.Process` | pkg/security/authenticate.go:113-136 | a fresh sorted list without the composite itself |
| `CompositeAuth.CompositeAuthenticator.constructor` | pkg/security/authenticate.go:66-70 | children are sorted and do not hold the composite itself |
| `CompositeAuth.CompositeAuthenticator.Add` | pkg/security/authenticate.go:100-106 | the sorted children with one more, without the composite itself |
| `CompositeAuth.CompositeAuthenticator.Merge` | pkg/security/authenticate.go:108-111 | the sorted children with those of another composite |
| `CompositeAuth.CompositeAuthenticator.Authenticate` | pkg/security/authenticate.go:72-81 | the first answer along the list flattened at first use; no leaf of an earlier class, or of the same class with a smaller number, has an answer |
| `ModuleClosure.ClosedHoldsPath` | pkg/bootstrap/bootstrapper.go:149-159 | a closed set with the roots holds everything they reach |
| `ModuleClosure.ExpandOnce` | pkg/bootstrap/bootstrapper.go:154-158 | one pass, in any order, keeps the set reachable and adds what its former members refer to |
| `ModuleClosure.Expand` | pkg/bootstrap/bootstrapper.go:149-159 | for every graph, cycles included, and every order: exactly the modules reachable from the roots |
| `ModuleClosure.Values` | pkg/bootstrap/bootstrapper.go:160 | every element of the set once |
| `ModuleClosure.SortModules` | pkg/bootstrap/bootstrapper.go:160-161 | a permutation in order of precedence |
| `ModuleClosure.CollectOptions` | pkg/bootstrap/bootstrapper.go:163-172 | the priority options of all modules, then their regular ones, module by module |
| `ModuleClosure.CollectedConcat` | pkg/bootstrap/bootstrapper.go:163-172 | the options of a list are those of its parts, in order |
| `ModuleClosure.NewApp` | pkg/bootstrap/bootstrapper.go:149-172 | each reachable module contributes its options once, in precedence order, priority options first |
| `FeaturePipeline.DoKeepsShape` | pkg/security/web_security.go:141-163 | one operation keeps the applied features in front; it only removes some of them, and only if it disables an applied one |
| `FeaturePipeline.DoAllKeepsShape` | pkg/security/web_security.go:141-163 | the same for any series of operations of a configurer |
| `FeaturePipeline.SortFeatures` | pkg/security/initializer.go:252-256 | the tail is sorted and permuted, the front untouched |
| `FeaturePipeline.HandleChanged` | pkg/security/initializer.go:200-221 | refuses exactly if the feature has moved or a remaining one ranks lower; otherwise the remaining features are sorted and nothing applied is lost |
| `FeaturePipeline.FirstTells` | pkg/security/initializer.go:211-218 | after the sort, looking at the next feature alone tells whether any remaining one ranks lower |
| `FeaturePipeline.RefusedExactly` | pkg/security/initializer.go:172-221 | an application that disables an applied feature is refused exactly if more features are left than have been applied; any other exactly if it leaves one that ranks before the current one |
| `FeatureList.WebSecurity.PerformOne` | pkg/security/web_security.go:93-163 | one operation of a configurer on the object is the specified one |
| `FeatureList.Perform` | pkg/security/web_security.go:93-163 | a series of operations, told without carrying them out: it panics exactly if one is forbidden; otherwise old features that are not disabled stay as they are, behind them come the instances taken in, and the change flag is set exactly if one was added or removed |
| `FeatureList.DoneExactly` | pkg/security/web_security.go:93-163 | the same for the specified operations, and which identifiers are held at the end |
| `FeatureList.EnablingKeepsAll` | pkg/security/web_security.go:141-153 | without a disabling operation the old features come first, unchanged, and every new one is the first instance asked for under its identifier |
| `FeatureList.OthersStay` | pkg/security/web_security.go:141-163 | features that no operation disables stay, as the same instances and in order |
| `FeatureList.DisablingRemoves` | pkg/security/web_security.go:155-163 | after disabling it no feature has that identifier, and the others are as they were |
| `FeaturePipeline.ApplyRound` | pkg/security/initializer.go:154-181 | one turn of the loop either goes on with everything applied so far accounted for, or ends as a run may end |
| `FeaturePipeline.ApplyFeature` | pkg/security/initializer.go:163-180 | one application ends exactly as specified: panic, error, refusal or going on |
| `FeaturePipeline.Begin` | pkg/security/initializer.go:147-153 | the configured features, sorted, or a panic |
| `FeaturePipeline.ApplyAll` | pkg/security/initializer.go:154-181 | the loop ends; every application follows from the one before, and it fails only for the stated reason |
| `FeaturePipeline.Build` | pkg/security/initializer.go:153-181 | for every behaviour of the configurers: terminates, applies no identifier twice, priority ordered features first and then ordered ones by number, ends with the error of a configurer exactly if one reports it, fails only for a stated reason; on success the applied features are the final ones if and only if no application disabled an applied one |
| `FeaturePipeline.FeaturePassedOver` | pkg/security/initializer.go:140-221 | a whole build, for any three features in order, that succeeds with the third feature configured but never applied, because the second disables the first |
| `FeatureList.WebSecurity.constructor` | pkg/security/web_security.go:43-52 | no features at first |
| `FeatureList.WebSecurity.FindFeatureIndex` | pkg/security/web_security.go:281-288 | the first feature with the identifier, or none |
| `FeatureList.WebSecurity.EnableFeature` | pkg/security/web_security.go:141-153 | panics exactly for an applied feature; returns the instance that is there and changes nothing, or appends the new one |
| `FeatureList.WebSecurity.WithFeature` | pkg/security/web_security.go:93-99 | panics exactly for an applied feature or if another instance is there; otherwise as enabling |
| `FeatureList.WebSecurity.DisableFeature` | pkg/security/web_security.go:155-163 | leaves the features with other identifiers, in order, and tells whether there was one |
| `LogLevels.ResolveLoop` | pkg/log/factory_zap.go:171-180 | the shrinking-prefix loop computes the lookup |
| `LogLevels.ResolveIsEffective` | pkg/log/factory_zap.go:171-180 | the lookup is the level of the longest configured dotted ancestor, or the root level |
| `LogLevels.EffectiveIsUnique` | pkg/log/factory_zap.go:171-180 | there is exactly one such level |
| `LogLevels.OtherKeysUnaffected` | pkg/log/factory_zap.go:130-140 | a change at one key is invisible to keys not under it |
| `LogLevels.RecomputedUnder` | pkg/log/factory_zap.go:130-140 | recomputing the loggers under a changed key makes all caches right |
| `LogLevels.CacheIsDetermined` | pkg/log/factory_zap.go:82-180 | right caches are determined by the level tables |
| `LogLevels.RecomputeEach` | pkg/log/factory_zap.go:132-139 | the loop, in any order, gives exactly the chosen loggers their effective level |
| `LogLevels.ConvertNames` | pkg/log/factory_base.go:41-47 | levels by name become levels by key |
| `LogLevels.AncestryCovers` | pkg/log/manage.go:47-51 | the names added for a logger are exactly its dotted ancestors |
| `LogLevels.AddAncestry` | pkg/log/manage.go:47-51 | the loop adds a name and all its dotted ancestors and forgets nothing |
| `LogLevels.CollectNames` | pkg/log/manage.go:42-52 | exactly the ancestors of the loggers under the prefix |
| `LogLevels.Populate` | pkg/log/manage.go:53-64 | each effective level reported is the direct lookup |
| `LogLevels.LoggerFactory.constructor` | pkg/log/factory_zap.go:60-80 | the tables come from the properties and no logger is registered |
| `LogLevels.LoggerFactory.CreateLogger` | pkg/log/factory_zap.go:82-93 | an existing logger is returned, a new one registered with its effective level; panics exactly if it is new and there is no core creator |
| `LogLevels.LoggerFactory.Recompute` | pkg/log/factory_zap.go:104-112 | exactly the chosen loggers are recomputed |
| `LogLevels.LoggerFactory.SetRootLevel` | pkg/log/factory_zap.go:104-112 | every cache is right, whatever it was before |
| `LogLevels.LoggerFactory.SetPrefix` | pkg/log/factory_zap.go:114-141 | one entry of the table changes, the loggers under it are recomputed, and every cache is right |
| `LogLevels.LoggerFactory.SetLevel` | pkg/log/factory_zap.go:114-141 | sets or takes away the level of one key and no other, or sets the root level for the root keys; every cache is right |
| `LogLevels.SetIsSeen` | pkg/log/factory_zap.go:114-141 | a logger covered by the key gets the new level, unless a nearer ancestor is configured; then it keeps its own |
| `LogLevels.LoggerFactory.Refresh` | pkg/log/factory_zap.go:143-169 | a successful refresh makes every cache right; a failed one changes the tables and drops the core creator, and right caches stay right if and only if every registered logger has the same effective level under both tables |
| `LogLevels.LoggerFactory.StaleAfterFailure` | pkg/log/factory_zap.go:143-169 | a failed refresh that changes the level of a registered logger leaves its cached level wrong |
| `LogLevels.LoggerFactory.NewLoggerPanics` | pkg/log/factory_zap.go:82-93 | after a failed refresh creating an unregistered logger panics, until a refresh succeeds |
| `LogLevels.LoggerFactory.Levels` | pkg/log/manage.go:38-73 | every reported effective level but the root entry is the direct lookup, for every wanted key |
| `LogLevels.LoggerFactory.SetThenUnset` | pkg/log/factory_zap.go:114-141 | setting then unsetting an unconfigured prefix restores everything |
| `LogLevels.LoggerFactory.RepairAfterFailure` | pkg/log/factory_zap.go:104-112 | after a failed refresh, setting the root level makes every cache right again |
| `Versions.CompareLoop` | pkg/migration/version.go:29-45 | the loop decides the order: the first difference, else the shorter version first |
| `Versions.LtExactly` | pkg/migration/version.go:29-45 | one version is before another if and only if it is a proper prefix or smaller at the first difference |
| `Versions.LtTransitive` | pkg/migration/version.go:29-45 | the order is transitive |
| `Versions.LtTotal` | pkg/migration/version.go:29-70 | exactly one of before, equal and after |
| `Versions.WriteString` | pkg/migration/version.go:47-56 | the loop writes the dotted text |
| `Versions.ReadString` | pkg/migration/version.go:102-119 | the loop parses all parts or fails |
| `Versions.RoundTrip` | pkg/migration/version.go:47-119 | parsing the text of a version gives it back if and only if it is not empty |
| `Versions.StringInjective` | pkg/migration/version.go:47-56 | different versions have different texts |
| `Versions.StringConcat` | pkg/migration/version.go:47-56 | components are separated by dots |
| `Migrator.SortedSteps` | pkg/migration/migrator.go:34-35 | the sorted steps strictly ascend |
| `Migrator.RunAscends` | pkg/migration/migrator.go:71-97 | the versions executed strictly ascend and each was due |
| `Migrator.RunExactly` | pkg/migration/migrator.go:25-97 | one run in either mode: a failed row stops it; otherwise a step is executed exactly if it has the tag, is missing from the table or behind all of it, and no failing one comes before; all in ascending order, each leaving a row that says how it ended, no other row touched; it goes well exactly if none fails |
| `Migrator.RunIsComplete` | pkg/migration/migrator.go:71-97 | a run that goes well executes everything due |
| `Migrator.RunRecords` | pkg/migration/migrator.go:76-96 | exactly the versions executed are added to the table, a run that goes well adds no failed row, and one that fails leaves one |
| `Migrator.RunLeavesOtherRows` | pkg/migration/migrator.go:76-96 | the row of a version that was not executed is unchanged |
| `Migrator.OrderedRun` | pkg/migration/migrator.go:61-97 | an ordered run executes ascending versions beyond everything recorded |
| `Migrator.HistoryAscends` | pkg/migration/migrator.go:28-99 | over any number of ordered runs, with any registrars and filters, executed versions strictly increase across the whole history |
| `Migrator.RunIsNew` | pkg/migration/migrator.go:51-97 | a run in either mode executes only versions that are not recorded, and records them |
| `Migrator.NoVersionTwice` | pkg/migration/migrator.go:28-99 | over any number of runs in either mode, with any registrars and filters, no version is executed twice |
| `Migrator.FailureStopsHistory` | pkg/migration/migrator.go:45-49 | with a failed row no later run executes or records anything |
| `Migrator.FailedRunStopsHistory` | pkg/migration/migrator.go:28-99 | after a run with a failing step no later run executes anything |
| `Migrator.OutOfOrderRun` | pkg/migration/migrator.go:53-97 | an out-of-order run that goes well executes exactly the selected versions missing from the table, ascending |
| `Migrator.SecondRunIsIdle` | pkg/migration/migrator.go:28-99 | after an unfiltered out-of-order run that went well a second one executes nothing and changes nothing |
| `Migrator.LastDecides` | pkg/migration/migrator.go:61-69 | being after the last version is being after all recorded ones |
| `Migrator.ShouldRun` | pkg/migration/migrator.go:51-69 | the test made in the loop is the specified one |
| `Migrator.VersionTable.constructor` | pkg/migration/migrator.go:37-40 | the table at the start |
| `Migrator.VersionTable.ReadApplied` | pkg/migration/migrator.go:42-49 | whether a row failed, and the highest version recorded |
| `Migrator.ExecuteOne` | pkg/migration/migrator.go:71-96 | one turn of the loop is one step of the specified run |
| `Migrator.Execute` | pkg/migration/migrator.go:71-97 | the loop is the specified run, stopping at the first failure |
| `Migrator.VersionTable.Run` | pkg/migration/migrator.go:28-99 | the sorting and executing loops do what one specified run does |
| `Scheduler.InitInv` | pkg/scheduler/task.go:38-67 | the invariant holds of a new task |
| `Scheduler.StepKeepsInv` | pkg/scheduler/task.go:70-232 | every step of every goroutine keeps the invariant |
| `Scheduler.StepKeepsMutex` | pkg/scheduler/task.go:70-232 | the mutex is held by whoever is inside its critical section |
| `Scheduler.StepKeepsDone` | pkg/scheduler/task.go:90-96 | one value is sent before the channel is closed, once |
| `Scheduler.StepKeepsSerial` | pkg/scheduler/task.go:115-159 | a waited-for execution is the only one in flight |
| `Scheduler.StepKeepsError` | pkg/scheduler/task.go:70-75 | the context is cancelled only after an error is stored, and no stored error is withdrawn |
| `Scheduler.StepKeepsValue` | pkg/scheduler/task.go:90-96 | what the value sent says about the executions stays true |
| `Scheduler.RunKeepsInv` | pkg/scheduler/task.go:70-232 | the invariant holds after every run |
| `Scheduler.SerialRuns` | pkg/scheduler/task.go:90-159 | in every interleaving, run-once and fixed-delay executions never overlap, none is in flight once done is signalled, and run-once executes at most once |
| `Scheduler.OneSignal` | pkg/scheduler/task.go:90-96 | in every mode at most one value is sent and the channel is closed once, after it; nil only from a run-once task that succeeded |
| `Scheduler.SendNeverBlocks` | pkg/scheduler/task.go:90-96 | sending while holding the mutex never blocks |
| `Scheduler.CanceledOnlyByCancel` | pkg/scheduler/task.go:70-75 | without a call of Cancel the cancellation error is never stored or sent |
| `Scheduler.RunOnceVerdict` | pkg/scheduler/task.go:90-132 | a run-once task nobody cancels signals nil exactly if its execution succeeded and its error exactly if it failed |
| `Scheduler.CancelledExactly` | pkg/scheduler/task.go:222-232 | in every run the context is cancelled if and only if Cancel has done so, or an error has been dealt with and the task cancels on errors |
| `Scheduler.FailedExactly` | pkg/scheduler/task.go:177-232 | an execution that is over counts as failed if and only if its function failed |
| `Scheduler.LastErrorWins` | pkg/scheduler/task.go:90-96 | the value sent is the error stored last before sending |
| `Scheduler.EitherVerdict` | pkg/scheduler/task.go:90-132 | a run-once task can end either way |
| `Scheduler.Repeats` | pkg/scheduler/task.go:134-175 | a task that is not run once can execute any number of times |
| `Scheduler.Overlaps` | pkg/scheduler/task.go:134-145 | at a fixed rate or with dynamic triggers, a run in which executions overlap |
| `Scheduler.SignalsEarly` | pkg/scheduler/task.go:134-175 | in those modes, a run that signals done with an execution in flight |
| `Scheduler.SerialExactly` | pkg/scheduler/task.go:90-175 | executions never overlap, and done is never signalled early, in all runs of a task if and only if its mode waits for executions |
| `Scheduler.UrgeGetsCloser` | pkg/scheduler/task.go:70-232 | before the end there is always a step that reduces the distance to it |
| `Scheduler.ShutdownAlwaysPossible` | pkg/scheduler/task.go:70-232 | from every reachable state it can still end with one value sent and the channel closed |

## Left out

- Merging of property maps, JSON and YAML binding, un-flattening, and the caching of concrete provider groups: the configuration loader takes merging, loading, the answers of a group and the profiles in the properties as given functions.
- ConfigLoad.Config.Load: takes the providers as a finite universe and groups that answer alike for the same properties; a provider that loads but is then reset by someone else is not modelled.
- ConfigTree.ReadBack: the tree is a value, so update in place and aliasing between subtrees are not captured.
- ConfigTree.TreeIsItsFlatMap: is about trees with normalised names free of dots and brackets and no list directly inside a list, which the flat-key syntax cannot address.
- Resolver.ResolveValue: works on the leaves by flat key; a placeholder whose key names an inner node of the tree, and a default that parses to a list or map, are not modelled, because the text of a map prints whatever of it has been resolved so far.
- Resolver.ResolveAll: the order in which a map is iterated is a function of its entries, so equal entries are iterated alike throughout a run, which a Go map does not promise.
- TextRefinement.TextFollows: asks that dollars and brackets are kept apart throughout in one of the two ways of `StringLevel.TameStaysWritten`; a configuration that has both dollars and brackets at the ends of its texts may still do without, but that is only said for one replacement at a time.
- TreeResolver.TreeConfig.ResolveCleanly: asks for the same, and that every key mentioned leads to a leaf or nowhere, not to an inner node.
- TreeResolver.ResolveInTree: follows the keys of a given finite set and says so when it meets another one.
- TextFilling.TextIsFilled: is about placeholders whose keys lead to nothing, to a scalar or to text without placeholders, with defaults that print as written and one default for each key; where several keys give way, dollars and brackets must be kept apart as in `StringLevel.TameStaysWritten`. Deeper references are covered by `TextFilling.PureIsTextual`.
- TreeWrites.WrittenLeaves: is about good trees and paths in the sense of `ConfigTree.TreeIsItsFlatMap`, and about other values than null.
- CycleReports.ReportedExactly: asks for placeholder keys in normal form and for strings whose placeholders print back as written with one default per key; `CycleReports.OddDefaultOnCycle` shows that the latter matters.
- LoadedConfig.LoadResolved: takes the merged tree as one that depicts a configuration without cycles, ambiguous strings and collapsing references.
- Collapse.PureExactlyWhenClean: is about configurations without ambiguous strings; for ambiguous ones the exact condition is proved for one leaf at a time, because a later reading may repair what an earlier one left standing.
- KeyFormat.ConvertCamelCase: covers ASCII text, as do the key normalisation and everything built on it; `CamelCase` covers all text.
- Redis connections and errors, and the cached root id: the store is an error-free sorted set of texts.
- TenantIndex.RangeIsExact: is about ids without colons and without characters above the end mark of the range.
- TenantHierarchy.Tenancy.GetDescendants: asks for a hierarchy without cycles and both directions stored, which additions and removals are shown to keep.
- CompositeAuth.FlattenIsOneSort: is about sorting while flattening; that children are also sorted on construction is part of the tree it starts from.
- The success-handler and error-handler composites, which repeat the authenticator composite.
- FeaturePipeline.Build: passes state values from turn to turn; the operations of a configurer are carried out on the object itself.
- FeaturePipeline.SortFeatures: promises nothing about features that rank alike, since that sort is not stable.
- Normalising the keys of a whole settings tree before merging, and collecting additional profiles: structural recursion and list appending around the operations modelled here.
- Web registrars, request handlers, the final validation of a web security, and what a feature configurer does besides enabling and disabling features.
- Log cores, encoders, writers and context valuers: only the level tables and cached levels matter.
- Database access and timing of migrations: the table is a map from version text to success.
- Migrator.HistoryAscends: asks for distinct registered versions, rows under canonical version texts, and recording that succeeds.
- Cron parsing, tracing hooks and the computation of delays in the scheduler: a timer may fire at any moment.
- Scheduler.ShutdownAlwaysPossible: says that the end stays reachable, not that a fair schedule reaches it.
- Messaging, service discovery, secret, search and cloud clients: thin layers over foreign libraries.
