# PathGuard: the rule engine and its surroundings, verified

PathGuard compiles an INI rule file into one policy per app and decides each file access from it; a daemon acts on
write events by the same rules. Much of the code is a fast form of something simple. This project models that code in
Dafny and proves how the fast forms relate to the simple ones.

- **Parser** (`LineSyntax`, `RuleParser`, `ParserProperties`, `RuleRenderer`, `RuleRoundTrip`, `RuleSurvival`,
  `RuleRewriting`, `RuleComments`): the line loop with its active section, every option and rule line, the checks at the
  end. What every parse leaves behind, exactly which rules survive being written and read back, the round trip of whole
  files and of accepted texts, and what the parser makes of comments it does not know.
- **Compiler and matcher** (`Rules`, `RuleCompiler`, `Precedence`, `Sorting`, `PolicyIndex`, `Buckets`,
  `PathKindCache`, `Policy`): compiling a section, the six-key order, the two-level bucket index, the search that
  writes to a kind cache while it runs. `MatchPath` is proved against "search the slots of the path"; the refinement is
  about that. `OneRuleTexts` and `TwoRuleTexts` go all the way for the smallest texts, from the characters to the decision;
  `PatternWords`, `CompiledWords`, `OptionWords` and `LineWords` say in plain words what patterns, compiled sections, options
  and other lines mean.
- **Index against scan** (`IndexRefinement`, `IndexLimits`, `FiledRules`, `PolicyProperties`): when the index decides as the
  plain scan of the ordered rules does, exactly when it does not, rule by rule and pair by pair, and what it decides with
  any rules: as the scan of those filed where it looks. `GlobEndings` and `PathTypes` say which file types the texts can
  have that a pattern accepts, `NormalPaths` which paths an access can be about; `DocumentedRules` takes the documented
  sample from its text to the index.
- **Globs** (`Glob`, `PathGlob`), **path collapsing** (`PathMapper`), **whitelist grants** (`Whitelist`), **redirect
  targets** (`Redirect`).
- **Media queries** (`SelectionSyntax`, `SelectionNesting`, `MediaSelection`, `MediaCoverage`, `SelectionLength`,
  `LoadedRules`): which rows of the media store the rules are about, and what becomes of that in the query; the built
  selection is read back by a parser of conditions that takes arguments from a list, and evaluated, whatever words the
  caller adds; the rules come from the policy through fixed-size buffers.
- **Daemon and hooks** (`TaskQueue`, `DeleteTree`, `DirFilter`) and the **rule diff** of the manager app (`RulesDiff`).

Loops are loops, classes are classes and buffers are arrays where the source has them; each such method is proved
against a function, and the results are about that function.

## Where the code and its promises differ

- The documented rule `Download/*.pdf -> Documents/PDF/ @types=pdf` is filed under a second segment `*.pdf`, so that the
  index misses it for every PDF file in that folder whose name has no `*` (`DocumentedRules.DocumentedRuleIsLost`). Any
  file-name glob in the root or a top-level directory is found only for the path that is its own text, here one literally
  named `*.pdf` (`IndexLimits.TopLevelFileNameGlobIsLost`). `IndexLimits.ReachabilityIsExact` says for every rule, with or
  without types, whether the index ever misses it.
- A glob based at the root or one segment below it is overtaken by any shorter rule filed deeper: denying all of a
  top-level directory does not deny a folder in it that a shorter rule allows (`IndexLimits.ShallowGlobIsOvertaken`), so
  the rule that decides need not be the hitting rule that comes first (`PolicyProperties.OvertakenRuleDoesNotDecide`).
- The documented sample file has `;` lines and notes behind values; the parser knows neither. A `;` line is a live rule
  where it stands in a package section and reads as a redirect, such as one that was commented out, and an error
  everywhere else (`RuleComments.SemicolonIsNoComment`, `RuleComments.CommentedRedirectIsRead`). No accepted line of a
  package section reads the same with a `#` note behind it (`RuleComments.NoteIsNoComment`): behind an option the note is an
  error, except behind `trash_dir`, which takes it into its value (`RuleComments.NotedOption`); behind a marked rule it
  becomes part of the path (`RuleComments.NotedMarkedRule`), behind a redirect part of the target or the types
  (`RuleComments.NotedRedirect`, `RuleComments.NotedFilter`). A type marker in the note fails a marked rule, and can
  change the target and types of a redirect or fail it.
- The documented option `trash_on_redirect`, which the rule editor of the manager app writes too, is an error: the parser
  only knows `trash_redirect` (`DocumentedRules.DocumentedTrashKeyFails`).
- Joining a directory path and a relative name reads its input from the buffer it writes: unless the joined text lies under
  an alias of shared storage, an absolute path becomes `/` (`PathMapper.JoinIsNormal`).
- The single-segment matcher compares literally before it looks for `*`, so it can only be trusted for every pattern
  when the text has no `*`, and for every text when the pattern has none (`Glob.TrustedTexts`, `Glob.TrustedPatterns`).
- A path that ends by going up keeps a slash, so collapsing is idempotent exactly when it leaves none
  (`PathMapper.CollapseTwice`).
- A pattern whose rest is all `**` also matches its own base: `/a/**` matches `/a` (`PathGlob.BasePrefixIsRedundant`).
- The test for repeated sections compares raw names: a blank before the marker lets a second shared or exported section
  with the same parts through (`ParserProperties.SpacedSharedSectionIsAccepted`, `ParserProperties.SpacedExportSectionIsAccepted`).
- A rule of unknown kind that the cache knows nothing about is taken for a file by an access that implies one, so that
  denying a folder that does not exist yet, by a name without dot or slash, does not keep a file from being created in it
  (`OneRuleTexts.UnknownFolderIsOpen`).
- A media rule is a LIKE pattern with its path as it is, so that the underscore in `com.my_app` stands for any character
  (`MediaCoverage.UnderscoreCoversOthers`), and the pattern of a directory of 1022 or 1023 characters loses its percent
  sign (`MediaCoverage.LongPatternIsCut`).
- Arguments without a selection, given to a media query, break it as soon as the rules add anything
  (`MediaSelection.StrayArgumentsBreakTheQuery`).
- The caller's selection is put in brackets without a look at its own. One that closes more than it opens, such as
  `c) OR (c`, means nothing by itself, and with the rules it keeps every row of which `c` holds
  (`MediaSelection.ClosedTooEarlyEscapes`). The rules hold exactly when no OR of the caller stands outside its brackets
  (`MediaSelection.RulesHoldExactly`).
- A block rule whose path is normalized once more for every query can outgrow its buffer then, and that switches every
  block rule of a blacklist off. Of all paths that can be loaded only those under `/sdcard` with at least 1012 characters and
  those under `/mnt/sdcard` with at least 1016 do (`LoadedRules.UsableExactly`, `LoadedRules.BlockRulesHoldExactly`). A
  compiled path gets there if its line hides the alias, as `//sdcard/` does (`LoadedRules.CardRuleIsUnusable`).

## Model

| member | source | states |
|---|---|---|
| Glob.MatchGlob | native/rule_engine.cpp:195-223 | the greedy matcher is sound for every text, complete for texts without `*`, and its loop turns at most (text+1)(pattern+1) times |
| Glob.AcceptsIsSound | native/rule_engine.cpp:195-223 | an accepted text has the shape that `*` and `?` describe, whatever the text |
| Glob.AcceptsIsComplete | native/rule_engine.cpp:195-223 | a text without `*` that has the shape is accepted: forgetting all stars but the last loses nothing |
| Glob.TrustedTexts | native/rule_engine.cpp:195-223 | a text is judged rightly by all patterns exactly when it has no `*` |
| Glob.TrustedPatterns | native/rule_engine.cpp:195-223 | a pattern judges all texts rightly exactly when it has no `*` |
| Glob.LiteralAcceptsItself | native/rule_engine.cpp:195-223 | a pattern without wildcards accepts only itself |
| PatternWords.StarAndMark | native/rule_engine.cpp:195-223 | between literal ends a star accepts any text, also none, and a question mark exactly one character, for texts without `*` |
| GlobEndings.MatchEndsIn | native/rule_engine.cpp:195-223 | a text that matches a pattern has only ends that the pattern, read from its back, can end in |
| GlobEndings.AcceptedEndingIsAccepted | native/rule_engine.cpp:195-223 | for every end that a pattern can end in there is a text with it that the greedy matcher accepts, other than the pattern itself if that has a `*` |
| PathTypes.AllowsTypeIs | native/rule_engine.cpp:420-438 | a nonempty type filter lets a path through exactly when a dot and one of its types end the path, a type without dot, slash or capital |
| PathTypes.AcceptedNameIsOther | native/rule_engine.cpp:195-223 | a pattern that accepts a name other than its own text has some freedom left in front of the end of that name |
| PathTypes.AcceptedCanEnd | native/rule_engine.cpp:246-285 | a path pattern that accepts a path below given segments can end as that path does |
| PathTypes.TypedCompletionIsAccepted | native/rule_engine.cpp:246-285 | and for each end that it can end in below given segments it accepts a path with it |
| PathGlob.SplitPathSegments | native/rule_engine.cpp:225-244 | the segments are all pieces between slashes, empty ones included |
| PathGlob.EngineDfs | native/rule_engine.cpp:246-285 | each filled memo cell holds the segment relation of its two suffixes, filled cells stay, the answer is that relation, the recursion ends |
| PathGlob.DaemonDfs | native/folder_manager_daemon.cpp:464-516 | the search that skips runs of `**` and tries every suffix fills the same table with the same answers |
| PathGlob.EngineMatchPathGlob | native/rule_engine.cpp:246-285 | the engine's match is the segment relation, and the declarative one when the text has no `*` |
| PathGlob.DaemonMatchPathGlob | native/folder_manager_daemon.cpp:464-516 | the daemon's match is the same relation on all inputs |
| PathGlob.AnyDepthRun | native/folder_manager_daemon.cpp:464-516 | a run of `**` means: some suffix of the text matches what follows the run |
| PathGlob.AcceptsIsDenotes | native/rule_engine.cpp:246-285 | for texts without `*` the computed and the declarative relation agree |
| PathGlob.TrustedPaths | native/rule_engine.cpp:246-285 | a path is judged rightly by all path patterns exactly when it has no `*` |
| PathGlob.WholePathGlobShape | native/rule_engine.cpp:152-193 | the base cut from a path glob is literal, ends at a slash, and the next segment has a wildcard |
| PathGlob.FileNameGlobShape | native/rule_engine.cpp:152-193 | a file-name glob is literal up to its last slash, and has wildcards but no `**` after it |
| PatternWords.ShapeIs | native/rule_engine.cpp:152-193 | a rule path is literal, a file-name glob, invalid or a path glob exactly by where `*`, `?` and `**` stand in it |
| PatternWords.StarRuleMatches | native/rule_engine.cpp:1753-1762 | a file-name glob with one star is about exactly the entries of its own directory whose names begin and end so |
| PatternWords.AllBelow | native/rule_engine.cpp:246-285 | `**` behind a literal base accepts exactly the base and what lies below it |
| PatternWords.AtAnyDepth | native/rule_engine.cpp:246-285 | `**` and one more segment accept exactly the entries at any depth, also right below the base, whose own name the segment accepts |
| PatternWords.ByNameAtAnyDepth | native/rule_engine.cpp:1747-1752 | so a rule such as `**` and `*.pdf` is about the names with that end at any depth below its base |
| PathGlob.BasePrefixIsRedundant | native/rule_engine.cpp:1747-1752 | what a path glob matches lies in or at its base, and the base itself is matched exactly when the rest is all `**` |
| PathMapper.CollapseAbsolutePath | native/path_mapper.cpp:39-102 | the buffer loop stays in bounds, fails exactly when the walk over the words does, and leaves the walk's text as a C string |
| PathMapper.AppendName | native/path_mapper.cpp:79-92 | a name is appended exactly when its text and NUL fit |
| PathMapper.StepUp | native/path_mapper.cpp:66-77 | the two backward loops take the text to that of the place above |
| PathMapper.WalkLeavesSurvivors | native/path_mapper.cpp:39-102 | the walk's names are those that no later `..` cancels, found by reading from the right |
| PathMapper.CollapsedMeaning | native/path_mapper.cpp:39-102 | the output is the join of the surviving names, with a slash behind exactly when names are left and the last effective word was `..` |
| PathMapper.CollapseFits | native/path_mapper.cpp:39-102 | an absolute path shorter than the buffer never fails |
| PathMapper.CollapseTwice | native/path_mapper.cpp:39-102 | a second collapse changes nothing exactly when the first left no slash, and a third never does |
| PathMapper.CopyTrimmedPath | native/path_mapper.cpp:21-37 | the copy fits exactly when there is room for the NUL, and drops trailing slashes down to one character |
| PathMapper.NormalizePath | native/path_mapper.cpp:105-140 | aliases, collapsing and copying together, with the failures of each |
| PathMapper.NormalizeInPlace | native/path_mapper.cpp:105-140 | the same call on one buffer: right under an alias, the root for any other absolute path |
| PathMapper.JoinPath | native/path_mapper.cpp:163-189 | the joined path, with every failure and the call on one buffer |
| PathMapper.JoinIsNormal | native/path_mapper.cpp:163-189 | joining a relative name yields the normal form of the joined text exactly when that lies under an alias, is not absolute or collapses to the root |
| PathMapper.AliasesAgree | native/path_mapper.cpp:105-140 | the same path under any two aliases of shared storage normalizes to the same result |
| NormalPaths.FiveNames | native/path_mapper.cpp:105-140 | a path of ordinary names under each of the five names of shared storage normalizes to the one under `/storage/emulated/0` |
| NormalPaths.OnlyFiveNames | native/path_mapper.cpp:105-140 | an absolute path under none of the five is only collapsed |
| Rules.NormalizeRulePath | native/rule_engine.cpp:297-341 | relative rule paths are taken below shared storage, absolute ones inside it only lose trailing slashes, all others are normalized |
| NormalPaths.RelativePathIsNormal | native/rule_engine.cpp:297-341 | a relative rule path of ordinary names is taken below shared storage unchanged |
| NormalPaths.ExternalIsNormal | native/rule_engine.cpp:297-341 | a path of shared storage is its own normal form exactly when it is trimmed and, beyond the root, does not end in a slash |
| NormalPaths.ExternalIsAccess | native/rule_engine.cpp:297-341 | and is a normal form at all exactly when it does not end in a slash, or consists of ordinary names with room for one more character |
| IndexRefinement.FirstHitPosition | native/rule_engine.cpp:1736-1800 | the scan's hit is a rule that hits, at a position before which no rule hits |
| PathKindCache.ResolvedPathKindCache.TryGet | native/path_kind_cache.cpp:7-17 | reads what was put |
| PathKindCache.ResolvedPathKindCache.Put | native/path_kind_cache.cpp:19-27 | overwrites one entry |
| PathKindCache.ResolvedPathKindCache.Erase | native/path_kind_cache.cpp:29-35 | removes one entry |
| RuleCompiler.ExpandPackagePlaceholder | native/rule_engine.cpp:343-355 | finding and replacing in the growing text replaces every placeholder of the input, from left to right, and none that the package name brings |
| CompiledWords.PlaceholderIs | native/rule_engine.cpp:343-355 | the first `<pkg>` gives way to the package name, and the rest is treated alike |
| RuleCompiler.NormalizeExtensions | native/rule_engine.cpp:124-139 | the result is strictly sorted and holds exactly the nonempty plain forms |
| CompiledWords.TypesAre | native/rule_engine.cpp:124-139 | the types of a compiled rule are those of its line in small letters, without a dot in front and without empty ones |
| Text.LowerIs | native/rule_engine.cpp:66-73 | of all characters the 26 capital letters are made small |
| RuleCompiler.CompileLine | native/rule_engine.cpp:1382-1456 | fails exactly for unusable paths, patterns and targets; otherwise the rule comes from its line in every field |
| CompiledWords.WildcardTargetFails | native/rule_engine.cpp:1424-1441 | a rule with an arrow and a plain path is refused exactly when its target has a `*` or `?` |
| OneRuleTexts.KindIs | native/rule_engine.cpp:413-418 | the kind of a literal rule: a directory by its last slash, else what the file system says, else a file by a dot inside its name, else unknown |
| Precedence.ComparatorIsRankOrder | native/rule_engine.cpp:1463-1491 | the comparator is the lexicographic order of a six-number rank: longer path, kind, action, glob rank, type filter, line; what comes first under each key is said by the next five |
| Precedence.LongerComesFirst | native/rule_engine.cpp:1463-1491 | the longer path comes first |
| Precedence.FilesComeFirst | native/rule_engine.cpp:483-494 | of paths of one length: rules for files, then for directories, then those of unknown kind |
| Precedence.DeniesComeFirst | native/rule_engine.cpp:468-481 | then denies, redirects, dynamic redirects and allows, whatever their lines |
| Precedence.LiteralsComeFirst | native/rule_engine.cpp:1463-1491 | then literal paths, file-name globs and path globs |
| Precedence.TypesComeFirst | native/rule_engine.cpp:1463-1491 | then rules with types, and at last the earlier line |
| Precedence.ComparatorIsStrictWeakOrder | native/rule_engine.cpp:1463-1491 | the comparator meets what std::sort demands |
| Precedence.ComparatorIsTotal | native/rule_engine.cpp:1463-1491 | rules of different lines are always ordered |
| Precedence.OrderRules | native/rule_engine.cpp:1458-1491 | the ordered rules are a sorted permutation of the rules |
| Precedence.OrderIsUnique | native/rule_engine.cpp:1463-1491 | there is only one sorted order of rules with distinct lines |
| Precedence.FirstHitIsHighest | native/rule_engine.cpp:1463-1491 | the first hit precedes every other hitting rule |
| Sorting.SortUnique | native/rule_engine.cpp:1594-1599 | sort and unique leave the same members, strictly increasing |
| Sorting.BinarySearch | native/rule_engine.cpp:629-639 | finds a string in a strictly sorted list exactly when it is there |
| Sorting.FindByKey | native/rule_engine.cpp:440-466 | lower bound and comparison find a bucket exactly when one has the segment |
| PolicyIndex.IndexedHitInOrder | native/rule_engine.cpp:1802-1824 | the search tries second bucket, top bucket and root rules in this order, the first only for paths with a second segment |
| PolicyIndex.LookupAgreesExactly | native/rule_engine.cpp:1802-1824 | for one access and any rules, the lookup agrees with the scan exactly when the scan's hit is filed where it looks and no rule filed there deeper also hits |
| Buckets.AddRule | native/rule_engine.cpp:1602-1656 | after a rule is filed, every bucket holds exactly the rules of its slot, in their order, and segments stay distinct |
| Buckets.SortBuckets | native/rule_engine.cpp:1658-1672 | sorting buckets changes no bucket's rules and makes them searchable |
| Buckets.FindRootBucket | native/rule_engine.cpp:440-452 | the found bucket holds the top slot's rules; without one neither the slot nor any slot under it has rules |
| Buckets.FindSecondBucket | native/rule_engine.cpp:454-466 | the found bucket holds the second slot's rules, and without one the slot is empty |
| Policy.ResolveEffectiveRuleKind | native/rule_engine.cpp:721-749 | the kind found, whatever has been written to the cache on the way, is the one given by the cache as the access began; the cache learns the kind of the access for the path of a rule of unknown kind, unless it knows another path's kind, and nothing else |
| Policy.MatchesTypeFilter | native/rule_engine.cpp:420-438 | the binary search over sorted types decides membership of the lower-cased extension |
| Policy.MatchRules | native/rule_engine.cpp:1736-1800 | the loop that writes to the cache returns what the first hit of the pure scan means, and leaves the cache taught by just the rules tried; a redirect hit never falls through |
| Policy.DecideIsDecidedBy | native/rule_engine.cpp:1775-1834 | a hit blocks exactly if it is a deny, redirects exactly if it is a redirect, to where its shape says, and allows otherwise; without a hit only a whitelist blocks, what it does not allow by itself |
| PolicyProperties.TaughtExactly | native/rule_engine.cpp:721-749 | an access teaches the cache its own kind for the paths of exactly those rules of unknown kind that it tries until one hits and whose kind was not known; one of unknown kind teaches nothing |
| PolicyProperties.AfterAccess | native/rule_engine.cpp:1731-1736 | an access of known kind leaves its own path with that kind, and every path that it does not ask for as it was |
| OneRuleTexts.ImpliesDirectory | native/rule_engine.cpp:533-556 | exactly these operations imply a directory |
| OneRuleTexts.ImpliesFile | native/rule_engine.cpp:533-556 | and exactly these a file |
| Policy.FindMatchingSection | native/rule_engine.cpp:974-984 | the first enabled section that names the process; with names free of colons, the first whose name is the process name up to its first colon, and none exactly when there is no such section |
| Policy.ProcessMatches | native/rule_engine.cpp:292-295 | a name without colon names a process exactly when it is all of the process name before its first colon |
| Policy.MatchingSectionIs | native/rule_engine.cpp:974-984 | the section found is the first enabled one with this name |
| Policy.PolicyForProcess | native/rule_engine.cpp:1311-1365 | a process has no policy exactly when the text has errors or no enabled section has this name |
| Policy.AppliesTo | native/rule_engine.cpp:1493-1503 | a shared folder is for the processes of the package that it names, or else of the one that shares it, if that is on |
| Policy.PackageIsOff | native/rule_engine.cpp:986-995 | a package is off exactly if the first section of its name is |
| Policy.CompileLines | native/rule_engine.cpp:1382-1456 | the first bad line is reported; otherwise access and delete rules come from their lines in order |
| Policy.CollectAccessible | native/rule_engine.cpp:1493-1529 | the folders shared with the process, in order and with all their fields, or the first unusable one |
| CompiledWords.SharedFolderIs | native/rule_engine.cpp:1493-1529 | a plain shared folder in every field, with the sharing package in place of a missing partner, for the right processes only |
| CompiledWords.SharedFoldersInOrder | native/rule_engine.cpp:1493-1529 | several sections give the folders of each, in order, or the first error |
| Policy.CollectExports | native/rule_engine.cpp:1531-1581 | the package's own exported folders, in order and with all their fields, or the first unusable one |
| CompiledWords.ExportedFolderIs | native/rule_engine.cpp:1531-1581 | a plain exported folder in every field: the identifier for a missing title, a directory for an unknown kind, for its own package only |
| CompiledWords.ExportedPatternFails | native/rule_engine.cpp:1531-1581 | a wildcard in source or target makes it an error, and nothing else in a relative path of ordinary names does |
| Policy.AppPolicy.BuildIndex | native/rule_engine.cpp:1602-1676 | every slot's bucket holds that slot's ordered rules, sorted for the search |
| Policy.AppPolicy.SearchIndex | native/rule_engine.cpp:1802-1824 | the bucket search returns what the indexed hit means, with the cache as the matcher leaves it |
| Policy.AppPolicy.CompilePolicyForProcess | native/rule_engine.cpp:1311-1677 | fails with the source's first failure and with no other; otherwise the policy holds its invariant, has the section's options, and its rules, folders and exports come from the parse |
| CompiledWords.FailuresInOrder | native/rule_engine.cpp:1348-1581 | the trash directory, the first bad rule line, shared folders and exported folders are reported in this order |
| CompiledWords.OptionsReachThePolicy | native/rule_engine.cpp:1348-1380 | every option of a written rule file arrives in the policy of the processes of its package |
| Policy.AppPolicy.InstallRules | native/rule_engine.cpp:1458-1676 | ordering, grants and index establish the invariant |
| Policy.AppPolicy.MatchPath | native/rule_engine.cpp:1706-1834 | the decision is that of the indexed hit (or the scan, outside shared storage) and what that hit means: a deny blocks, a redirect redirects to where its shape says, all else allows; no match exactly for a path without normal form; the policy stays as it is, and the cache is taught by exactly the rules that were tried |
| PolicyProperties.IndexDecidesLikeScan | native/rule_engine.cpp:1736-1834 | if all rules are reachable and none is overtaken, every decision is that of the plain scan |
| PolicyProperties.IndexDecidesLikeFiledScan | native/rule_engine.cpp:1736-1834 | with any rules, none overtaken, every decision is that of the scan of the rules filed where the lookup looks |
| PolicyProperties.ScannedRuleIsHighest | native/rule_engine.cpp:1463-1491 | for rules compiled from one section, the scan's first hit is the only hitting rule of highest rank |
| PolicyProperties.DecidingRuleIsHighest | native/rule_engine.cpp:1463-1491 | the rule that decides, by index or scan, is the only one of highest rank among the hitting rules that count for the access, and there is one exactly when one counts, if none is overtaken |
| PolicyProperties.DecidingRuleExactly | native/rule_engine.cpp:1802-1824 | without any condition on the rules: in shared storage the rule that decides is, of all that hit and count, the only one filed deepest and then of highest rank, and there is one exactly when one counts |
| PolicyProperties.DenyWins | native/rule_engine.cpp:1463-1491 | beside a deny of the same plain path and kind no other rule decides, whatever the lines |
| OneRuleTexts.OneRuleTextIsRead | native/rule_engine.cpp:997-1309 | a text of a header, a mode and one line is read as a section with nothing else set |
| OneRuleTexts.OneRuleTextCompiles | native/rule_engine.cpp:1311-1677 | with one plain rule it compiles |
| OneRuleTexts.DenyTextBlocks | native/rule_engine.cpp:1706-1834 | from the text to the decision: a blacklist that says only `- p` blocks exactly p and, unless the rule is about a file, what lies below it, and allows all else |
| OneRuleTexts.UnknownFolderIsOpen | native/rule_engine.cpp:721-749 | but a file can be created in a denied folder of unknown kind while nothing is known of it |
| OneRuleTexts.AllowTextAllows | native/rule_engine.cpp:1706-1834 | a whitelist that says only `+ p` allows exactly that, what leads to p, what is related to the app's own directories, and what is not shared storage |
| OneRuleTexts.RedirectTextRedirects | native/rule_engine.cpp:1706-1834 | a section that says only `p -> t` redirects exactly that, p to t and p/s to t/s |
| OneRuleTexts.DynamicTextAllows | native/rule_engine.cpp:1706-1834 | a section that says only `p => t` allows everything, without a target |
| OneRuleTexts.MarkedTextIsRead | native/rule_engine.cpp:997-1309 | the texts with `+ p` and `- p` are read as these sections |
| OneRuleTexts.ArrowTextIsRead | native/rule_engine.cpp:997-1309 | and those with arrows, whatever other arrows stand in the target |
| TwoRuleTexts.DenyBesideAnother | native/rule_engine.cpp:1463-1491 | with a deny and another rule of one plain path in a section, in either order, what the two are about is blocked, and only that |
| TwoRuleTexts.DenyAndAllowAreRead | native/rule_engine.cpp:997-1309 | the two texts with `+ p` and `- p` are read as such sections |
| PolicyProperties.OvertakenRuleDoesNotDecide | native/rule_engine.cpp:1602-1656 | if rules are overtaken, a hitting rule can come before the deciding one: a family of sorted reachable pairs |
| PolicyProperties.WhitelistWithoutHit | native/rule_engine.cpp:1583-1600 | without a hit, a whitelist allows exactly what is outside, related to an owned root, on the way to an allow, redirect or shared path, or in a shared folder |
| PolicyProperties.RunKeepsKindsKnown | native/rule_config.cpp:437-450 | over every run of accesses and erasures no unknown kind is cached, an entry is lost only by its erasure, and a kind changes only by an access to its path or its erasure |
| IndexRefinement.ReachableIsSearched | native/rule_engine.cpp:1602-1656 | a reachable rule that hits, with or without type filter, is filed where the lookup looks |
| IndexRefinement.AcceptedCanReach | native/rule_engine.cpp:246-285 | a pattern that accepts a text can reach every prefix of it |
| IndexRefinement.LongerIsDeeper | native/rule_engine.cpp:1602-1656 | of two filed rules that hit, the longer, if reachable, is filed no less deep unless it is a shallow glob that the other overtakes |
| IndexRefinement.IndexRefinesScan | native/rule_engine.cpp:1736-1824 | for every access to shared storage, the indexed lookup finds the scan's first hit |
| IndexRefinement.OrdinaryRulesRefineScan | native/rule_engine.cpp:1736-1824 | the same for sorted rules whose globs are based two segments deep and whose plain paths neither lie above the root nor end in a slash |
| FiledRules.HitIsFiled | native/rule_engine.cpp:1602-1656 | a rule that hits is filed where the lookup looks exactly when it is reachable or a file-name glob hit by its own text |
| FiledRules.IndexFindsFirstFiled | native/rule_engine.cpp:1736-1824 | for any well-formed rules, longest first and none overtaken, the lookup is the scan of the rules filed where it looks |
| IndexLimits.ReachabilityIsExact | native/rule_engine.cpp:1602-1656 | alone in an index, a rule is found like by the scan, for all accesses, exactly when it is reachable or its types rule out every path it could be missed for |
| IndexLimits.ReachabilityIsExactForAccesses | native/rule_engine.cpp:1602-1656 | the same over the paths that an access can be about, except for path globs without types that end in a slash |
| IndexLimits.TwoRulesInWrongOrder | native/rule_engine.cpp:1802-1824 | two reachable rules that hit are tried in the wrong order exactly when the later one is filed deeper |
| IndexLimits.PathGlobBeforePlainRule | native/rule_engine.cpp:1802-1824 | for a path glob before a plain rule of any kind, with or without types, index and scan agree on all accesses exactly when the plain rule is filed no deeper or no path can meet both |
| IndexLimits.TopLevelFileNameGlobIsLost | native/rule_engine.cpp:1636-1638 | a file-name glob in the root or directly inside a top-level directory, hit by an access, is found exactly when the path is the glob's own text |
| IndexLimits.ShallowGlobIsOvertaken | native/rule_engine.cpp:1602-1656 | for every top-level directory: deny all below it, allow a folder with a name of one or two letters, and the index allows what the scan denies |
| Whitelist.IsSameOrParentPathOf | native/rule_engine.cpp:568-587 | the loop over slashes decides the ancestor relation |
| Whitelist.AppendWhitelistAncestorPaths | native/rule_engine.cpp:600-627 | adds exactly the path and its ancestors from the external root down |
| Whitelist.CollectAllowPaths | native/rule_engine.cpp:1583-1600 | the list is strictly sorted and holds exactly what leads to a granted path |
| Whitelist.ShouldImplicitlyAllowWhitelistPath | native/rule_engine.cpp:641-659 | ancestor loops and binary search decide the declared condition |
| Redirect.MatchHasTarget | native/rule_engine.cpp:661-719 | a matching rule always yields a target |
| Redirect.TargetIs | native/rule_engine.cpp:661-719 | and that target is the one its shape says: a file goes to the target itself, a directory or path glob moves what stands behind it, a file-name glob puts the name behind the target and one slash |
| Redirect.TargetsInWords | native/rule_engine.cpp:661-719 | for every s, `path + s` goes to `target + s`, and an entry of a file-name glob to the target, less a slash at its end, and `/` and its name |
| Redirect.TargetsAreInjective | native/rule_engine.cpp:661-719 | no two inputs of a rule are sent to the same target |
| Redirect.ExternalToDataMedia | native/folder_manager_daemon.cpp:557-573 | a path strictly below the external root is re-rooted at the user's media directory; the root itself is refused |
| Redirect.TargetStaysExternal | native/rule_engine.cpp:661-719 | a target below shared storage keeps all redirected paths there |
| Redirect.DaemonTargetIsRerooted | native/folder_manager_daemon.cpp:1493-1538 | the daemon's target is the engine's, re-rooted, also where the two resolve an unknown kind differently; it fails exactly when the engine's is the root |
| Redirect.DaemonGoesTo | native/folder_manager_daemon.cpp:1493-1568 | so the daemon moves to the same place below the media directory of the user |
| Redirect.DecimalIs | native/folder_manager_daemon.cpp:557-573 | whose number is written in decimal digits |
| LineSyntax.FindTypeFilterToken | native/rule_engine.cpp:51-64 | the loop that skips whole markers finds the first one that begins the text or follows white space |
| LineSyntax.MarkersDoNotOverlap | native/rule_engine.cpp:51-64 | no marker begins inside another, so skipping loses none |
| LineWords.TwoTypesAreRead | native/rule_engine.cpp:75-122 | `@types=a,b` is read as two types in small letters, with or without dots, and with a comma at the end |
| RuleParser.ParseRulesIni | native/rule_engine.cpp:997-1309 | the line loop yields the fold of its lines with the checks at the end; success is exactly no error and some section |
| RuleParser.SetOption | native/rule_engine.cpp:1075-1214 | no option line touches the rules or the name of its section |
| OptionWords.ModeWords | native/rule_engine.cpp:1075-1094 | `mode` takes two words |
| OptionWords.SwitchWords | native/rule_engine.cpp:1095-1120 | `enabled = true` and `disabled = false` switch a section on, the other two off, and any other word is an error |
| OptionWords.DeleteWords | native/rule_engine.cpp:1121-1146 | the words of `delete_existing` and `delete_dirs`, with `true` and `false` for both |
| OptionWords.MediaQueryWords | native/rule_engine.cpp:1147-1165 | the words of `media_query` |
| OptionWords.TrashWords | native/rule_engine.cpp:1166-1196 | the words of `trash` and `trash_redirect`; `trash_dir` takes any text |
| OptionWords.MinimumWords | native/rule_engine.cpp:1197-1214 | `min_age_days` and `min_size_mb` take a number, the first of them narrowed to 32 bits |
| OptionWords.SignedDigits | native/rule_engine.cpp:862-880 | a number may have a sign, but is never negative |
| OptionWords.OptionLinesAddNothing | native/rule_engine.cpp:1075-1214 | a line that begins like an option has one of ten keys, or begins with `mode`, or is an error |
| OptionWords.ModeByItsBeginning | native/rule_engine.cpp:1075-1094 | of a line that begins with `mode` only the value counts |
| OptionWords.SharedWords | native/rule_engine.cpp:882-905 | the four keys of a shared section |
| OptionWords.ExportWords | native/rule_engine.cpp:907-939 | the seven keys of an exported section and their words |
| RuleParser.Enter | native/rule_engine.cpp:1037-1073 | after a header the section being filled is the last of its kind |
| LineWords.SharedHeader | native/rule_engine.cpp:1043-1057 | `[a.accessible.b]` opens the shared folder b of a |
| LineWords.ExportHeader | native/rule_engine.cpp:1058-1064 | `[a.export.b]` opens the exported folder b of a |
| LineWords.PackageHeader | native/rule_engine.cpp:1065-1072 | any other new name opens a package section in which nothing is set |
| LineWords.RepeatedHeader | native/rule_engine.cpp:1043-1047 | a repeated name is an error, and so is the line behind it |
| LineWords.CommentsAreSkipped | native/rule_engine.cpp:1029-1036 | blank lines and lines that begin with `#` change nothing |
| RuleParser.ValidateParsedRules | native/rule_engine.cpp:941-972 | reports missing modes, paths, partners, sources and targets, in this order |
| ParserProperties.ReturnIsInert | native/rule_engine.cpp:1029-1035 | a carriage return before the line break changes nothing |
| ParserProperties.ParsedTextIsSound | native/rule_engine.cpp:997-1309 | whatever the text: package names are distinct, rule lines increase, every rule is what its own line says, with trimmed nonempty paths and types only on redirects |
| ParserProperties.PackageTestNeverFails | native/rule_engine.cpp:1043-1073 | the second test for repeated packages cannot fail at any point of any text |
| ParserProperties.ValidationIsCompleteness | native/rule_engine.cpp:941-972 | the checks pass exactly when no line failed and every section is complete |
| ParserProperties.CompiledPolicyIsOrdered | native/rule_engine.cpp:1311-1677 | a policy compiled from a text has the ordered rules of that text for its process |
| ParserProperties.ParsedRulesScanUniquely | native/rule_engine.cpp:1463-1491 | for any text and process, the scan's first hit is the only hitting rule of highest rank, however the rules were sorted |
| ParserProperties.ParsedRulesDecideUniquely | native/rule_engine.cpp:1463-1491 | for any text and process, so is the rule that decides among those that count for the access, if none is overtaken |
| ParserProperties.TightNamesAreTold | native/rule_engine.cpp:759-782 | names without blanks around their marker have the same parts exactly when they are equal |
| ParserProperties.SpacedNamesAreNotTold | native/rule_engine.cpp:759-782 | with a blank before the marker a different name has the same parts |
| ParserProperties.SpacedSharedSectionIsAccepted | native/rule_engine.cpp:1037-1073 | the parser opens both shared sections, with the same parts and without an error |
| ParserProperties.SpacedExportSectionIsAccepted | native/rule_engine.cpp:1037-1073 | and both exported sections |
| RuleRenderer.IntegerOfDigits | native/rule_engine.cpp:862-880 | every number up to the largest 64-bit one is read back from its decimal digits |
| RuleRenderer.OptionLinesLead | native/rule_engine.cpp:1075-1214 | the written options of a section are read back as that section without its rules |
| RuleRenderer.FilterIsRead | native/rule_engine.cpp:75-122 | a target with its written types is read back |
| RuleRenderer.SectionLeads | native/rule_engine.cpp:997-1309 | a written package section is read back, its rules numbered by their lines |
| RuleRoundTrip.SharedLeads | native/rule_engine.cpp:882-905 | a written shared section is read back |
| RuleRoundTrip.ExportLeads | native/rule_engine.cpp:907-939 | a written exported section is read back |
| RuleRoundTrip.RoundTrip | native/rule_engine.cpp:997-1309 | a whole rule file that can be written is accepted and read back as it was, but for its line numbers, which are those of the text |
| RuleRewriting.AcceptedCanBeWritten | native/rule_engine.cpp:997-1309 | what an accepted text is read as can be written exactly when no age is negative, all types read as themselves, and the tight names of shared and exported sections are cut where they were and differ |
| RuleRewriting.AcceptedTextRoundTrip | native/rule_engine.cpp:997-1309 | reading, writing and reading such a text again is reading it, but for line numbers |
| RuleSurvival.PlainRulesSurvive | native/rule_engine.cpp:1215-1278 | a rule written on its own line is read back exactly when it is plain: the side conditions of the round trip leave no rule out |
| RuleSurvival.FixedTypesArePlain | native/rule_engine.cpp:75-122 | a type list that reads as itself has only trimmed lower-case types without comma or leading dot |
| RuleSurvival.ReadRuleIsPlain | native/rule_engine.cpp:1215-1278 | a rule read from a line is plain, unless it has types that are not or that make its text look like a header |
| RuleComments.ErrorsStay | native/rule_engine.cpp:997-1309 | no later line and no check takes an error back |
| RuleComments.SemicolonLineCounts | native/rule_engine.cpp:1029-1278 | in every state of the parser a `;` line is an error exactly when it is not a redirect in a package section, and never nothing |
| RuleComments.SemicolonIsNoComment | native/rule_engine.cpp:1029-1278 | in every text, a `;` line is a rule of the parse if it stands in a package section and reads as a redirect, and else its line is an error |
| RuleComments.CommentedRedirectIsRead | native/rule_engine.cpp:1239-1278 | a plain redirect behind `; ` is read as a redirect of another path |
| RuleComments.NotedOption | native/rule_engine.cpp:1075-1214 | a note behind an accepted option makes its line an error, except that `trash_dir` takes the note into its value |
| RuleComments.NotedMarkedRule | native/rule_engine.cpp:1215-1238 | a note behind a marked rule goes into its path, or fails the rule if it brings a type marker |
| RuleComments.NotedRedirect | native/rule_engine.cpp:1239-1278 | a note behind a redirect is read with its target and leaves source and arrow alone |
| RuleComments.NotedFilter | native/rule_engine.cpp:75-122 | a note goes to the target where there are no types and to the types where there are, and never reads as nothing |
| RuleComments.NoteIsNoComment | native/rule_engine.cpp:1075-1278 | no accepted line of a package section reads the same with a note behind it |
| DocumentedRules.DocumentedLineIsRead | README.md:93 | the documented redirect of a file type is read as the rule it looks like |
| DocumentedRules.DocumentedRuleIsLost | README.md:93 | compiled, it is hit by every PDF file in the folder whose name has no `*`, and the index finds it for none of them, paths in normal form as they are |
| DocumentedRules.NoteIsDenied | README.md:66 | the note behind the documented deny rule becomes part of the denied path |
| DocumentedRules.UnknownTrashKeyFails | native/rule_engine.cpp:1165-1213 | a key that only begins like a trash option is an error |
| DocumentedRules.DocumentedTrashKeyFails | README.md:85 | the documented key is one |
| RulesDiff.LcsIsUpperBound | Manager-GUI/app/src/main/java/com/folder/manager/gui/data/RulesDiff.kt:57-63 | no common subsequence is longer than the recurrence says |
| RulesDiff.FillTable | Manager-GUI/app/src/main/java/com/folder/manager/gui/data/RulesDiff.kt:57-63 | every cell holds the value for its two prefixes |
| RulesDiff.LongestCommonSubsequence | Manager-GUI/app/src/main/java/com/folder/manager/gui/data/RulesDiff.kt:57-75 | the way back through the table yields a common subsequence of greatest length, and of several the one that gives up old lines first |
| RulesDiff.Diff | Manager-GUI/app/src/main/java/com/folder/manager/gui/data/RulesDiff.kt:22-55 | the script rebuilds both texts, numbers its lines, never reaches its last branch, shows removals before what comes in their place, keeps the chosen common lines, and no script is smaller |
| RulesDiff.SwappedLines | Manager-GUI/app/src/main/java/com/folder/manager/gui/data/RulesDiff.kt:57-75 | of two neighbours that have changed places, anywhere in a text, the one that was first is kept |
| RulesDiff.NoSmallerScript | Manager-GUI/app/src/main/java/com/folder/manager/gui/data/RulesDiff.kt:22-55 | every script adds and removes at least m + n - 2 LCS lines |
| SelectionSyntax.BothHold | native/folder_manager.cpp:984-1018 | two bracketed selections joined by AND mean both, and their arguments follow each other |
| SelectionSyntax.AndAppend | native/folder_manager.cpp:874-896 | appending a clause with AND binds its arguments after those before it |
| SelectionSyntax.OrAppend | native/folder_manager.cpp:898-932 | appending a clause with OR binds its arguments after those before it |
| SelectionSyntax.ArgsMatchPlaces | native/folder_manager.cpp:824-872 | a selection that can be evaluated has as many arguments as places |
| SelectionNesting.RightSideDecides | native/folder_manager.cpp:1011-1016 | for any words on the left: if none of their ORs stands outside their brackets, `(left) AND (right)` is true only where the right side is |
| SelectionNesting.BothSidesDecide | native/folder_manager.cpp:1011-1016 | if they close no bracket that they have not opened, it means both sides, and nothing where the left side means nothing |
| SelectionNesting.LeftSideEscapes | native/folder_manager.cpp:1011-1016 | with an OR outside, what can be evaluated is true wherever the caller's tests hold |
| MediaSelection.AppendMediaPathClause | native/folder_manager.cpp:824-872 | appends the clause of the path, and fails exactly for paths it cannot use; which rows it fits is said by MediaCoverage.CoversExactly |
| MediaSelection.ClauseMeaning | native/folder_manager.cpp:824-872 | a positive clause holds of exactly the rows the path covers, the negative one of exactly the others |
| MediaCoverage.CoversExactly | native/folder_manager.cpp:775-799 | where LIKE reads a text and a percent sign as "begins with", a file rule covers exactly the rows with its path or its part of shared storage, any other rule exactly those strictly below, for paths of up to 1021 characters without `%` and `_` |
| MediaCoverage.RelativeIs | native/path_mapper.cpp:142-161 | the relative path is what stands behind `/storage/emulated/0/`, less a slash at its end |
| MediaCoverage.LongPatternIsCut | native/folder_manager.cpp:788-799 | the pattern of a longer path loses its percent sign, and the rule no longer covers what lies below by its data |
| MediaCoverage.CoversFitting | native/folder_manager.cpp:775-799 | read as in SQL, any character may stand for an underscore of the path |
| MediaCoverage.UnderscoreCoversOthers | native/folder_manager.cpp:775-799 | so a directory rule with an underscore covers rows that it is not about |
| MediaSelection.BuildMediaNegativeSelection | native/folder_manager.cpp:874-896 | the chain of the block rules, or nothing when there are none or one is unusable |
| MediaSelection.BuildMediaPositiveSelection | native/folder_manager.cpp:898-932 | the chain of the allow and redirect rules and the shared folders, or nothing |
| MediaSelection.ChainMeaning | native/folder_manager.cpp:874-932 | the chains mean "covered by some" and "covered by none" |
| MediaSelection.BuildFilteredQueryArgs | native/folder_manager.cpp:956-1038 | rules' and caller's selections and arguments are merged in one order |
| MediaSelection.FinalMeaning | native/folder_manager.cpp:967-1003 | what the rules add holds of exactly the rows they admit |
| MediaCoverage.AdmitsExactly | native/folder_manager.cpp:967-1003 | a blacklist admits what no block rule is about, a whitelist of this what an allow or redirect rule or a shared folder is about; an unusable path takes all blocks or all offers away |
| MediaCoverage.QueryKeepsExactly | native/folder_manager.cpp:956-1038 | the query that is run keeps exactly these of the rows asked for |
| MediaSelection.FilteredMeaning | native/folder_manager.cpp:956-1038 | for any words of the caller: the merged query keeps only admitted rows if no OR stands outside its brackets, and exactly those asked for and admitted if no bracket is closed too early |
| MediaSelection.RulesHoldExactly | native/folder_manager.cpp:956-1038 | a query that can be evaluated keeps nothing but admitted rows exactly when no OR of the caller stands outside its brackets |
| MediaSelection.ClosedTooEarlyEscapes | native/folder_manager.cpp:1011-1016 | `c) OR (c` means nothing alone and with any rules keeps every row of which `c` holds |
| SelectionLength.BuffersSuffice | native/folder_manager.cpp:956-1003 | for 128 rules and 64 folders both selections, their arguments and their conjunction fit into their buffers |
| LoadedRules.PopulateRules | native/rule_config.cpp:165-193 | copies the first 128 rules, or nothing if one of them does not fit its buffers |
| LoadedRules.LoadedRulesAre | native/rule_config.cpp:157-193 | of the first 128 rules the denies block the rows that they are about, and all others offer them |
| LoadedRules.FitsInNumbers | native/rule_config.cpp:165-193 | package names of up to 127 and paths of up to 1023 characters fit |
| LoadedRules.RulePathIsAbsolute | native/rule_engine.cpp:297-341 | every compiled path is absolute |
| LoadedRules.LoadedIsStored | native/rule_config.cpp:165-193 | so every path that is loaded is absolute and shorter than its buffer |
| LoadedRules.UsableExactly | native/folder_manager.cpp:790-822 | a loaded path can be normalized again exactly when it does not outgrow its buffer under one of the two short aliases |
| LoadedRules.BlockRulesHoldExactly | native/folder_manager.cpp:874-896 | in a blacklist, blocked rows never come through exactly when no block path outgrows its buffer, or all do and block nothing |
| LoadedRules.CardRuleIsUnusable | native/rule_engine.cpp:297-341 | a line that writes `//sdcard/` and a name of at least 1004 characters compiles to such a path |
| MediaSelection.StrayArgumentsBreakTheQuery | native/folder_manager.cpp:1025-1038 | without a selection of the caller, the merged query can be evaluated exactly when the caller gave no arguments |
| DirFilter.FilterEntries | native/folder_manager.cpp:2139-2154 | the compacting loop leaves exactly the bytes of the kept records, in order, and their length |
| DirFilter.EntryIs | native/folder_manager.cpp:50-56 | a record byte by byte; it stays exactly if its name is `.` or `..` or not hidden |
| DirFilter.KeptIsExact | native/folder_manager.cpp:2139-2154 | a record stays, as often as it was there, exactly when it is a dot entry or not hidden |
| DirFilter.KeptLength | native/folder_manager.cpp:2139-2154 | kept and hidden lengths add up to what was read |
| DirFilter.KeptTwice | native/folder_manager.cpp:2139-2154 | filtering twice is filtering by either reason |
| TaskQueue.TaskQueue.Push | native/folder_manager_daemon.cpp:194-209 | the queue never exceeds its limit; a full one makes room by the victim's rule and the new task goes to the back |
| TaskQueue.TaskQueue.Pop | native/folder_manager_daemon.cpp:211-221 | takes the oldest task while the queue runs, and nothing once it has stopped |
| TaskQueue.HandleTask | native/folder_manager_daemon.cpp:1570-1608 | a task whose file is closed is finished; one whose file is open is pushed again with one more try, three times, and then given up |
| TaskQueue.PushEvictsOneWhenFull | native/folder_manager_daemon.cpp:194-209 | a push evicts only when full, and then exactly one: the first of the same source, else the oldest |
| TaskQueue.StepKeepsInv | native/folder_manager_daemon.cpp:1570-1608 | every arrival, pop and decision keeps the bound, the tries and the whereabouts of every task |
| TaskQueue.RunKeepsInv | native/folder_manager_daemon.cpp:1570-1608 | on every run each task that has arrived is in exactly one place and has been popped at most four times |
| TaskQueue.RunInNumbers | native/folder_manager_daemon.cpp:179-233 | on every run at most 256 tasks are queued, only a full queue evicts, and a task is given up exactly when its file is still open after its fourth pop |
| TaskQueue.WorkerDrains | native/folder_manager_daemon.cpp:1570-1608 | every step of the worker decreases the work that is left |
| TaskQueue.DrainingIsBounded | native/folder_manager_daemon.cpp:1570-1608 | without arrivals the worker takes at most 8 * 257 steps |
| TaskQueue.WorkerCanContinue | native/folder_manager_daemon.cpp:1570-1608 | the worker can move exactly while something is queued or in hand |
| DeleteTree.DeleteTreeInternal | native/folder_manager_daemon.cpp:745-784 | on any tree it ends, keeps the tree a tree, refuses unsafe paths, and leaves what the declared result says |
| DeleteTree.DeleteMeaning | native/folder_manager_daemon.cpp:745-784 | nothing outside the path changes; inside it files go and directories stay exactly under the mode that keeps them |
| DeleteTree.DeleteFile | native/folder_manager_daemon.cpp:723-743 | removes one file below the media root and nothing else |
| DeleteTree.SafePathIs | native/folder_manager_daemon.cpp:713-721 | only paths strictly below `/data/media/` are ever deleted |
| DeleteTree.CleanupEmptyParents | native/folder_manager_daemon.cpp:903-928 | removes exactly the upward chain of directories that hold nothing else, at or below the stop |
| DeleteTree.CleanupMeaning | native/folder_manager_daemon.cpp:903-928 | what goes is a directory on the way, below the media directory, and all that is below it goes with it |
| DeleteTree.CleanupGoesOn | native/folder_manager_daemon.cpp:903-928 | a directory left on the way, at or below the stop, has something below it that is left as well |

## Left out

- Hooks, JNI, Binder, fanotify, `/proc`, file copying, media scans and access logs: calls into the system around the logic.
- Error texts: an error is its line number; a missing mode, which the parser reports by package, is line 0.
- RuleParser.ParseRulesIni: returns the parsed rules as a value instead of filling the caller's record.
- RuleRewriting.AcceptedTextRoundTrip: says when the round trip holds; what is read back of other accepted texts is only said for single rules, by RuleSurvival.PlainRulesSurvive.
- Policy.AppPolicy.CompilePolicyForProcess: texts hold no NUL character, where a C string would end, and after a failure nothing is said about the policy.
- Policy.AppPolicy.MatchPath: the match statistics and the timing beside it are not modelled.
- FiledRules.IndexFindsFirstFiled: for more than two rules the condition on overtaking is sufficient; LookupAgreesExactly is exact for one access, TwoRulesInWrongOrder for one access and pair, PathGlobBeforePlainRule for one pair and all accesses, and PolicyProperties.DecidingRuleExactly needs no condition at all.
- IndexLimits.ReachabilityIsExactForAccesses: leaves out path globs without types that end in a slash, which a rule path does only after going up; IndexLimits.ReachabilityIsExact covers them over all texts.
- IndexLimits.ShallowGlobIsOvertaken: the allowed folder has a name of one or two letters, so that its rule comes after the glob.
- Precedence.OrderRules: std::sort is modelled by insertion; OrderIsUnique makes any other sort agree.
- RuleComments.NoteIsNoComment: is about lines without NUL, where the reading of a number would end, and about package sections; fields of shared and exported sections are not covered.
- DirFilter.FilterEntries: one call with a fixed hide test; a listing read in several calls is not, nor is the test itself.
- MediaSelection.FilteredMeaning: two-valued conditions, an abstract LIKE, and selections as words, so that quotes and comments in the caller's text are not modelled; nor is a merged text cut off at 12287 characters.
- LoadedRules.PopulateRules: the folders and exports that are copied beside the rules are not modelled.
- TaskQueue.RunKeepsInv: each queue operation is one step, as under the lock; a task in hand or queued when the daemon stops stays where it is.
- DeleteTree.DeleteTreeInternal: removals succeed when the file system allows them, and a directory is read in full before its entries are removed.
- MediaCoverage.CoversExactly: leaves out paths with `%` or `_` in them, for which CoversFitting, over paths without `%`, says what is covered instead.
- OneRuleTexts.ArrowTextIsRead: the path of the rule begins with no letter or mark that begins an option or a marked line; RuleSurvival.PlainRulesSurvive is exact there.
- CompiledWords.WildcardTargetFails: targets are relative paths of ordinary names.
- Redirect.DaemonTargetIsRerooted: the daemon's rules for `[*]` and their order are not modelled.
- Whitelist.ShouldImplicitlyAllowWhitelistPath: the access log beside the decision is not modelled.
- Hiding directory entries by policy, the delete rules' matching, export of folders after compilation, and the rest of the rule set's C mirror: they repeat the decisions above.
- RulesDiff.Diff: takes lines; how Kotlin cuts a text into lines is not modelled.
- The rule sandbox and the rule editor of the manager app, which do not agree with the engine by design.
