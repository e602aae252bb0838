# Verification of the crawl, robots, and profile-merge core of Spartan Scraper

This project models the parts of Spartan Scraper whose behaviour is hardest to see from reading one function, and
proves what they guarantee. Verify with `dafny verify dfyconfig.toml`.

- **The concurrent crawl** (`CrawlModel` and the other `Crawl*` modules). `Run` is a transition system with one action
  per access of the main goroutine, the workers, or the closer to what they share, and the outer cancellation, for any
  number of workers, any site and any schedule. The send on `tasks` and the `wg.Add(1)` after it are two steps, as in
  the code, and so are the return of `wg.Wait` and `close(tasks)`. Proved over all runs: conservation of tasks,
  visit-once with provenance, coverage down to the depth limit, the result cap, termination, the ways in which a run can
  end, what a dropped offer costs.
  Where a promise depends on the request, the exact condition is proved: no run panics, none sends on the closed
  `results`, and no finished uncancelled run has lost a task, each if and only if there is one worker or one page
  (`ShutdownSafeIff`, `ResultsSafeIff`, `NothingLostIff`); recorded depths are shortest link distances if and only if
  there is one worker, or at most two pages, or depth one (`BreadthFirstIff`); some run drops a seed, or strands after
  a cancellation, if and only if the seeds allow it (`SeedDropIff`, `StrandingIff`), and a link, if and only if there is
  more than one page (`LinkDropIff`).
- **The near-duplicate index** (`Duplicates`, `CrawlDuplicates`), **sitemap collection** (`Sitemap`).
- **robots.txt** (`RobotsLines`, `RobotsParse`, `RobotsShared`, `RobotsAgents`, `RobotsSelect`, `RobotsMatch`,
  `RobotsShortest`, `RobotsSegments`, `RobotsRooted`, `RobotsCache`, `RobotsCalls`): lines and groups, selection of
  group and rule, greedy matcher, and the double-checked cache as a transition system for any number of goroutines.
- **URL patterns** (`Patterns`): a compiler from globs to regular-expression text, proved to keep the meaning.
- **Profile inheritance** (`Dedup`, `Profiles`, `MergedItems`, `ProfileGraph`, `Inheritance`): a recursive merge over a possibly cyclic graph.
- **Column names** (`Columns`) and the **metrics ring buffer** (`Metrics`).

`Basics` and `Strings` hold shared lemmas and the few functions of Go's `strings` package that the models use.

The crawl and the cache are state machines over values because their goroutines interleave; code that one goroutine
runs by itself is written as methods and classes that are proved against a specification function.

## Where the code and its documentation differ

The models follow the code. These differences are stated and proved as lemmas.

- The repository's overview calls the crawler breadth-first (`README.md:284`), and four workers are the default
  (`internal/crawl/orchestrator.go:55-57`). With several workers a page can be given a depth that is not its distance
  (`BreadthFirstIff`, `DepthRace`), and Wait can return early, so that a later send panics or a queued page is lost
  without an error (`ShutdownRace`, `ResultsRace`, `LossRace`).
- `**` is documented to match any sequence (`internal/crawl/patterns.go:36`, `internal/crawl/patterns.go:98`); it
  does not match a newline (`NewlineIff`, `DocumentedIff`).
- `matchRule` and `matchWildcard` are documented as the standard meaning of `*` and `$`
  (`internal/crawl/robots.go:350-351`, `internal/crawl/robots.go:394-395`). Against sections 2.2.1 to 2.2.3 of
  RFC 9309: groups for one agent are not combined (right exactly under `CombinedIff` and `CombinedVerdictIff`), of
  different User-agent lines with no rule between only the last counts (`SharedIff`, `ToldIff`), a longest-match tie
  goes to the earlier rule and not to allow (`AllowWinsHereIff`), an empty `Disallow:` forbids the paths that no other
  rule matches (`EmptyDisallowIff`), plain patterns match whole path segments only (`PlainIsSegments`), a leading star
  does not float (`WildcardExact`), and with `$` only the shortest matching prefix counts (`WildcardAnchored`). For which
  patterns that is right is said by `WildcardExactIff`, `RuleExactIff`, `RuleExactOnRootedIff` and `MissedIff`.
- Token keys join their fields with an unescaped `|` (`internal/auth/merge.go:476-481`), so tokens for different headers
  can replace each other; `TokenKeyIff` says which tokens are safe.

## Model

| member | source | states |
|---|---|---|
| CrawlModel.Normalize | internal/crawl/orchestrator.go:49-57 | positive limits of the request are kept, the others become 100 pages, depth 1 and 4 workers |
| CrawlLedger.LedgerRun | internal/crawl/orchestrator.go:152-158 | in every reachable state each task ever sent is queued, held by one worker, or done, exactly once, and the counter is the tasks sent less those done less the sends whose Add is outstanding |
| CrawlShutdown.GroupCounts | internal/crawl/orchestrator.go:193-231 | the wait group equals the queue plus the workers that hold a task and owe no Add, and it reads zero only if every held task is held by a worker between a send and its Add |
| CrawlShutdown.NeverNegative | internal/crawl/orchestrator.go:231 | no interleaving drives the wait group below zero, so no Done panics |
| CrawlShutdown.SafeStep | internal/crawl/orchestrator.go:186-243 | a step from a state in which the counter is honest cannot panic and leaves nothing queued or held once Wait has returned |
| CrawlShutdown.SoloRun | internal/crawl/orchestrator.go:111-243 | with one worker or one page, in every run Wait returns only when nothing is queued or held and nothing is sent on a closed channel |
| CrawlShutdown.UndisturbedRun | internal/crawl/orchestrator.go:153-154 | the same for any number of workers, over all runs in which nobody moves between a send and its Add |
| CrawlScenarios.ShutdownRace | internal/crawl/orchestrator.go:152-154 | for every request with two or more workers and pages there is a run in which a child is Done before its parent's Add, Wait returns, and after `close(tasks)` the next offer panics |
| CrawlScenarios.ResultsRace | internal/crawl/orchestrator.go:237-241 | for the same requests there is a run in which a task is sent between the return of Wait and `close(tasks)`, and its result panics on the closed `results` |
| CrawlScenarios.LossRace | internal/crawl/orchestrator.go:237-242 | for the same requests there is a run that returns without cancellation or panic and leaves such a task queued and never Done |
| CrawlScenarios.DepthRace | internal/crawl/orchestrator.go:218-228 | with two or more workers, three or more pages and depth two there is a run that claims a page linked from the root at depth 2 |
| CrawlVisits.ChainTo | internal/crawl/orchestrator.go:218-229 | from every task sent a chain of exactly `depth` links through expanded pages goes back to an admitted seed |
| CrawlVisits.BooksRun | internal/crawl/orchestrator.go:111-231 | the whole invariant of the crawl (conservation, provenance, claims, fetches, results) holds along every run |
| CrawlVisits.VisitOnce | internal/crawl/orchestrator.go:142-149 | in every reachable state tasks sent and pages fetched have distinct normalised URLs, respect the depth limit and the filters, and have their chain of links |
| CrawlVisits.ResultsFit | internal/crawl/orchestrator.go:208-253 | results sent or about to be are min(processed, MaxPages), so the send never blocks on its buffer, the collector never breaks early, and a returned run has collected every result sent |
| CrawlOrder.PathOfDepth | internal/crawl/orchestrator.go:218-229 | with any number of workers, a link path as long as its depth leads to every visited key |
| CrawlOrder.PathsAreLong | internal/crawl/orchestrator.go:148 | if no expanded page undercuts a recorded depth, no link path to a visited key is shorter than its depth |
| CrawlOrder.BreadthFirst | internal/crawl/orchestrator.go:186-231 | one worker, every site and run: tasks are sent, queued and done in order of depth, the queue spans at most two levels, and every visited key has its shortest distance as its depth, despite drops and the page cap |
| CrawlTermination.StepDecreases | internal/crawl/orchestrator.go:186-253 | every action from any state lowers the lexicographic measure (pages left, links left, weight in flight) |
| CrawlTermination.EveryRunEnds | internal/crawl/orchestrator.go:186-253 | no schedule runs for ever, on any site, finite or not |
| CrawlTermination.QuiescentIff | internal/crawl/orchestrator.go:186-253 | a run can go no further exactly when it has panicked, or finished, or all workers left on the outer cancellation with tasks queued |
| CrawlTermination.FinishedIsAccounted | internal/crawl/orchestrator.go:245-253 | whatever the limits, a finished run returns all min(processed, MaxPages) results, and the tasks it sent are those done, each once, and those left in the channel, which the wait group still counts |
| CrawlTermination.RunsReturnOrPanic | internal/crawl/orchestrator.go:111-253 | with any limits on any site, a run can go no further exactly when it has sent on a closed channel, or has returned with that account, or is stranded by the outer cancellation; a finished run has done all it sent exactly when the channel is empty |
| CrawlTermination.UncancelledRunsReturn | internal/crawl/orchestrator.go:111-253 | with one worker or one page, every finished run has done all it sent, and every uncancelled run that can go no further has finished |
| CrawlTermination.Drive | internal/crawl/orchestrator.go:186-253 | running any scheduler to the end terminates in one of those ways, without panic and loss for one worker or one page |
| CrawlTermination.UndisturbedRunsReturn | internal/crawl/orchestrator.go:153-154 | the same for any number of workers when nobody moves between a send and its Add |
| CrawlCoverage.ExpandedAreShallow | internal/crawl/orchestrator.go:202-229 | in every reachable state the tasks expanded are exactly the results above the depth limit, in order, with the links of their answer; every result is a task that was answered with a page, and no task has two answers |
| CrawlCoverage.CapOvershoot | internal/crawl/orchestrator.go:197-216 | in every reachable state pages counted and still being fetched are fewer than MaxPages and the workers together, so each other worker fetches at most one page in vain |
| CrawlCoverage.OfferSettles | internal/crawl/orchestrator.go:152-158 | until `tasks` is closed an offer is sent exactly when there is room, and dropped exactly when the channel holds MaxPages tasks and the context is not done |
| CrawlCoverage.CoversDepth | internal/crawl/orchestrator.go:111-231 | with one worker or one page, a finished run below the page limit that dropped no offer has sent exactly the pages within MaxDepth links of the admitted seeds, along the links of its results, and fetched them all |
| CrawlVerdicts.ShutdownSafeIff | internal/crawl/orchestrator.go:152-243 | no run on any site panics, if and only if there is one worker or one page |
| CrawlVerdicts.RequestSafeIff | internal/crawl/orchestrator.go:52-57 | the same in terms of the request, so the defaults of 100 pages and 4 workers are not safe |
| CrawlVerdicts.ResultsSafeIff | internal/crawl/orchestrator.go:208-210 | no run on any site sends on the closed `results`, if and only if there is one worker or one page |
| CrawlVerdicts.NothingLostIff | internal/crawl/orchestrator.go:237-253 | every finished uncancelled run on every site has done every task it sent, if and only if there is one worker or one page |
| CrawlVerdicts.BreadthFirstIff | internal/crawl/orchestrator.go:142-231 | recorded depths are shortest distances on every site and run, if and only if there is one worker, at most two pages, or depth one |
| CrawlVerdicts.StrandingIff | internal/crawl/orchestrator.go:189-192 | some run of a crawl can leave `Run` waiting for ever after an outer cancellation, if and only if some seed passes the filters |
| CrawlDrops.DroppedIsLost | internal/crawl/orchestrator.go:148-158 | a link whose offer is dropped or abandoned is never sent or fetched in any continuation, however often it is linked again |
| CrawlDrops.DroppedSeedIsLost | internal/crawl/orchestrator.go:169-180 | the same for a seed or sitemap URL that finds the channel full |
| CrawlDrops.SeedDropIff | internal/crawl/orchestrator.go:100-180 | some run drops an admitted seed, if and only if the admitted seeds have more normalised URLs than MaxPages |
| CrawlDrops.LinkDropIff | internal/crawl/orchestrator.go:152-156 | on no site and run a link finds the channel full, if and only if MaxPages is 1 |
| Duplicates.DistanceCountsBits | internal/simhash/simhash.go:70-72 | counting the ones of the exclusive or is counting the differing bits |
| Duplicates.HammingIsMetric | internal/simhash/simhash.go:61-72 | the distance of 64-bit fingerprints is a metric |
| Duplicates.ChosenThreshold | internal/crawl/orchestrator.go:58-60 | a requested threshold is kept unless it is negative, which means 3 |
| Duplicates.Index.constructor | internal/crawl/orchestrator.go:58-60 | the index starts empty with threshold 3 for a negative request, else the requested one |
| Duplicates.Index.Check | internal/crawl/worker.go:262-285 | a checked page either names the URL of some fingerprint within the threshold and leaves the index alone, or is recorded because none is that close |
| Duplicates.IndexInvariant | internal/crawl/worker.go:262-285 | over any sequence of turns the index holds exactly the originals, its fingerprints are more than the threshold apart, and every duplicate points to an earlier original |
| Duplicates.ClustersAreStars | internal/crawl/worker.go:262-285 | originals are pairwise more than the threshold apart, a duplicate names another, original page within the threshold, and duplicates of one original are within twice the threshold |
| CrawlDuplicates.CrawlClusters | internal/crawl/worker.go:262-285 | the same for the pages of every crawl in every reachable state, with any number of workers, because no page is fetched twice |
| CrawlDuplicates.NamesResultIff | internal/crawl/worker.go:262-293 | in every reachable state each duplicate among the results names a result, if and only if no result points to an original that failed or was turned away after it was recorded |
| Sitemap.CollectLocations | internal/crawl/sitemap.go:124-128 | the entries with a location, trimmed, in order |
| Sitemap.ParseYields | internal/crawl/sitemap.go:120-145 | for every document and URL: error if and only if neither list has entries; the URL is collected if and only if some entry lists it up to blanks, with the index counting only if the URL set has no entries |
| Sitemap.ParseSitemap | internal/crawl/sitemap.go:40-42 | collection from depth 0 |
| Sitemap.ParseRecursive | internal/crawl/sitemap.go:47-95 | the recursion computes the depth-bounded collection and skips failed nested sitemaps |
| Sitemap.CollectionIsExact | internal/crawl/sitemap.go:45-95 | over any fetch function the result is exactly the entries at the end of chains of at most five nested sitemaps that all succeed, each once, in preorder; it is an error exactly when the top sitemap is |
| Sitemap.ChainsAreShort | internal/crawl/sitemap.go:45-50 | no collected entry lies deeper than the depth limit |
| Sitemap.LookupFollows | internal/crawl/sitemap.go:45-50 | an entry is collected exactly if a chain of at most five nested sitemaps leads to it |
| Sitemap.LocationsInOrder | internal/crawl/sitemap.go:124-139 | locations are taken one by one in order, trimmed, without the empty ones |
| Dedup.NormKeyed | internal/auth/merge.go:286-307 | normalising gives one item per non-blank key, in first-occurrence order with the last value |
| Dedup.NormAbsorbs | internal/auth/merge.go:288-301 | normalising the left or the right part first changes nothing |
| Dedup.MergeAssociative | internal/auth/merge.go:282-364 | merging is associative and equals one pass over the concatenation |
| Profiles.SchemesAreLawful | internal/auth/merge.go:290-305 | trimming keys, or keeping items as they are, does not change their keys, for headers, cookies and tokens |
| Profiles.TokenKeyIff | internal/auth/merge.go:476-481 | a token shares its key only with tokens of the same kind, header, query and cookie, if and only if the separator is in none of them (the first character of the kind aside) |
| Profiles.PlainTokenSurvives | internal/auth/merge.go:338-364 | such a token survives every merge up to its value: the merge has a token with its fields, and none with its key and other fields |
| Profiles.AddItems | internal/auth/merge.go:288-299 | the `add` loop keeps the key order and the latest value of everything added so far |
| Profiles.MergeItems | internal/auth/merge.go:282-364 | the two loops and the read-out compute the merge |
| Profiles.MergeTwo | internal/auth/merge.go:266-280 | field by field the merge of two profiles |
| Profiles.MergeLoginAssociative | internal/auth/merge.go:398-431 | overlaying login flows is associative, the auto-detect flag and the confidence score included |
| Profiles.MergeProfileAssociative | internal/auth/merge.go:266-280 | merging profiles is associative |
| Profiles.MergeAllConcat | internal/auth/merge.go:83-97 | merging two lists and then the results is merging the joined list |
| Profiles.MergeAllIsFlat | internal/auth/merge.go:282-364 | merging a list of profiles is one pass over all their headers, cookies and tokens |
| MergedItems.MergedHeaders | internal/auth/merge.go:282-308 | merged headers are one for each trimmed key that is not blank, at the place of the first with it, with the value of the last |
| MergedItems.MergedCookies | internal/auth/merge.go:310-336 | the same for cookies by trimmed name, kept as they are |
| MergedItems.MergedTokens | internal/auth/merge.go:338-364 | the same for tokens by key, those without a kind left out |
| ProfileGraph.Find | internal/auth/merge.go:459-466 | found exactly if some profile has the name, and then it has it |
| ProfileGraph.FindsFirst | internal/auth/merge.go:459-466 | the profile found is the first of that name |
| ProfileGraph.FindProfile | internal/auth/merge.go:459-466 | the loop returns the first profile of that name |
| ProfileGraph.MergeProfiles | internal/auth/merge.go:68-98 | terminates on every vault, leaves the path set as it found it on every exit, and returns the flat merge of the post-order list or the first failure |
| ProfileGraph.NestedIsFlat | internal/auth/merge.go:83-97 | on success headers, cookies and tokens are one order-preserving pass over the post-order list, which ends with the profile itself |
| ProfileGraph.SucceedsIff | internal/auth/merge.go:68-98 | succeeds if and only if the name is not blank and every walk up from it stays in the vault without meeting a name twice |
| ProfileGraph.SuccessMeansClean | internal/auth/merge.go:72-81 | below any path, success means that every walk up is clean |
| ProfileGraph.FailureHasWalk | internal/auth/merge.go:72-92 | every failure is explained by a walk to a missing or repeated name |
| Inheritance.MergedLogin | internal/auth/merge.go:398-431 | over a list of profiles there is a login exactly if one has one; each text is the last that is not empty, auto-detect is that of the last login, the confidence score that of the first |
| Inheritance.MergedParents | internal/auth/merge.go:271-273 | over a list the parents are the last that are not empty |
| Inheritance.LoginIsInherited | internal/auth/merge.go:83-97 | so the resolved login has what the last profile of the post-order list says, field by field, and the profile itself is the last |
| Inheritance.ParentNamesAre | internal/auth/merge.go:84-88 | the parents looked up are the trimmed ones that are not blank |
| Inheritance.ParentsInOrder | internal/auth/merge.go:83-97 | on success a profile is the merge of its parents, each merged for itself, in the order it lists them, and then of itself |
| Inheritance.ErrorMeans | internal/auth/merge.go:68-92 | a blank name asks for one; otherwise the error names the end of a walk, as not found when it is not in the vault, as a cycle when the walk meets it twice |
| RobotsMatch.MatchWildcard | internal/crawl/robots.go:396-439 | the loop over `pos` places the parts greedily |
| RobotsMatch.WildcardSound | internal/crawl/robots.go:396-439 | for all patterns, with or without `$`, what is matched does match by the declarative meaning |
| RobotsMatch.GreedyFinds | internal/crawl/robots.go:422-430 | if the parts fit anywhere in order, leftmost placement succeeds |
| RobotsMatch.WildcardExact | internal/crawl/robots.go:404-438 | without `$` the program decides exactly the pattern without its leading stars |
| RobotsMatch.WildcardExactIff | internal/crawl/robots.go:396-439 | right on every path if and only if: with `$`, no star or a lone one; without, no leading star unless there is nothing else |
| RobotsShortest.WildcardAnchored | internal/crawl/robots.go:404-438 | with `$` the program decides whether the pattern without its leading stars matches the whole path and no shorter prefix of it |
| RobotsMatch.MatchRule | internal/crawl/robots.go:352-391 | the branches for empty, anchored, wildcard, directory and segment patterns |
| RobotsMatch.RuleSound | internal/crawl/robots.go:352-391 | a rule never matches a path that its pattern does not |
| RobotsMatch.RuleExactIff | internal/crawl/robots.go:352-391 | on all paths, the patterns that mean to the program what they mean |
| RobotsSegments.PlainIsSegments | internal/crawl/robots.go:374-390 | a plain pattern without a final slash matches the paths whose first segments are its segments |
| RobotsSegments.DirectoryIsSegments | internal/crawl/robots.go:379-382 | one with a final slash matches what lies below that directory |
| RobotsSegments.PlainAnchored | internal/crawl/robots.go:369-372 | with `$` a plain pattern matches itself only |
| RobotsSegments.PlainDiffers | internal/crawl/robots.go:384-390 | a plain pattern differs from what it means exactly on paths that go on inside its last segment |
| RobotsRooted.RuleExactOnRootedIff | internal/crawl/robots.go:318-334 | the same on the paths that really reach a rule, which start with a slash |
| RobotsRooted.DecodedIsRooted | internal/crawl/robots.go:318-327 | the path that reaches a rule starts with a slash if unescaping keeps one |
| RobotsRooted.ExactRulesDecide | internal/crawl/robots.go:313-348 | for rules with such patterns and every path, what `IsAllowed` decides is what the patterns mean; the empty pattern is one of them, taken to mean every path (`EmptyDisallowIff` says when that matters) |
| RobotsRooted.MissedIff | internal/crawl/robots.go:329-391 | on any file and path `IsAllowed` decides as the patterns mean, if and only if it does not miss the earliest longest rule that means the path, or what it finds instead says the same |
| RobotsSelect.SelectGroup | internal/crawl/robots.go:264-309 | the early-exit scan returns the earliest group of best rank, or none if no agent fits |
| RobotsSelect.BestGroupUnique | internal/crawl/robots.go:285-296 | at most one group is the earliest of best rank |
| RobotsAgents.BestGroupIsFor | internal/crawl/robots.go:262-308 | the selected group is the first with an exact agent, or else the first with the longest beginning of the user agent, or else the first with a wildcard; there is none exactly when no agent fits |
| RobotsSelect.RankOrder | internal/crawl/robots.go:275-297 | exact agent over longer prefix over shorter prefix over wildcard, which ties with the empty agent |
| RobotsSelect.CombinedIff | internal/crawl/robots.go:273-306 | the rules returned are those of all best-ranked groups combined, if and only if no later group of that rank has rules |
| RobotsSelect.CombinedVerdictIff | internal/crawl/robots.go:273-306 | on a path they decide as the combined rules would, if and only if the winner among the later groups of that rank is no longer than some rule of the first that applies, or says the same |
| RobotsSelect.AppendIff | internal/crawl/robots.go:329-345 | the same for any rules appended to any rules |
| RobotsSelect.IsAllowed | internal/crawl/robots.go:313-348 | the verdict of the earliest longest matching rule, allow by default |
| RobotsSelect.OrderFreeIff | internal/crawl/robots.go:329-345 | the verdict is the same for all permutations of the rules if and only if the longest matching rules agree |
| RobotsSelect.DistinctLengthsAgree | internal/crawl/robots.go:335-339 | they do when matching patterns have distinct lengths |
| RobotsSelect.AllowWinsIff | internal/crawl/robots.go:336 | allow wins ties in every order of the rules if and only if there is no disagreeing tie |
| RobotsSelect.AllowWinsHereIff | internal/crawl/robots.go:332-345 | on one given file the verdict is that of allow winning ties, if and only if the earliest longest matching rule allows or no longest matching rule does |
| RobotsSelect.EmptyDisallowIff | internal/crawl/robots.go:332-355 | an empty `Disallow:` put anywhere in any rules leaves the verdict alone, if and only if a rule before it applies, or a rule with a pattern after it applies, or the next empty rule forbids already |
| RobotsSelect.EmptyDisallowForbids | internal/crawl/robots.go:353-355 | among rules that all have a pattern it forbids exactly the paths that no other rule matches |
| RobotsSelect.DollarMissesLaterPlace | internal/crawl/robots.go:422-436 | for every pattern with a star that does not lead and a `$`, there is a path that the pattern means and that a `Disallow:` of it lets pass |
| RobotsParse.ParseRobotsTxt | internal/crawl/robots.go:172-253 | the loop with its current group computes the groups |
| RobotsLines.ClassifyReads | internal/crawl/robots.go:180-195 | only the text before the first `#` counts, without the blanks around it |
| RobotsLines.DirectivesMean | internal/crawl/robots.go:198-238 | in any ASCII case and with blanks around name and value, a disallow line forbids its value, an allow line allows it, a User-agent line names an agent in lower case, a crawl delay is a number |
| RobotsLines.OthersAreIgnored | internal/crawl/robots.go:201 | a line with any other name says nothing |
| RobotsLines.EmptyLinesAreIgnored | internal/crawl/robots.go:182-196 | nor does a line that is blank, only a comment, without a colon, or without a name |
| RobotsLines.CommentsChangeNothing | internal/crawl/robots.go:187-190 | a `#` and what follows it change nothing |
| RobotsLines.ScanIntIs | internal/crawl/robots.go:234-235 | a decimal numeral scans to its value with its sign, up to the first character that is no digit; no digits scan to nothing |
| RobotsParse.DelaysOwned | internal/crawl/robots.go:230-244 | every group has the agent and the last positive delay that were in force where it ended |
| RobotsParse.RulesConserved | internal/crawl/robots.go:179-244 | flattened, the groups are exactly the file's rules in order, each owned by the nearest User-agent line before it or by nobody |
| RobotsParse.AgentOwnsNearestOnly | internal/crawl/robots.go:202-229 | every rule of a group is a line of the file whose nearest agent is the group's |
| RobotsParse.StackedAgentForgotten | internal/crawl/robots.go:202-209 | anywhere in a file, a User-agent line and all that follows it up to another one, with no rule between, has no effect, delays included |
| RobotsParse.SharedIff | internal/crawl/robots.go:179-244 | every rule is owned by exactly the agents of the run of User-agent lines before it, if and only if before every rule all agents of the run are the same one |
| RobotsShared.SharedConserved | internal/crawl/robots.go:202-229 | the groups of section 2.2.1 hold the file's rules in order, each owned by all agents of the run before it |
| RobotsShared.GroupsForgetAgents | internal/crawl/robots.go:202-209 | on every file the program's groups are those of section 2.2.1 with every agent but the last forgotten |
| RobotsShared.ToldIff | internal/crawl/robots.go:202-348 | a user agent is told the same as by section 2.2.1 on a path, if and only if the agent that fits it best is not forgotten or the group it gets instead says the same |
| RobotsCache.Ttl | internal/crawl/robots.go:52-54 | a positive time to live is kept, any other becomes one hour |
| RobotsCache.InvStep | internal/crawl/robots.go:106-143 | every step of every goroutine keeps the cache invariant |
| RobotsCache.FetchesAreSpaced | internal/crawl/robots.go:112-140 | fetches of one host are a time to live apart, from store to start, and never two at once |
| RobotsCache.AnswersAreFresh | internal/crawl/robots.go:106-143 | every answer is that of a fetch younger than the time to live, and while a fetch is fresh every answer is its answer |
| RobotsCache.FailuresAllow | internal/crawl/robots.go:75-80 | after a failed fetch every caller is told "allowed" until the time to live has passed |
| RobotsCalls.CallsAreAnswered | internal/crawl/robots.go:106-143 | over every run each host has as many calls as answers and callers still inside, and the entries stored are what the fetches brought, in order |
| RobotsCalls.AllowedByGroup | internal/crawl/robots.go:75-92 | a caller is told the verdict of the group chosen for it |
| RobotsCalls.FreshNeedsNoLock | internal/crawl/robots.go:107-114 | a caller that has peeked at a fresh entry is answered at once, whoever holds the lock |
| RobotsCalls.NoDeadlock | internal/crawl/robots.go:106-143 | in every reachable state some goroutine can step, if and only if one is inside a call |
| RobotsCalls.CallsEnd | internal/crawl/robots.go:106-143 | under every schedule a run with k calls has at most 5k steps of theirs |
| Patterns.GlobToRegex | internal/crawl/patterns.go:99-132 | the index loop writes the text for the pieces of the glob |
| Patterns.RoundTrip | internal/crawl/patterns.go:99-132 | parsing the emitted text gives back exactly the pieces of the glob, so compiling never fails |
| Patterns.CompilerPreservesMeaning | internal/crawl/patterns.go:96-132 | the regular expression accepts a path exactly when the glob means it |
| Patterns.LiteralGlob | internal/crawl/patterns.go:118-126 | a glob without stars matches itself only |
| Patterns.OneStarGlob | internal/crawl/patterns.go:107-117 | one star between texts stands for any run without a slash, two for any run without a newline |
| Patterns.NewlineIff | internal/crawl/patterns.go:96-112 | on a path every glob matches as documented (`**` any run), if and only if the path has no newline |
| Patterns.DocumentedIff | internal/crawl/patterns.go:96-112 | a glob matches every path as documented, if and only if it has no two stars in a row |
| Patterns.PatternMatcher.constructor | internal/crawl/patterns.go:38-64 | compiles the non-empty patterns in order |
| Patterns.PatternMatcher.Matches | internal/crawl/patterns.go:73-94 | the two scans decide: no exclude, and no includes or one of them |
| Patterns.MatcherMeansGlobs | internal/crawl/patterns.go:66-94 | that decision, taken on the compiled texts, is the one on the meaning of the globs |
| Columns.ColumnName | internal/exporter/transformed_export.go:318-325 | the loop computes the name |
| Columns.ColumnNamesAreABijection | internal/exporter/transformed_export.go:318-325 | two-sided inverse between non-negative indices and non-empty names, increasing in shorter-first then lexicographic order |
| Metrics.RingBuffer.constructor | internal/api/metrics.go:97-102 | starts with an empty history |
| Metrics.RingBuffer.Push | internal/api/metrics.go:105-114 | appends to the history and keeps the modular-head invariant |
| Metrics.RingBuffer.GetAll | internal/api/metrics.go:117-138 | the last `capacity` items pushed, oldest first, by either branch |
| Metrics.RingBuffer.Size | internal/api/metrics.go:141-145 | how many that are |

## Left out

- UncancelledRunsReturn: speaks of one worker or one page, because with all other limits a run can panic before it
  returns or lose a task (`ShutdownRace`, `LossRace`), and of uncancelled runs, because others can be stranded;
  `RunsReturnOrPanic` covers the rest.
- CoversDepth: speaks of one worker or one page, and of runs that stay below the page limit and drop nothing; with more
  workers a page can be given too great a depth to be expanded (`DepthRace`), and a dropped page is lost
  (`DroppedIsLost`).
- UndisturbedRun: speaks of runs in which a send and its Add are adjacent; the code does not ensure that.
- HammingDistance: fingerprints are natural numbers of which the lowest 64 bits count.
- Everything inside `processPage` but the duplicate check (fetching, hooks, extraction, scripts, state store,
  webhooks) is one nondeterministic outcome: failed, skipped, or a page with links. A page that is not to be expanded
  is one without links. Which page has its turn in the duplicate index when is left open.
- `url.Parse`, `normalizeURL`, `resolveURL`, the same-host test, `PathUnescape`, the XML and gzip decoding are
  arbitrary functions. The filters of `enqueue` are one fixed predicate during a run.
- The seeds are a list, first the sitemap's, then the start URL. The error of a sitemap-only request without a sitemap,
  and the errors before the first goroutine starts, are not modelled.
- Counters are unbounded; the 32-bit truncation of `MaxPages` and overflow of the atomics are not modelled.
- `wg.Wait` is one step that is possible while the counter is zero. Inside it, between the Done that reaches zero and
  the waiter's last look at the counter, Go panics when it sees an Add; those panics are not modelled. With one worker
  or one page nobody adds once the counter is zero.
- The return of `Run` and its deferred cancellation are one step. In between, an `enqueue` could take the default case
  for the cancelled one; neither sends.
- Fairness: termination is that of the measure, not of a particular scheduler of goroutines.
- Go's `regexp` engine is replaced by a parser and matcher for the syntax that `globToRegex` emits, over characters
  instead of bytes; a glob that is not valid UTF-8 can fail to compile in Go.
- Strings are sequences of characters, and all are valid UTF-8. Pattern lengths are counted in bytes, as in the code;
  the length of an agent is counted in characters, which orders the prefixes of one user agent in the same way.
- Lower case is that of the ASCII letters. Splitting the input into lines, lines over 1 MB, and the overflow of a crawl
  delay are not modelled. A rule's fields `IsPrefix` and `HasWildcard` are never read and have been dropped.
- The clock of the cache never runs backwards. Time is what is compared; the HTTP and HTTPS attempts are one fetch.
- `OAuth2` and `Presets` of a profile, `Resolve` and its layering, environment overrides: easy or irregular members.
- The difference between nil and empty slices.
- A ring buffer of capacity 0 panics in `Push`; the model's `Push` asks for a positive capacity.
- HTTP handlers, stores, schedulers, exporters other than column names, AI, captcha, metrics other than the buffer.
