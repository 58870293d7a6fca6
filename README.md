# PR Nightwatch engine, modelled in Dafny

PR Nightwatch is a GitHub Action. It reads a pull request and posts a single Markdown comment on it. The comment carries:

- a refactor-safety score;
- a blast radius, which groups the changed files by domain;
- an ownership fingerprint: the ranked contributors and a bus factor;
- the sensitive files found by a configurable pattern set;
- other open pull requests that edit the same files;
- a late-night fatigue signal.

This project models the engine that computes these signals and renders the report, and proves properties of it.

Modules:

- `Wrappers`: the `Option` type.
- `Text`: the JavaScript string operations the engine uses. These are `trim`, ASCII `toLowerCase`, `startsWith`, `endsWith`, `includes`, `split`, `join` and number formatting.
- `Lists`: JavaScript `Map` counters kept in insertion order, the stable descending `Array.prototype.sort`, de-duplication, first match, filter and flat-map.
- `Classifiers`: `lib/core/classifiers.js`, the domain rules and the three path predicates.
- `Regexes`: the regexes of the engine. Built-in patterns are concrete shapes (whole, prefix, substring, suffix, spanning) with a case flag. User patterns are matched by an abstract `userMatch`, and an abstract `compiles` says whether `new RegExp` accepts a string.
- `Patterns`: `lib/core/patterns.js`, which holds:
  - the two-section list parser, as a loop proved against a fold over lines;
  - the normalisation of entries;
  - the per-category fallback to the built-in lists;
  - the reason table;
  - the scan, as a loop proved against a function.
- `Analytics`: `lib/core/analytics.js`, which holds:
  - the fatigue rule;
  - the safety score, as a method with a mutable score;
  - the blast radius and the ownership fingerprint, as loops over `Map` counters;
  - the contributor mentions.
- `GitHub`: `lib/core/github.js`, which holds:
  - the conflict detector, in which the module-level file-list cache is the class `FileListCache`;
  - the version fallback;
  - the marker-based upsert decision over the first page of comments.
- `Report`: `lib/core/report.js`, the labels, thresholds and line layout of `buildReport`.
- `Legacy`: the older single-file variant `lib/main.js`. Most of its functions are copies of the core ones, and the same members model them: `isTestFile`, `isPublicSurface`, `isRisky`, `DeveloperStateFromGit`, `ownershipFingerprint`, `contributorMentions`, `refactorSafety`, `prFilesAndConflicts` and `upsertComment`. `Legacy` models what differs:
  - the domain rules;
  - a simpler list parser;
  - a ten-rule default registry whose `.env` rules are case-sensitive;
  - findings without reasons;
  - the blast radius without per-domain counts;
  - the inline report labels.

External data are parameters. These are:

- the commit timestamps, `weekAgo` and the hour-of-day function;
- the per-file author output (`None` when `git log` fails);
- the per-PR file-list fetch (`None` when the request fails);
- the open PR list (`None` when the request fails) and the status map;
- the configuration file text (`None` when it cannot be read);
- the package version and the latest tag.

The code and the project's own description disagree in four places. The model follows the code:

- An empty change with no churn scores 90, not 100, because touching no test file costs 10. `Analytics.EmptyChangeScores90` states this.
- With no author data the bus factor is 3, not 1. `Analytics.NoHistory` states this.
- The overlap with another PR counts the entries of that PR's file list that are in the current set. It is not a set intersection, so a repeated path counts twice. `GitHub.RepeatsCountTwice` states this.
- A failed fetch for any other PR aborts the whole conflict detection. `GitHub.FetchFailurePropagates` states this.

## Model

| member | source | states |
|---|---|---|
| Classifiers.Classify | lib/core/classifiers.js:7-8 | the result is the fallback or the name of one of the rules |
| Classifiers.ClassifyFirstMatch | lib/core/classifiers.js:7 | when rule k passes and no earlier rule does, the result is rule k's name |
| Classifiers.ClassifyNoMatch | lib/core/classifiers.js:8 | when no rule passes, the result is the fallback |
| Classifiers.DomainFromFile | lib/core/classifiers.js:1-9 | the domain is one of the three rule names or "Primary Codebase"; specified by `DomainFromFileSpec` |
| Classifiers.IsTestFile | lib/core/classifiers.js:11-13 | definition, specified by `TestFileUnderDirectory` and `TestFileCaseSensitive` |
| Classifiers.IsPublicSurface | lib/core/classifiers.js:15-17 | definition, specified by `PublicSurfaceIgnoresCase` and `SchemaAndProtoArePublicAndRisky` |
| Classifiers.IsRisky | lib/core/classifiers.js:19-23 | definition, specified by `RiskyIgnoresCase`, `RiskyWithin` and `ClockIsRisky` |
| Classifiers.DomainFromFileCases | lib/core/classifiers.js:1-9 | the rule list decides in order: `.github/workflows/`, then `.github/`, then exactly `README.md`, else "Primary Codebase" |
| Classifiers.DomainFromFileSpec | lib/core/classifiers.js:1-9 | "Workflows" iff under `.github/workflows/`; "Repository Metadata" iff under `.github/` but not workflows; "Documentation" iff exactly `README.md`; "Primary Codebase" otherwise |
| Classifiers.ReadmeOnlyAtRoot | lib/core/classifiers.js:5-8 | `docs/README.md` and `readme.md` fall through to "Primary Codebase" |
| Classifiers.TestFileUnderDirectory | lib/core/classifiers.js:11-13 | a test file moved under any directory is still a test file |
| Classifiers.TestFileCaseSensitive | lib/core/classifiers.js:12 | `test/x` is a test file and `TEST/x` is not |
| Classifiers.PublicSurfaceIgnoresCase | lib/core/classifiers.js:15-17 | a path is public surface iff its lower-case form is |
| Classifiers.SchemaAndProtoArePublicAndRisky | lib/core/classifiers.js:15-23 | paths under `schema/` or `proto/`, in any case, are both public surface and risky |
| Classifiers.RiskyIgnoresCase | lib/core/classifiers.js:19-23 | a path is risky iff its lower-case form is |
| Classifiers.RiskyWithin | lib/core/classifiers.js:19-23 | a risky path stays risky inside any longer path, since the match is an unanchored substring match |
| Classifiers.ClockIsRisky | lib/core/classifiers.js:19-23 | `src/clock.js` is risky because it contains `lock` |
| Regexes.ToRegex | lib/core/utils.js:1-9 | a string gives a case-insensitive user regex with that source iff it compiles, and nothing otherwise |
| Regexes.ToString | lib/core/patterns.js:181 | the printed pattern is `/`, the source, `/`, then the flags |
| Regexes.IgnoreCaseMatch | lib/core/patterns.js:7-52 | a built-in pattern with the `i` flag matches a path iff it matches the path's lower-case form |
| Patterns.SectionNamed | lib/core/patterns.js:102 | only the keys `banned` and `allowed` open a section |
| Patterns.Step | lib/core/patterns.js:97-130 | definition of one loop iteration, specified by `SkippedLineIgnored`, `OtherHeaderClosesSection`, `ClosedSectionIgnored`, `PatternStep`, `DashStep`, `ReasonStep` and `StepGood` |
| Patterns.Run | lib/core/patterns.js:97-130 | definition of the loop as a fold, specified by `RunConcat` and `RunGood` |
| Patterns.Parse | lib/core/patterns.js:92-132 | definition, specified by `ParseSimpleYaml` and `ParseWellFormed` |
| Patterns.ParseSimpleYaml | lib/core/patterns.js:92-132 | the line loop, with its mutable `current` and `lastEntry`, computes the fold `Parse` of the line step over the lines |
| Patterns.RunConcat | lib/core/patterns.js:97 | parsing `a + b` is parsing `b` from the state `a` leaves |
| Patterns.SkippedLineIgnored | lib/core/patterns.js:98 | inserting a blank or `#` line anywhere does not change the parse |
| Patterns.IndentedLineIsNoHeader | lib/core/patterns.js:100 | a line that starts with a space or a tab is never a header |
| Patterns.OtherHeaderClosesSection | lib/core/patterns.js:100-107 | after a header other than `banned`/`allowed`, the following non-header lines add nothing |
| Patterns.ClosedSectionIgnored | lib/core/patterns.js:107 | with no open section, non-header lines change nothing |
| Patterns.PatternStep | lib/core/patterns.js:111-117 | a `- pattern: X` line appends `{pattern: X}` to the open section and makes it the last entry |
| Patterns.DashStep | lib/core/patterns.js:119-124 | a `- X` line that is no pattern entry appends the trimmed bare string `X` when non-empty and clears the last entry |
| Patterns.ReasonOnNewEntry | lib/core/patterns.js:111-129 | a `reason:` line right after a new pattern entry fills in exactly that entry's reason |
| Patterns.ReasonStep | lib/core/patterns.js:126-129 | a `reason: Y` line sets the reason of the last pattern entry, in place, and nothing else |
| Patterns.PatternThenReason | lib/core/patterns.js:111-129 | a pattern line then a reason line append exactly one entry that carries both |
| Patterns.ReasonWithoutEntryIgnored | lib/core/patterns.js:126-129 | a reason line when `lastEntry` is null changes nothing |
| Patterns.ReasonAfterBareIgnored | lib/core/patterns.js:119-129 | a reason line right after a bare item is ignored |
| Patterns.LoneDashAddsNothing | lib/core/patterns.js:119-121 | a dash with an empty remainder appends nothing |
| Patterns.ParseWellFormed | lib/core/patterns.js:92-132 | every parsed bare item and pattern is non-empty, and every reason is non-empty |
| Patterns.NormalizeBannedEntry | lib/core/patterns.js:76-83 | an entry is kept iff its pattern compiles (a keyed entry also needs a non-empty pattern); bare entries get reason null, keyed ones their non-empty reason |
| Patterns.NormalizeBanned | lib/core/patterns.js:73-85 | a non-array gives `[]`; otherwise the output is no longer than the input |
| Patterns.NormalizeBannedConcat | lib/core/patterns.js:75-84 | normalisation distributes over concatenation, so order is preserved |
| Patterns.NormalizeBannedMembers | lib/core/patterns.js:75-84 | a rule is in the output iff some input entry normalises to it |
| Patterns.NormalizeAllowedEntry | lib/core/patterns.js:89 | an allowed entry is kept iff it is a bare string that compiles |
| Patterns.NormalizeAllowed | lib/core/patterns.js:87-90 | a non-array gives `[]`; otherwise the output is no longer than the input |
| Patterns.NormalizeAllowedConcat | lib/core/patterns.js:89 | normalisation distributes over concatenation |
| Patterns.NormalizeAllowedAllCompile | lib/core/patterns.js:87-90 | when every entry compiles, the output is the entries' regexes, in order |
| Patterns.LoadDangerousPatterns | lib/core/patterns.js:54-70 | both categories are non-empty, and an unreadable file gives exactly the defaults |
| Patterns.LoadCategoriesIndependent | lib/core/patterns.js:64-70 | each category is its normalised override when non-empty and its defaults otherwise, independently of the other |
| Patterns.AllowedOverride | lib/core/patterns.js:56-69 | a parsed allow list whose entries all compile replaces the default allow list wholesale |
| Patterns.ReasonForSensitive | lib/core/patterns.js:134-151 | the reason is a table entry or `sensitive (<pattern>)` |
| Patterns.ReasonFirstMatch | lib/core/patterns.js:135-149 | the first table row matching the lower-cased path gives the reason |
| Patterns.ReasonFallback | lib/core/patterns.js:150 | with no table match the reason is `sensitive (` + the printed pattern + `)` |
| Patterns.StatusOf | lib/core/patterns.js:180 | the status is the non-empty status-map entry, or "M" |
| Patterns.FirstBanned | lib/core/patterns.js:176 | the index of the first banned pattern matching the file |
| Patterns.Check | lib/core/patterns.js:173-185 | a finding is produced iff no allowed pattern matches and some banned pattern does; it names the file and its status |
| Patterns.CheckFirstBanned | lib/core/patterns.js:176-183 | the finding carries the first matching banned pattern, printed, and its reason or the fallback reason |
| Patterns.Scan | lib/core/patterns.js:187 | at most one finding per file |
| Patterns.ScanConcat | lib/core/patterns.js:187 | findings follow input file order |
| Patterns.ScanMembers | lib/core/patterns.js:172-188 | a finding is reported iff the check of some input file produces it |
| Patterns.ScanFindingSource | lib/core/patterns.js:172-188 | every reported finding names an input file whose check produced it |
| Patterns.ScanReports | lib/core/patterns.js:172-188 | the finding the check produces for any input file is reported |
| Patterns.AllowedNeverReported | lib/core/patterns.js:174-175 | no reported file matches an allowed pattern, and every reported file is an input file |
| Patterns.FindSensitiveFiles | lib/core/patterns.js:153-189 | the findings are `Scan` over the configuration loaded from the parsed config text |
| Patterns.CheckEach | lib/core/patterns.js:172-188 | the loop calling `check` on each file pushes exactly the findings of `Scan`, in file order |
| Patterns.ExampleFilesNeverReported | lib/core/patterns.js:51 | with the defaults, a path ending in `.example` in any case is never reported |
| Patterns.ShortPathNotAllowed | lib/core/patterns.js:51 | no default allow pattern matches a four-character path |
| Patterns.FirstDefaultRule | lib/core/patterns.js:9 | the first default rule prints as `/^\.env$/i` with reason "Dotenv file" |
| Patterns.UpperCaseDotenvReported | lib/core/patterns.js:9 | with the defaults, `.ENV` is reported by `/^\.env$/i` as "Dotenv file" |
| Analytics.DeveloperStateFromGit | lib/core/analytics.js:5-21 | `lateWeek` is at most the number of timestamps, and `fatigue` holds iff `lateWeek >= 3` |
| Analytics.LateCount | lib/core/analytics.js:8-13 | the late-night count is at most the number of timestamps; specified by `FatigueIff` |
| Analytics.FatigueIff | lib/core/analytics.js:8-15 | fatigue holds iff three distinct timestamps are late-night commits of the last week |
| Analytics.ThreeLateFound | lib/core/analytics.js:8-15 | a late count of at least 3 has three late timestamps at increasing positions |
| Analytics.ThreeLateCounted | lib/core/analytics.js:8-15 | three late timestamps make the late count at least 3 |
| Analytics.Clamp | lib/core/analytics.js:95 | the clamp lands in [0,100] and leaves in-range scores alone |
| Analytics.SafetyOf | lib/core/analytics.js:76-97 | the score is in [0,100], and `testsTouched`/`publicTouched` hold iff some file is a test / public-surface file |
| Analytics.RefactorSafety | lib/core/analytics.js:76-97 | the step-by-step loop and score adjustments compute exactly `SafetyOf` (so the score is clamped to [0,100] and the flags are the any-file tests) |
| Analytics.EmptyChangeScores90 | lib/core/analytics.js:76-97 | no files and no churn score 90 |
| Analytics.SmallChurnIsFree | lib/core/analytics.js:92-93 | churn below 500 costs nothing |
| Analytics.ChurnNeverHelps | lib/core/analytics.js:92-93 | more churn never raises the score |
| Analytics.ChurnPenalty | lib/core/analytics.js:92-93 | definition, specified by `SmallChurnIsFree`, `ChurnNeverHelps` and `PenaltyCaps` |
| Analytics.PenaltyCaps | lib/core/analytics.js:79-93 | with the caps (files 40, risky 30, public 15, tests ±10, churn 20) the unclamped score stays in [-15, 110] |
| Analytics.TestsSwingTwenty | lib/core/analytics.js:88-90 | touching a test file is worth exactly 20 points against not touching one |
| Analytics.Domains | lib/core/analytics.js:101-104 | the domain of each file under a given classification, in file order; the core and the variant pass their own `domainFromFile` |
| Analytics.DomainTally | lib/core/analytics.js:100-104 | the counter loop builds the insertion-ordered tally of the domains |
| Analytics.RiskyCount | lib/core/analytics.js:112 | the count of files that are risky |
| Analytics.BlastRadius | lib/core/analytics.js:99-119 | `affects` is the first six ranked domains; `affectsWithCounts` pairs each with its count and capitalised label; `risky` and `filesChanged` count the files |
| Analytics.RankedCounts | lib/core/analytics.js:100-105 | every ranked domain occurs among the files exactly its count times, and the counts sum to the number of files |
| Analytics.RankedDomains | lib/core/analytics.js:99-105 | definition, specified by `RankedCounts` and `BlastRanking` |
| Analytics.BlastRanking | lib/core/analytics.js:105 | the ranking is sorted by count descending, keeps first-seen order among equal counts, and its keys are the domains without duplicates |
| Analytics.BlastTopSix | lib/core/analytics.js:114-115 | a domain left out of the six has a count no larger than any shown one |
| Analytics.NonEmptyOnly | lib/core/analytics.js:35 | `.filter(Boolean)` keeps exactly the non-empty lines |
| Analytics.FailedLookupContributesNothing | lib/core/analytics.js:29-33 | a file whose author lookup fails contributes no names |
| Analytics.BusFactor | lib/core/analytics.js:43-48 | the bus factor is 1, 2 or 3, and 1 iff the top count is more than 60% of the total |
| Analytics.OwnershipOf | lib/core/analytics.js:40-56 | at most 8 contributors, bus factor in {1,2,3}, non-zero total |
| Analytics.OwnershipFingerprint | lib/core/analytics.js:23-56 | the counter loops and the ranking compute `OwnershipOf` of the names that the successful lookups return |
| Analytics.AuthorTally | lib/core/analytics.js:27-38 | the nested loops build the tally of all looked-up names |
| Analytics.BumpLines | lib/core/analytics.js:35-37 | the inner loop adds the non-empty lines of one file to the tally |
| Analytics.NoHistory | lib/core/analytics.js:41-48 | no author data gives no contributors, bus factor 3 and total 1 |
| Analytics.OwnershipCounts | lib/core/analytics.js:40-43 | the total is the number of names, and the first contributor has the largest count |
| Analytics.BusFactorOne | lib/core/analytics.js:43-45 | bus factor 1 iff some author holds more than 60% of the names |
| Analytics.BusFactorTwo | lib/core/analytics.js:44-48 | bus factor 2 iff it is not 1 and two distinct authors together hold more than 75% |
| Analytics.SoleAuthor | lib/core/analytics.js:43-45 | a single author gives bus factor 1 |
| Analytics.TwoEvenAuthors | lib/core/analytics.js:44-48 | two equal authors give bus factor 2 |
| Analytics.ThreeEvenAuthors | lib/core/analytics.js:44-48 | three equal authors give bus factor 3 |
| Analytics.LoginMap | lib/core/analytics.js:59-66 | every mapped value is `@` followed by a non-empty login |
| Analytics.MentionList | lib/core/analytics.js:70 | each contributor becomes its mention, in order |
| Analytics.ContributorMentions | lib/core/analytics.js:58-74 | the two loops compute `Mentions`, the de-duplicated mention list |
| Analytics.LoginMapLastWins | lib/core/analytics.js:64 | the last linkable commit for a lower-cased name decides its login |
| Analytics.LoginMapKeys | lib/core/analytics.js:60-66 | every key is the lower-cased name of a linkable commit |
| Analytics.MentionsSpec | lib/core/analytics.js:68-72 | mentions are duplicate-free, and a string is a mention iff it is the mention of some contributor |
| Analytics.Mentions | lib/core/analytics.js:58-74 | definition, specified by `MentionsSpec`, `UnlinkedContributorKeepsName`, `MentionIgnoresCase` and `MentionsPrefix` |
| Analytics.UnlinkedContributorKeepsName | lib/core/analytics.js:70 | a contributor that no commit links keeps its own name |
| Analytics.MentionIgnoresCase | lib/core/analytics.js:64-70 | names that agree up to case get the same mention |
| Analytics.MentionsPrefix | lib/core/analytics.js:68-72 | mentions follow contributor order: more contributors only extend the list |
| GitHub.Considered | lib/core/github.js:37-42 | at most 30 PRs, none of them the current one, all of them open PRs |
| GitHub.OverlapsOf | lib/core/github.js:42-48 | only non-zero overlaps are recorded, one at most per considered PR (completed by `OverlapsOfComplete`) |
| GitHub.OverlapsOfSnoc | lib/core/github.js:42-48 | one more PR adds its overlap when it is non-zero, and nothing otherwise |
| GitHub.OverlapsOfComplete | lib/core/github.js:42-48 | the loop succeeds iff every considered list can be read, and then a record is in the result iff it is some considered PR's number, title and non-zero shared-file count |
| GitHub.ExtendsListOf | lib/core/github.js:22-30 | a cache that only records what fetches return gives the same file lists |
| GitHub.ExtendsStep | lib/core/github.js:22-30 | after one `getFiles(n)` the cache still only extends the starting cache with fetched lists, and the list returned is the one the starting cache would give |
| GitHub.FileListCache.constructor | lib/core/github.js:3 | the cache starts empty |
| GitHub.FileListCache.GetFiles | lib/core/github.js:22-30 | a cached list is returned unchanged with no fetch; otherwise the fetched list is stored and logged once |
| GitHub.FileListCache.PrFilesAndConflicts | lib/core/github.js:21-51 | computes `ConflictsOf` from the cache it started with; the cache only gains fetched lists and the fetch log only grows; after a success the current list and every considered list are cached, and no other list is added |
| GitHub.CoverStep | lib/core/github.js:42-43 | one `getFiles` in the loop keeps the cached numbers within the current and considered PRs, and a success caches that PR |
| GitHub.ConflictsShape | lib/core/github.js:32-50 | the files are the current PR's list; at most 5 overlaps, sorted by overlap descending, each the record of a considered PR other than the current one with its non-zero count of shared files |
| GitHub.ConflictsTopFive | lib/core/github.js:42-50 | a considered PR that shares files is listed unless five overlaps at least as large fill the report |
| GitHub.FetchFailurePropagates | lib/core/github.js:42-43 | a failed fetch for any considered PR aborts the detection |
| GitHub.OneSharedFile | lib/core/github.js:44 | `{f1,f2}` against `[f2,f3]` overlaps in 1 |
| GitHub.RepeatsCountTwice | lib/core/github.js:44 | a path repeated in the other list counts twice |
| GitHub.ResolveVersion | lib/core/github.js:53-69 | a package version starting with `v` is returned as-is and any other gains a `v` prefix; without one the trimmed tag; else "v1.0.0" |
| GitHub.ResolveVersionIdempotent | lib/core/github.js:56 | resolving a resolved version again changes nothing |
| GitHub.TagOnlyWithoutPackage | lib/core/github.js:56-63 | with no package version the trimmed tag is the version; a package version not starting with `v` wins over any tag and gets a `v` prefix |
| GitHub.UpsertDecision | lib/core/github.js:71-90 | the written body is the marker, a line feed, then the report; a comment is created iff none of the first 100 carries the marker, and otherwise the first of them that does is updated |
| GitHub.FirstPage | lib/core/github.js:72-74 | the request returns the oldest 100 comments, or all of them when there are fewer |
| GitHub.FinalBodyHasMarker | lib/core/github.js:75-78 | the written body contains the marker |
| GitHub.Apply | lib/core/github.js:80-90 | an update keeps the number of comments, a create adds one |
| GitHub.BodilessUnmarked | lib/core/github.js:76 | a comment without a body is searched as the empty string and never carries the marker |
| GitHub.UpsertTwiceNeverDuplicates | lib/core/github.js:71-90 | below 100 comments, a second upsert always updates, so the report is never posted twice |
| GitHub.UpsertTwice | lib/core/github.js:71-90 | a second upsert updates iff the thread had fewer than 100 comments or the first upsert updated |
| GitHub.FullPagePostedTwice | lib/core/github.js:72-76 | over 100 comments without the marker, both upserts create a comment |
| GitHub.UpsertDecisionAllPages | lib/core/github.js:71-90 | searching the whole thread, a comment is created iff none carries the marker, and otherwise the first that does is updated |
| GitHub.AllPagesNeverDuplicates | lib/core/github.js:71-90 | searching the whole thread, a second upsert always updates |
| GitHub.ConflictsOf | lib/core/github.js:21-51 | definition, specified by `ConflictsShape`, `ConflictsTopFive` and `FetchFailurePropagates` |
| GitHub.OverlapSize | lib/core/github.js:44 | definition, specified by `OneSharedFile` and `RepeatsCountTwice` |
| Report.StatusLabel | lib/core/report.js:18-22 | the status is one of the three labels |
| Report.StatusPrecedence | lib/core/report.js:18-22 | sensitive findings win regardless of score; otherwise review iff score ≤ 50; at 50 the tier is Medium and review is recommended |
| Report.RiskTier | lib/core/report.js:70 | the tier is one of the three labels |
| Report.RiskTierSpec | lib/core/report.js:70 | Low iff ≥ 80, Medium iff in [50,80), High iff < 50, and a higher score never has a riskier tier |
| Report.BusSeverity | lib/core/report.js:58-63 | the severity is one of the three labels |
| Report.BusSeveritySpec | lib/core/report.js:58-63 | Low redundancy iff ≤ 1, Moderate coverage iff 2, Shared knowledge iff ≥ 3 |
| Report.BusSeverityOfFingerprint | lib/core/report.js:58-63 | for fingerprint values, each severity corresponds to exactly one bus factor |
| Report.NextStepsParts | lib/core/report.js:30-33 | at most two parts |
| Report.NextStepsSpec | lib/core/report.js:30-34 | the line is present iff there are findings or overlaps; the sensitive step comes first and the steps are joined by "; " |
| Report.NextSteps | lib/core/report.js:30-34 | definition, specified by `NextStepsSpec` |
| Report.ConflictsBlock | lib/core/report.js:36-42 | present iff overlaps are non-empty |
| Report.ShownReason | lib/core/report.js:50 | a non-empty reason is shown as-is, and an empty one is replaced |
| Report.EmptyReasonShownAsArtifact | lib/core/report.js:50 | a finding with an empty reason is listed with reason "sensitive artifact" |
| Report.SensitiveBlock | lib/core/report.js:44-56 | present iff findings are non-empty |
| Report.Compact | lib/core/report.js:89 | dropping absent lines never lengthens the list |
| Report.CompactSpaced | lib/core/report.js:78-83 | an optional block and its blank line leave both or neither |
| Report.ReportLayout | lib/core/report.js:65-90 | the report lines are the head rows, the optional tests row, the middle rows, then the conflicts, sensitive and next-step blocks each with a blank line, then the tail |
| Report.BuildReport | lib/core/report.js:1-93 | definition, specified by `ReportLayout` and `BlocksPresence` |
| Report.BlocksPresence | lib/core/report.js:73-83 | the conflicts block (and its blank line) is present iff there are overlaps, the sensitive block iff there are findings, the next-step line iff either is non-empty |
| Legacy.DomainFromFileCases | lib/main.js:38-47 | the variant rules decide in order `lib/`, `.github/workflows/`, `.github/`, `README.md`, else "misc" |
| Legacy.DomainFromFileSpec | lib/main.js:38-47 | "ops" iff under `lib/`; "ci" iff under `.github/workflows/`; "repo-meta" iff under `.github/` but not workflows; "docs" iff exactly `README.md`; "misc" otherwise |
| Legacy.DomainsCorrespond | lib/main.js:38-47 | up to renaming, the variant agrees with the core rules except that `lib/` gets its own domain |
| Legacy.ParseSimpleYaml | lib/main.js:119-137 | the loop computes the fold of the variant line step, and every collected item is non-empty and trimmed |
| Legacy.StepClean | lib/main.js:131-134 | one line keeps every collected item non-empty and trimmed |
| Legacy.RunClean | lib/main.js:122-135 | the whole loop keeps every collected item non-empty and trimmed |
| Legacy.ColonItemClosesSection | lib/main.js:125-130 | an item line ending in `:` is a header in the variant and closes the section |
| Legacy.IndentedColonItemAppends | lib/core/patterns.js:100-124 | the core parser records an indented `- x:` line as one more entry of the open section |
| Legacy.IndentedColonItemDiverges | lib/main.js:125-130 | the two parsers part ways on an indented `- x:` line |
| Legacy.CompileAll | lib/main.js:100-101 | only strings that compile survive, as user regexes, in a list no longer than the input |
| Legacy.CompileAllEmpty | lib/main.js:100-101 | the compiled list is empty iff no string compiles |
| Legacy.LoadDangerousPatterns | lib/main.js:68-107 | both categories are non-empty, and an unreadable file gives the variant defaults |
| Legacy.FallbackIff | lib/main.js:100-106 | a category falls back to its defaults iff none of its strings compiles |
| Legacy.Check | lib/main.js:249-256 | a finding is produced iff no allowed pattern matches and some banned pattern does |
| Legacy.CheckAgreesWithCore | lib/main.js:249-256 | the variant check is the core check without the reason |
| Legacy.Scan | lib/main.js:258 | at most one finding per file |
| Legacy.FindSensitiveFiles | lib/main.js:233-260 | the loop computes `Scan` over the loaded variant configuration |
| Legacy.UpperDotenvUnmatched | lib/main.js:70-81 | no variant default banned pattern matches `.ENV` |
| Legacy.ShortPathNotAllowed | lib/main.js:82-88 | no variant default allow pattern matches a four-character path |
| Legacy.DotenvReported | lib/main.js:71 | `.env` is reported by `/^\.env$/`, printed without a flag |
| Legacy.UpperDotenvNotReported | lib/main.js:71-72 | `.ENV` is not reported, since the `.env` rules are case-sensitive |
| Legacy.DotenvCaseDiffers | lib/main.js:71 | `.env` is reported by both, while `.ENV` is reported by the core defaults and not by the variant |
| Legacy.DomainTally | lib/main.js:305-309 | the counter loop builds the insertion-ordered tally of the variant domains |
| Legacy.BlastRadius | lib/main.js:304-313 | `affects` is the first six ranked variant domains; `risky` and `filesChanged` count the files |
| Legacy.BlastWithoutLib | lib/main.js:38-47 | without `lib/` paths the variant domains are the core domains renamed |
| Legacy.LabelsAgreeWithCore | lib/main.js:358-390 | the status is "Sensitive files detected" iff there are findings, and "Review recommended" iff there are none and the score is at most 50; the tier is Low iff the score is at least 80 and High iff below 50; these equal the core labels for as many core findings; the bus mark appears iff the core would say "Low redundancy" |
| Legacy.InlineLabels | lib/main.js:358-371 | definition, specified by `LabelsAgreeWithCore` |
| Legacy.BusMark | lib/main.js:390 | definition, specified by `LabelsAgreeWithCore` |
| Legacy.Step | lib/main.js:122-135 | definition, specified by `StepClean`, `ColonItemClosesSection` and `IndentedColonItemDiverges` |
| Legacy.Run | lib/main.js:122-135 | definition, specified by `RunClean` |
| Legacy.Parse | lib/main.js:119-137 | definition, specified by `ParseSimpleYaml` and `RunClean` |
| Text.Trim | lib/core/patterns.js:98 | `trim` leaves no white space at either end |
| Text.TrimIdempotent | lib/core/patterns.js:113 | trimming twice is trimming once |
| Text.JoinSplitOn | lib/core/report.js:37-41 | joining the parts of a split gives back the text |
| Text.NatToStringRoundTrip | lib/core/report.js:66-75 | printed numbers read back to themselves |
| Lists.SortDescSpec | lib/core/analytics.js:105 | the sort gives a sorted permutation that keeps the order of equal counts |
| Lists.TallySpec | lib/core/analytics.js:100-104 | the tally's keys are the names de-duplicated in first-seen order, and each name maps to its number of occurrences |
| Lists.DedupSpec | lib/core/analytics.js:101 | the de-duplicated list has no duplicates and the same elements as the input |
| Lists.RankedSpec | lib/core/analytics.js:99-105 | the ranking is sorted and stable, has distinct keys, and its counts add up to the number of names |

## Left out

- Process, file, network and shell plumbing is not modelled. This covers `ghFetch`, `fetch`, `sh`/`execSync`, `fs.readFileSync`, `require("../../package.json")`, the environment reads in `lib/core/env.js`, the top-level async driver of `lib/main.js`, `console` and `process.exit`. Their results are parameters.
- `nowSydneyHour` and `lib/core/time.js` use `Intl.DateTimeFormat`, a foreign library. The hour of a timestamp is a function parameter.
- `Date.now()` is a wall-clock read. `weekAgo` is a parameter.
- The `git log` output is taken as parsed integer timestamps, so `Number` coercion is not modelled.
- `diffStats` parses `git diff --numstat` text with `Number` coercion. The additions and deletions are integer inputs.
- The status map built from `git diff --name-status` lines is an input map.
- Regular expressions written by users: whether a string compiles is the parameter `compiles`, and whether one matches a path is the parameter `userMatch`. Only the built-in patterns are concrete.
- Regexes.ToString: JavaScript prints a `/` inside a user pattern's source as `\/`. The model prints the source unchanged.
- `toRegex` also takes `RegExp` and non-string values. Only the parser's strings reach it, so only strings are modelled.
- Case folding is ASCII only. Unicode case mappings are not modelled.
- `topShare` is a floating-point value and is not modelled. The bus-factor thresholds are exact integer comparisons (`5*top > 3*total`, `4*top2 > 3*total`). The constant `newContributor: null` is omitted.
- GitHub.ResolveVersion: a non-string `version` field in the package manifest is not modelled. A package version is an optional string.
- The upsert's PATCH and POST requests are not sent. Their effect on the comment list is the function `GitHub.Apply`.
- GitHub.UpsertDecision: a failed comment-list request throws before any decision is made, and a failed PATCH or POST throws after it. The model decides over the fetched thread and does not model either failure.
- Async interleaving is not modelled. Every `await` runs in program order.
- Legacy.LabelsAgreeWithCore: the rest of the variant's inline Markdown template is fixed text and is not modelled. This covers the fatigue wording, the blast-radius lines, the lower-case "edited" conflict line and the sensitive-artifact list.
- Report.ReportLayout: the blocks' inner lines are built, but only their presence and their order are proved.

## Findings

| source | as written | input that shows it | evidently intended | confidence | as-written member | corrected member |
|---|---|---|---|---|---|---|
| lib/core/github.js:72-76 | the marker is searched for only in the first page of 100 comments | a pull request with 100 comments, none of which carries the marker: each run creates another report comment | the existing report is found wherever it sits in the thread, so a later run updates it and never posts it twice | medium, not executed | GitHub.FullPagePostedTwice | GitHub.AllPagesNeverDuplicates |
