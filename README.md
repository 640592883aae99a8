# renovate-deps-cli in Dafny

A verified model of the text-processing core of `deps-cli`. This command-line
tool reads the Renovate "Dependency Dashboard" issue of each GitHub
repository it can see, extracts the pending dependency updates from the
issue body, and prints them.

The model covers:

- **The extractor** (`extractUpdateInfo`). The global scan `-->([^\n]+Update[^\n]+)` selects the lines. Five fixed-order stages then carve each line into an `UpdateInfo` record: the pull-request link, the explicit update class, the trailing package group, the versions, and the dependency name. Each JavaScript regular expression is hand-coded as a search. Its contract states the match the engine reports: the leftmost start and then, per quantifier, the greedy or lazy choice. Each choice is stated against a declarative predicate describing every string the pattern accepts. The source has three copies of the extractor. They share one definition (`Extractor.ParseLine` with an `infer` switch): the copy in `scans/` adds version-delta inference, and the copies in `listDependencies/` and `scan/` do not.
- **The version-delta classifier** (`detectUpdateType`).
- **The renderers and filters**:
  - `printUpdates` has a case-insensitive name filter, an exact class filter, two empty-result messages and a header/line/blank layout;
  - the `filter(Boolean).join(" ")` line of `listDependencies`, and the push-and-join line of `printUpdates` and `scan`, which render the same text;
  - the case-sensitive filter and the "no updates found" bookkeeping of the old `scan` command.
- **The `owner/repo` option parser** and the option handling of both `scan` commands.
- **`createRepoGroups`** as a method over a `GroupStore` class that holds the stored groups, and **`formatGroupResults`** as push loops against a declarative report.
- **`listRepositories`**: the legacy scanner, whose `while ((match = regex.exec(body)) !== null)` loop over a global regular expression is a `while` loop over the regular expression's `lastIndex`.

All output is modelled as the sequence of lines the command logs at info or error level (or with `console.log`), in order. Everything that talks to GitHub is an input:
- a list of repositories;
- a repository's dashboard, as an `Option`;
- an oracle `IssueSource` or `RepoFetch` function.

Only the copy in `scans/extractUpdateInfo.ts`, which `scans scan` uses, infers the class from the version delta when none is written (lines 176-188); the copies in `listDependencies/` and `scan/` do not. The inferring copy is `Extractor.ExtractUpdateInfo`; the others are `Extractor.ExtractWithoutInference`.

Some behaviour of the source is kept as written:

- In `detectUpdateType` the minor and patch components are compared without looking at the major. So `9.1.0 -> 8.2.0` reads as `minor` (`Classify.DowngradeReadsAsMinor`).
- `extractPackages` splits on `", "` before removing back-ticks, so an item that itself contains `", "` becomes two packages.
- `scan/scan.ts` and `scans/scan/scan.ts` print the parsed repository filter with `join(", ")` over objects, so each entry reads `[object Object]` (`CliOptions.ObjectsText`).
- `scans scan` passes `quiet` to `printUpdates`, and `printUpdates` ignores it (`ScansScan.QuietIgnored`).
- Stored groups are arrays: an existing but empty group is truthy, so it still blocks `createRepoGroups` unless `force` is set.
- `issue.user?.login` of a missing user prints as `undefined` (`ListRepositories.LoginText`).
- `chalk.yellow(a, b)` joins its arguments with a space.
- In `listDependencies` the loop `for (const issue of issues)` runs over the single dashboard that remains after the length checks. It is modelled as that one pass.
- `listRepositories` calls `body.match(regex)` before its `exec` loop. With a global expression this leaves `lastIndex` at 0, so the loop always starts at the beginning of the body.

Modules, one file each:
- `Wrappers` (`Option`, `Result`);
- `Text` (JavaScript's `\s`, `.`, `split`, `join`, `trim`);
- `UpdateModel` (`UpdateInfo`);
- `Stages` (the five extractors);
- `Classify` (`detectUpdateType`);
- `Extractor` (the pipeline and its three copies);
- `Render` (one update line);
- `PrintUpdates`;
- `CliOptions` (repository specs, boolean options);
- `Github` (the fetched data and the listing filters);
- `ScanCommand` (`scan/scan.ts`);
- `ScansScan` (`scans/scan/scan.ts`);
- `ListDependencies`;
- `ListRepositories`;
- `CreateRepoGroups`.

## Model

| member | source | states |
|---|---|---|
| UpdateModel.ParseUpdateType | src/commands/scans/scan/scan.ts:14 | a class is accepted exactly when it is `major`, `minor` or `patch`, and the parsed class has that name |
| UpdateModel.ParseName | src/commands/scans/extractUpdateInfo.ts:7 | every class parses back from its own name |
| Text.Split | src/commands/scans/extractUpdateInfo.ts:73 | `split` always yields at least one piece |
| Text.JoinSplit | src/commands/scans/extractUpdateInfo.ts:73 | joining the pieces of `split(sep)` with `sep` gives the string back |
| Text.SplitPiecesFree | src/commands/scans/extractUpdateInfo.ts:73 | no piece of `split(sep)` contains `sep` |
| Text.Trim | src/commands/scans/extractUpdateInfo.ts:74 | `trim` returns the slice left after removing leading and trailing JavaScript whitespace, and that slice neither starts nor ends with whitespace |
| Text.RemoveAll | src/commands/scans/extractUpdateInfo.ts:74 | ``replace(/`/g, "")`` leaves no back-tick and adds no character |
| Text.ToLower | src/commands/scans/printUpdates.ts:22-24 | lower-casing keeps the length and maps every character |
| Stages.FindPullLinkFrom | src/commands/scans/extractUpdateInfo.ts:13-15 | the link search finds the leftmost `[` that opens a link, with its last closing `](../pull/<digits>)`; no link starts earlier, and none is missed |
| Stages.LastPullClose | src/commands/scans/extractUpdateInfo.ts:14 | the greedy `.+` picks the largest closing position that still matches, within one line |
| Stages.ExtractPullRequest | src/commands/scans/extractUpdateInfo.ts:12-33 | no PR exactly when the text holds no link, and then the text is unchanged; otherwise the PR is a non-empty digit run of the engine's match, and the remaining text is the link text followed by what follows the link up to the line end |
| Stages.TypeTokenAt | src/commands/scans/extractUpdateInfo.ts:37 | `(major)`, `(minor)` or `(patch)` is recognised exactly where it occurs |
| Stages.LastTypeToken | src/commands/scans/extractUpdateInfo.ts:37 | the greedy prefix picks the last class token on the line after the start |
| Stages.FindTypeFrom | src/commands/scans/extractUpdateInfo.ts:37-38 | the leftmost start from which a class token can be reached, with its last token |
| Stages.ExtractUpdateType | src/commands/scans/extractUpdateInfo.ts:35-56 | no class exactly when no class token follows a non-empty prefix, and then the text is unchanged; otherwise the class is the one in the engine's match, and the token is spliced out of the text |
| Stages.ParseItemsSound | src/commands/scans/extractUpdateInfo.ts:59 | an accepted group is the back-ticked items joined by `, `, each non-empty and free of back-ticks |
| Stages.ParseItemsComplete | src/commands/scans/extractUpdateInfo.ts:59 | every such list of items is accepted, giving the items back |
| Stages.LastPackagesOpen | src/commands/scans/extractUpdateInfo.ts:59 | the greedy prefix picks the last `(` that opens a group running to the end of the text |
| Stages.CleanAll | src/commands/scans/extractUpdateInfo.ts:74 | every piece is cleaned in order: back-ticks removed, then trimmed |
| Stages.PackagesOfItems | src/commands/scans/extractUpdateInfo.ts:71-74 | when no item contains `, `, the packages are exactly the trimmed items, in order |
| Stages.ExtractPackages | src/commands/scans/extractUpdateInfo.ts:58-80 | the packages are empty exactly when the text does not end with a package group, and then the text is unchanged; otherwise the remaining text is the prefix before the engine's `(` and the packages are its cleaned `, ` pieces |
| Stages.ToChoice | src/commands/scans/extractUpdateInfo.ts:104 | `(to T)?\s*$` takes the to-part when it can, with the longest token, and otherwise fails only when nothing parses |
| Stages.RestChoice | src/commands/scans/extractUpdateInfo.ts:104 | ` ?(to T)?\s*$` tries the space first, then the to-part, in backtracking order |
| Stages.FromChoice | src/commands/scans/extractUpdateInfo.ts:104 | the from-token is the longest one after which the rest still matches |
| Stages.TailChoice | src/commands/scans/extractUpdateInfo.ts:104 | the tail parse is the first valid one in backtracking order, or none exists |
| Stages.LazyPrefix | src/commands/scans/extractUpdateInfo.ts:104 | the lazy `.+?` takes the shortest non-empty prefix whose tail parses |
| Stages.ExtractVersions | src/commands/scans/extractUpdateInfo.ts:102-124 | with no match both versions are null and the text is unchanged; otherwise the result holds the prefix and the two tokens of the engine's match |
| Stages.FromVersionToken | src/commands/scans/extractUpdateInfo.ts:104 | a from-version is a non-empty whitespace-free token that follows `from ` in the text |
| Stages.ToVersionLast | src/commands/scans/extractUpdateInfo.ts:104 | a to-version is a non-empty whitespace-free token after `to `, and only whitespace follows it |
| Stages.QualifierChoice | src/commands/scans/extractUpdateInfo.ts:84 | the qualifier is the first of `buildkite plugin `, `dependency `, `module `, or empty, that is followed by a token character |
| Stages.FindDependencyFrom | src/commands/scans/extractUpdateInfo.ts:84-85 | the match starts at the leftmost `Update ` that is followed by a token character |
| Stages.ExtractDependency | src/commands/scans/extractUpdateInfo.ts:82-100 | the name is null exactly when no `Update ` is followed by a whitespace-free token, and then the text is unchanged; otherwise the name is the whole token after the chosen qualifier, non-empty and whitespace-free, and the remaining text is empty |
| Stages.TokenRunTrim | src/commands/scans/extractUpdateInfo.ts:94 | the `trim()` applied to the name changes nothing |
| Classify.NumberValue | src/commands/scans/extractUpdateInfo.ts:128 | `Number(piece)` is a number exactly when the trimmed piece is decimal digits |
| Classify.StripV | src/commands/scans/extractUpdateInfo.ts:128 | `replace(/^v/, "")` removes one leading `v` and nothing else |
| Classify.NumberAll | src/commands/scans/extractUpdateInfo.ts:128 | every dot component is converted, in order |
| Classify.DetectUpdateType | src/commands/scans/extractUpdateInfo.ts:126-159 | a class only for two versions with three numeric components; `major` iff the major grows; `minor` iff the major does not grow and the minor does; `patch` iff neither grows and the patch does |
| Classify.UpgradeClass | src/commands/scans/extractUpdateInfo.ts:150-158 | for a real upgrade (the first differing component grows) the class is that component |
| Classify.SameVersion | src/commands/scans/extractUpdateInfo.ts:150-158 | equal versions get no class |
| Classify.TripleComponents | src/commands/scans/extractUpdateInfo.ts:127-131 | `a.b.c` and `va.b.c` split into exactly the three numbers |
| Classify.TripleParts | src/commands/scans/extractUpdateInfo.ts:127-131 | the triple `a.b.c` is numeric, with major `a`, minor `b` and patch `c` |
| Classify.EslintMajor | src/commands/scans/extractUpdateInfo.ts:176-188 | `8.57.1 -> 9.19.0` is classified `major` |
| Classify.DowngradeReadsAsMinor | src/commands/scans/extractUpdateInfo.ts:150-153 | a major downgrade with a larger minor is classified `minor` |
| Extractor.LineEnd | src/commands/scans/extractUpdateInfo.ts:164 | `[^\n]+` runs to the first newline or the end |
| Extractor.SelectLine | src/commands/scans/extractUpdateInfo.ts:164 | a physical line contributes at most one captured line |
| Extractor.LineCaptures | src/commands/scans/extractUpdateInfo.ts:164 | the scan's captures are those of the first line followed by those of the rest of the text |
| Extractor.CapturesSelected | src/commands/scans/extractUpdateInfo.ts:164 | the `matchAll` captures are exactly the per-line selections of the text split on `\n`, in order |
| Extractor.NoUpdateNotSelected | src/commands/scans/extractUpdateInfo.ts:164 | a line without `Update` contributes nothing |
| Extractor.ExplicitTypeWins | src/commands/scans/extractUpdateInfo.ts:187 | an explicit `(major\|minor\|patch)` always wins over inference |
| Extractor.InferredType | src/commands/scans/extractUpdateInfo.ts:176-188 | without inference the class is the explicit one; with it, a missing class is inferred only when both versions are truthy |
| Extractor.CopiesDifferOnlyInType | src/commands/listDependencies/listDependencies.ts:140-153 | the copies with and without inference build the same record except for the class |
| Extractor.RecordShape | src/commands/scans/extractUpdateInfo.ts:183-190 | PR numbers are digit runs; names and versions are non-empty and whitespace-free |
| Extractor.ParseAll | src/commands/scans/extractUpdateInfo.ts:164-191 | one record per captured line |
| Extractor.ParseAllAt | src/commands/scans/extractUpdateInfo.ts:183-190 | record `i` is the pipeline applied to line `i` |
| Extractor.ParseAllAppend | src/commands/scans/extractUpdateInfo.ts:164-191 | the records of two runs of lines are concatenated in order |
| Extractor.CollectRecords | src/commands/scans/extractUpdateInfo.ts:161-194 | the `matchAll`/`push` loop yields the pipeline applied to each capture, in order |
| Extractor.ExtractAll | src/commands/scans/extractUpdateInfo.ts:161-194 | one record per selected line, in body order, each the pipeline applied to its line |
| Extractor.ExtractUpdateInfo | src/commands/scans/extractUpdateInfo.ts:161-194 | the canonical copy: one record per selected line, equal to the inference-free record except for the class, where an explicit class wins and otherwise two truthy versions are classified |
| Extractor.ExtractWithoutInference | src/commands/listDependencies/listDependencies.ts:131-157 | the copy without inference, which `scan/scan.ts:168-194` repeats: one record per selected line, whose class is the explicit one |
| Render.DependencyText | src/commands/listDependencies/listDependencies.ts:269 | a null dependency renders as `null` |
| Render.Candidates | src/commands/listDependencies/listDependencies.ts:268-281 | the six-entry array literal |
| Render.Opt | src/commands/listDependencies/listDependencies.ts:282 | `filter(Boolean)` keeps at most one string per entry |
| Render.Present | src/commands/listDependencies/listDependencies.ts:282 | `filter(Boolean)` keeps at most the entries it is given |
| Render.PresentSix | src/commands/listDependencies/listDependencies.ts:282 | the kept entries are those of the six candidates, in order |
| Render.RenderLine | src/commands/scans/printUpdates.ts:74-100 | the push-and-join loop body renders exactly the `filter(Boolean).join(" ")` line |
| Render.SegmentCount | src/commands/listDependencies/listDependencies.ts:267-283 | the line has the head plus one segment per present field |
| Render.LineStartsWithHead | src/commands/listDependencies/listDependencies.ts:269 | every line starts with `  - Update <dep>` |
| Render.LineEndsWithLink | src/commands/listDependencies/listDependencies.ts:276-280 | a line with a PR ends with ` - <url>/pull/<pr>` |
| Render.Lines | src/commands/listDependencies/listDependencies.ts:267-286 | one rendered line per update |
| Render.LinesAt | src/commands/listDependencies/listDependencies.ts:267-286 | line `i` renders update `i` |
| Render.OnlyToVersion | src/commands/listDependencies/listDependencies.ts:267-283 | a record with only a name and a to-version renders as the head, then ` to <version>` |
| Render.NodeLine | src/commands/listDependencies/listDependencies.ts:267-283 | the `Node.js to v22` record renders as `  - Update Node.js to v22` |
| PrintUpdates.LowerAll | src/commands/scans/printUpdates.ts:22-24 | every filter name is lower-cased, in order |
| PrintUpdates.FilterKeep | src/commands/scans/printUpdates.ts:27-55 | filtering never adds updates |
| PrintUpdates.FilterKeepMembers | src/commands/scans/printUpdates.ts:27-55 | an update survives exactly when the predicate keeps it |
| PrintUpdates.FilterKeepSubsequence | src/commands/scans/printUpdates.ts:27 | the survivors are a subsequence of the input, in order |
| PrintUpdates.SelectSubsequence | src/commands/scans/printUpdates.ts:25-56 | the selected updates are an order-preserving subsequence |
| PrintUpdates.SelectMembers | src/commands/scans/printUpdates.ts:25-56 | an update is selected iff it passes the class check and the name check; with no filters the list is unchanged |
| PrintUpdates.TypeFilterExcludes | src/commands/scans/printUpdates.ts:28-30 | with a class filter, an update of another class or none is excluded |
| PrintUpdates.EmptyListShowsNothing | src/commands/scans/printUpdates.ts:32-54 | a present but empty name list lets nothing through |
| PrintUpdates.LowerAllMember | src/commands/scans/printUpdates.ts:22-24 | a name is in the lowered list iff it lowers some filter name |
| PrintUpdates.MatchIgnoresCase | src/commands/scans/printUpdates.ts:36-52 | the name check holds iff the truthy dependency or some package equals a filter name ignoring case |
| PrintUpdates.FilterListCaseIrrelevant | src/commands/scans/printUpdates.ts:22-24 | lowering the filter list beforehand changes nothing |
| PrintUpdates.EmptyMessage | src/commands/scans/printUpdates.ts:64-72 | a message appears exactly when nothing is shown |
| PrintUpdates.MessageChoice | src/commands/scans/printUpdates.ts:64-72 | when nothing is shown, the message is the filter one iff there were updates, else `No pending updates` |
| PrintUpdates.ReportLayout | src/commands/scans/printUpdates.ts:58-103 | the header `owner/name - url`, the message when nothing is shown, one rendered line per shown update in order, then a blank line |
| PrintUpdates.Print | src/commands/scans/printUpdates.ts:58-103 | the logging loop produces exactly that report |
| CliOptions.ParseSound | src/commands/scans/scan/scan.ts:20-31 | an accepted spec is two non-empty, slash-free parts around its one `/` |
| CliOptions.ParseComplete | src/commands/scans/scan/scan.ts:20-31 | every such spec is accepted, giving its parts back |
| CliOptions.KeptSpecs | src/commands/scan/scan.ts:19-30 | the kept references are at most as many as the specs |
| CliOptions.KeptSpecsAppend | src/commands/scan/scan.ts:19-30 | the filter keeps order: specs appended give references appended |
| CliOptions.KeptSpecsMembers | src/commands/scan/scan.ts:19-30 | a reference is kept iff some spec parses to it |
| CliOptions.ReposToFilterBy | src/commands/scan/scan.ts:19-30 | the filter list is undefined exactly when no repos were given |
| CliOptions.ObjectsText | src/commands/scan/scan.ts:238 | an empty list of parsed references prints as the empty string |
| CliOptions.ObjectsTextJoin | src/commands/scan/scan.ts:238 | the printed filter is `join(", ")` over one `[object Object]` per reference, whatever the references hold |
| CliOptions.CaughtFlag | src/commands/scans/scan/scan.ts:15-16 | a flag is on only when given as the boolean `true`; missing or non-boolean reads as false |
| Github.ScannedBody | src/commands/scans/scan/scan.ts:121-135 | a repository is handed on iff it has a dashboard with a truthy body, and then that body is handed on |
| Github.Filter | src/commands/listDependencies/listDependencies.ts:184-197 | filtering never adds elements |
| Github.FilterMembers | src/commands/listDependencies/listDependencies.ts:184-197 | an element survives exactly when the predicate keeps it |
| Github.ListingFilters | src/commands/listDependencies/listDependencies.ts:184-222 | a repository is walked iff it is not archived and, when the organisation is truthy, owned by it; an issue is a dashboard iff it is not a pull request and its title contains `Dependency Dashboard` |
| ScanCommand.NotFoundLines | src/commands/scan/scan.ts:226-260 | the empty-list report: the intro line, then owner, repository filter (one `[object Object]` per reference), dependency filter and author, each `N/A` when missing or falsy, then a blank line |
| ScanCommand.GetOptions | src/commands/scan/scan.ts:8-43 | owner and author fall back to the stored defaults only when not given; the filter lists and the flag as described |
| ScanCommand.FilterListed | src/commands/scan/scan.ts:303-321 | filtering never adds updates |
| ScanCommand.FilterListedMembers | src/commands/scan/scan.ts:303-321 | an update survives iff its truthy dependency or one of its packages is in the list, compared exactly |
| ScanCommand.FilterByNameMembers | src/commands/scan/scan.ts:303-321 | without a list nothing is filtered; a present but empty list filters out everything |
| ScanCommand.Section | src/commands/scan/scan.ts:323-370 | a repository logs info lines iff it shows an update: its header, one line per shown update, and a blank line |
| ScanCommand.Logged | src/commands/scan/scan.ts:197-371 | the logged lines always end with a blank line |
| ScanCommand.AnyShownSnoc | src/commands/scan/scan.ts:340-341 | `hasUpdates` after one more repository is the old flag or that repository showing an update |
| ScanCommand.LoggedEmpty | src/commands/scan/scan.ts:266-371 | the loop logs only the opening blank line iff no repository showed an update |
| ScanCommand.FinalLineIff | src/commands/scan/scan.ts:373-375 | for a non-empty repository list, the output ends with `Scanned N repositories. No updates found.` iff the loop logged nothing beyond the blank line |
| ScanCommand.LoggedSnoc | src/commands/scan/scan.ts:268-371 | one more pass appends that repository's section and updates the flag |
| ScanCommand.ReportRepo | src/commands/scan/scan.ts:283-370 | one pass of the loop logs that repository's section and raises `hasUpdates` iff it showed an update |
| ScanCommand.ScanWith | src/commands/scan/scan.ts:196-376 | the command logs the blank line, then either the not-found message or each section followed by the final line when nothing was shown |
| ScanCommand.Scan | src/commands/scan/scan.ts:196-376 | the same with the inference-free extractor copy |
| ScansScan.NotFoundLines | src/commands/scans/scan/scan.ts:69-98 | the empty-list report: the intro line, then owner, repository filter (one `[object Object]` per reference) and dependency filter, each `N/A` when missing or falsy, then a blank line |
| ScansScan.GetOptions | src/commands/scans/scan/scan.ts:8-41 | fails iff an update class outside the enum is given; otherwise owner and dependencies pass through unchanged, the class is parsed, the flags are on only for `true`, and the repository filter keeps the valid specs |
| ScansScan.Logged | src/commands/scans/scan/scan.ts:44-151 | the output opens with the blank line |
| ScansScan.LoggedOnlyBlank | src/commands/scans/scan/scan.ts:107-151 | the loop logs nothing beyond the blank line iff every repository is skipped |
| ScansScan.RepoHeader | src/commands/scans/scan/scan.ts:137-150 | a repository that is not skipped logs its `owner/name - url` header first |
| ScansScan.QuietIgnored | src/commands/scans/scan/scan.ts:144 | the `quiet` option does not change the output |
| ScansScan.LoggedSnoc | src/commands/scans/scan/scan.ts:107-151 | one more pass appends that repository's lines |
| ScansScan.ScanWith | src/commands/scans/scan/scan.ts:43-152 | the blank line, then the not-found message or, per repository not skipped, the `printUpdates` report of its extracted updates with the filters unchanged |
| ScansScan.Scan | src/commands/scans/scan/scan.ts:43-152 | the same with the canonical extractor |
| ListDependencies.OrStored | src/commands/listDependencies/listDependencies.ts:175-178 | `??`: a given value, even empty, wins; only a missing one falls back |
| ListDependencies.RepoInfoLines | src/commands/listDependencies/listDependencies.ts:226-286 | a repository logs info lines iff it has exactly one dashboard with a body: the blank line and header, then `No updates found` or one rendered line per record, in order |
| ListDependencies.EmptyOrgFiltersNothing | src/commands/listDependencies/listDependencies.ts:175-197 | an organisation given as the empty string keeps every unarchived repository |
| ListDependencies.InfoLinesSnoc | src/commands/listDependencies/listDependencies.ts:208-288 | one more repository appends its info lines |
| ListDependencies.ReportRepository | src/commands/listDependencies/listDependencies.ts:226-287 | one pass of the loop logs exactly that repository's info lines |
| ListDependencies.ListWith | src/commands/listDependencies/listDependencies.ts:163-289 | the command logs the info lines of every accessible repository, in order |
| ListDependencies.ListDependencies | src/commands/listDependencies/listDependencies.ts:163-289 | the same with this file's extractor copy |
| ListRepositories.LinkEnd | src/commands/listRepositories/listRepositories.ts:6 | a link suffix found ends after at least one digit, inside the text |
| ListRepositories.LinkEndIff | src/commands/listRepositories/listRepositories.ts:6 | the link suffix found is the only one that matches there |
| ListRepositories.GroupEnds | src/commands/listRepositories/listRepositories.ts:6 | the three groups are found in order behind their literal words |
| ListRepositories.RunFollowedBy | src/commands/listRepositories/listRepositories.ts:6 | a run stopped by a character outside it ends there |
| ListRepositories.GroupEndsSound | src/commands/listRepositories/listRepositories.ts:6 | the groups fit the pattern, the to-token stops at whitespace or `]`, and no other split fits except a shorter to-token |
| ListRepositories.GroupEndsComplete | src/commands/listRepositories/listRepositories.ts:6 | whenever the pattern fits at a position, the groups are found |
| ListRepositories.SingleMatchAt | src/commands/listRepositories/listRepositories.ts:6 | a match at a position starts there and is non-empty |
| ListRepositories.Assemble | src/commands/listRepositories/listRepositories.ts:6 | a match is built exactly when the groups were found |
| ListRepositories.AssembleSound | src/commands/listRepositories/listRepositories.ts:6 | the captures are the slices of `Update dependency <n> from <a> to <b>`; a PR is captured iff `](../pull/<digits>)` follows at once, and otherwise the match ends after the to-token |
| ListRepositories.MatchedText | src/commands/listRepositories/listRepositories.ts:6 | the matched text is the literal words around the three captures |
| ListRepositories.SingleMatchComplete | src/commands/listRepositories/listRepositories.ts:6 | the pattern matches wherever it fits |
| ListRepositories.FindFrom | src/commands/listRepositories/listRepositories.ts:91 | `exec` from `lastIndex` returns the match at the first position from there where one exists |
| ListRepositories.MatchesOrderedAndLeftmost | src/commands/listRepositories/listRepositories.ts:89-104 | the loop's matches are in order and do not overlap, and nothing matches in the positions skipped before each one or after the last |
| ListRepositories.MatcherAnchored | src/commands/listRepositories/listRepositories.ts:6 | every match lies inside the body and starts where it is found |
| ListRepositories.MatchLines | src/commands/listRepositories/listRepositories.ts:95-103 | one line per match |
| ListRepositories.MatchLinesAt | src/commands/listRepositories/listRepositories.ts:95-103 | line `t` renders match `t` |
| ListRepositories.LineWithoutLink | src/commands/listRepositories/listRepositories.ts:97-101 | without a PR number the line ends with ` - ` |
| ListRepositories.MatchesStep | src/commands/listRepositories/listRepositories.ts:91 | each `exec` resumes at the end of the previous match |
| ListRepositories.ExecLoop | src/commands/listRepositories/listRepositories.ts:89-104 | the `exec` loop prints one line per match, in order |
| ListRepositories.PrintMatches | src/commands/listRepositories/listRepositories.ts:89-104 | the same for a body |
| ListRepositories.RepoBlockLines | src/commands/listRepositories/listRepositories.ts:47-105 | each repository prints its name first, then one warning line when it has no dashboard, several dashboards or an empty body, otherwise one line per match |
| ListRepositories.PrintedSnoc | src/commands/listRepositories/listRepositories.ts:47-106 | one more repository appends its block |
| ListRepositories.PrintedLength | src/commands/listRepositories/listRepositories.ts:37-106 | the header comes first, then at least one line per repository |
| ListRepositories.PrintRepo | src/commands/listRepositories/listRepositories.ts:47-105 | one pass of the loop prints exactly that repository's block |
| ListRepositories.ListRepositories | src/commands/listRepositories/listRepositories.ts:14-107 | the blank line, the count line, the blank line, then every accessible repository's block in order |
| CreateRepoGroups.CollectPartition | src/commands/repoGroups/createRepoGroups.ts:64-97 | every spec ends up in exactly one place: stored or recorded as an error |
| CreateRepoGroups.CollectErrors | src/commands/repoGroups/createRepoGroups.ts:69-90 | each error names one of the specs; `Invalid repository name` iff it is not `owner/repo`; `Repository data not found` iff it is valid and its fetch failed; every invalid spec is recorded, with its suggestion |
| CreateRepoGroups.CollectReposAreFetched | src/commands/repoGroups/createRepoGroups.ts:81-99 | the stored group is exactly the fetched repositories of the valid specs, in input order |
| CreateRepoGroups.InvalidNeverFetched | src/commands/repoGroups/createRepoGroups.ts:70-81 | the outcome depends on the fetch only at valid specs |
| CreateRepoGroups.CollectAll | src/commands/repoGroups/createRepoGroups.ts:64-97 | the loop collects that outcome and fetches exactly the valid specs, in order |
| CreateRepoGroups.RepoEntries | src/commands/repoGroups/createRepoGroups.ts:134-136 | one `  - owner/name` line per repository |
| CreateRepoGroups.RepoEntriesAt | src/commands/repoGroups/createRepoGroups.ts:134-136 | line `k` names repository `k` |
| CreateRepoGroups.ErrorLines | src/commands/repoGroups/createRepoGroups.ts:149-157 | an error gives three lines when it has a suggestion, otherwise two |
| CreateRepoGroups.ErrorEntriesLength | src/commands/repoGroups/createRepoGroups.ts:149-157 | two lines per error plus one per suggestion |
| CreateRepoGroups.SectionsShape | src/commands/repoGroups/createRepoGroups.ts:120-160 | the header comes first; the added section is there iff repositories were stored; the skipped section is there iff there were errors, and it comes last |
| CreateRepoGroups.ResultsStartWithHeader | src/commands/repoGroups/createRepoGroups.ts:120-124 | the text starts with `Created repository group "<name>"`, and is only that with nothing stored or skipped |
| CreateRepoGroups.FormatGroupResults | src/commands/repoGroups/createRepoGroups.ts:111-163 | the push loops produce the sections joined by a blank line |
| CreateRepoGroups.ExistsReportLayout | src/commands/repoGroups/createRepoGroups.ts:37-60 | the exists report: the message, `Group content:`, one `  - owner/name` line per stored repository in order, then a blank line, the two tips and a closing blank line |
| CreateRepoGroups.ReportExisting | src/commands/repoGroups/createRepoGroups.ts:37-60 | the logging loop of the exists branch produces exactly that report |
| CreateRepoGroups.CreateRepoGroups | src/commands/repoGroups/createRepoGroups.ts:16-109 | for an existing group without `force`: the stored groups are unchanged, and the output is the exists message, the group's content and the tips; otherwise the collected repositories are stored under the name, even when there are none, and the report is logged |

## Left out

- GitHub access through Octokit is not part of this model. This covers `paginate`, `repos.listForAuthenticatedUser`, `issues.listForRepo`, `repos.get` and the dashboard lookup in `src/services/octokit.ts`. Repository lists and dashboards are inputs; issue listing and repository fetch are the oracle functions `Github.IssueSource` and `CreateRepoGroups.RepoFetch`.
- The `Conf`-backed configuration (`src/utils/config.ts`, `src/config.ts`) is not part of this model. Stored defaults are parameters, and the stored repository groups are the `groups` map of `CreateRepoGroups.GroupStore`. Two consequences of that code are not modelled:
  - `listRepositories.ts:15` and `listDependencies.ts:175` read `userConfig.defaultOrg`, which neither configuration file defines. That read throws a `TypeError`: always in `listRepositories`, which then prints nothing, and in `listDependencies` when no organisation is given. The model takes the stored organisation as an `Option` instead.
  - `defaultRenovateGithubAuthor.get()` parses with `z.string()` (`src/utils/config.ts:23-27`), so it throws when no author is stored. `ScanCommand.GetOptions`, `ListDependencies.Output` and `ListRepositories.Printed` take the stored author as an `Option` and go on.
- Debug-level log lines, the logger's verbosity switch, spinners and `console.log` versus logger levels: the output is only the ordered list of non-debug lines. So the `verbose` options change nothing in the model.
- `chalk` colouring is the identity. The platform-dependent `symbols.success` and `symbols.warning` are parameters.
- async and Promise sequencing: the commands are sequential.
- zod parse exceptions: inputs are already typed, except that `.catch(() => false)` is modelled by `CliOptions.RawFlag`, and the `updateType` enum of `scans scan` is a `Failure` result.
- Classify.NumberValue: `Number()` is modelled only for trimmed decimal digits, with the empty string as 0. Hex, exponent, signed, `Infinity` and other numeric forms are read as `NaN` instead of as numbers.
- Classify.NumberValue: a digit run is read as its exact natural number, while `Number()` gives an IEEE double. Runs above 2^53 are rounded, and runs above the largest double become `Infinity`. Arbitrary-precision comparison is used because Dafny has no double type here.
- Classify.DetectUpdateType: through `NumberValue` it compares exact component values. So from `9007199254740992.0.0` to `9007199254740993.0.0` the model gives `major`, where the source compares two equal doubles and gives `null`.
- Text.ToLower: `toLowerCase` and `toLocaleLowerCase` are modelled on ASCII letters only, because Dafny has no Unicode case tables.
- Strings are sequences of Unicode characters rather than UTF-16 units; no pattern here distinguishes the two.
- The concrete expectations of `listDependencies.test.ts` are not proved as literal cases. The general properties those tests instantiate are proved instead:
  - `Extractor.ExtractAll` and `Extractor.NoUpdateNotSelected`: one record per selected line, in order, and none for lines without `Update`;
  - `Stages.ExtractPullRequest`: link unwrapping;
  - `Stages.ExtractPackages`: package groups, in order;
  - `Stages.ToVersionLast`: a to-version is the last token;
  - `Stages.FromVersionToken`: any whitespace-free token is accepted as a version;
  - `Extractor.ExtractWithoutInference`: no inference in that copy.
  Two concrete cases are proved: `Classify.EslintMajor` and `Render.NodeLine`.
- `monorepoRegex` (`listRepositories.ts:7-8`) is declared but never used, so there is nothing to model.
- `scanGroup.ts`, `listRepos.ts`, `listRepoGroups.ts`, `deleteRepoGroup.ts`, `cleanup.ts`, `init.ts`, `index.ts` and the exit-prompt wrapper are not part of this model. They are command wiring and print/config wrappers.
