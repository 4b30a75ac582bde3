# Tech radar content model in Dafny

A technology radar keeps one Markdown file per *blip* (a technology or
practice). The file's YAML front matter records the blip's quadrant, its
current ring (Adopt, Trial, Assess, Hold), a movement status (New, Moved In,
Moved Out, No Change) and an ordered history of ring assignments. Command-line
tools create blips, record reviews, import history from CSV, validate the
files, and generate the site.

This project models the content engine behind those tools:

- `Schemas` (src/schemas.ts): the schemas, as validators that collect every
  violation. They cover history entries, front matter and the radar
  configuration. The module also holds the fixed ring and status tables and
  the case-insensitive quadrant lookup.
- `Consistency` (src/schemas.ts): the history consistency check, as a loop
  proved equal to a declarative definition. Check H1: the last entry's ring is the
  current ring. Check H2: dates do not go backwards.
- `Generate` (tools/generate.ts): the projection of blips to visualisation
  points and the extraction of recent changes. The extraction is a nested
  loop followed by a stable sort, newest first. The module also holds the
  three lists of the changelog page.
- `UpdateStatus` (tools/update-status.ts): the review transition. It covers
  status detection, name normalisation for lookup, and the edit that appends
  one history entry.
- `ImportHistory` (tools/import-history.ts): the CSV import. Rows are grouped
  by name, validated, deduplicated by date against the file, then merged and
  stably sorted.
- `NewBlip` (tools/new-blip.ts): the front matter of a new blip and the
  parsing of comma-separated tag and owner lists.

Support modules:

- `Common`: Option and Result, filtering, and ASCII text functions (case,
  trim, split, join).
- `Dates`: `YYYY-MM-DD` strings as the number YYYYMMDD. The mapping is a
  bijection, so comparing dates as strings and as numbers agree.
- `Sorting`: the stable sort the tools get from `Array.prototype.sort`,
  with sortedness, permutation and stability proved.

The file system is a parameter. It is a sequence with one slot per blip
file, and `None` marks a file whose front matter fails validation. The
following are parameters too:

- the current day;
- the cutoff of the change window;
- URL validity (`isUrl`).

## Model

| member | source | states |
|---|---|---|
| Schemas.ParseRing | src/schemas.ts:4 | a string is accepted exactly when it is one of the four ring names, and is mapped to that ring |
| Schemas.ParseStatus | src/schemas.ts:8-13 | a string is accepted exactly when it is one of the four status names, and is mapped to that status |
| Schemas.ParseQuadrant | src/schemas.ts:17-22 | a string is accepted exactly when it is one of the four quadrant names, and is mapped to that quadrant |
| Schemas.EnumNamesRoundTrip | src/schemas.ts:4-22 | parsing a ring, status or quadrant name gives the value back |
| Schemas.RingToIndex | src/schemas.ts:122-130 | the ring index lies in 0..3 |
| Schemas.RingAt | src/schemas.ts:122-130 | every index 0..3 is the index of some ring (the inverse table) |
| Schemas.RingToIndexBijective | src/schemas.ts:122-130 | ring indices are injective, are inverted by RingAt, and order Adopt < Trial < Assess < Hold |
| Schemas.StatusToMovedFlag | src/schemas.ts:133-141 | the moved flag lies in -1..2, the range the visualisation schema allows |
| Schemas.StatusToMovedFlagMeaning | src/schemas.ts:97 | the flag is 2 exactly for New, 1 for Moved In, -1 for Moved Out and 0 for No Change, as the visualisation schema reads it |
| Schemas.StatusToMovedFlagInjective | src/schemas.ts:133-141 | distinct statuses get distinct moved flags |
| Schemas.FindIgnoringCase | src/schemas.ts:145-147 | the result is the first position whose name equals the target ignoring case; None means no position matches |
| Schemas.QuadrantToIndex | src/schemas.ts:144-151 | Ok gives the first quadrant that matches ignoring case, with an index below the list length; the error "Unknown quadrant: X" is returned exactly when nothing matches |
| Schemas.PrField | tools/update-status.ts:156 | empty input gives no `pr` field; input with a leading `#` is kept as is; otherwise one `#` is prepended |
| Schemas.PrFieldIsPrRef | tools/update-status.ts:134-156 | every input matching `^#?\d+$` becomes a reference matching `^#\d+$` |
| Schemas.HistoryEntryIssuesEmpty | src/schemas.ts:33-38 | an entry has no issues exactly when its date, ring, note and PR are well formed |
| Schemas.ParseHistoryEntry | src/schemas.ts:33-38 | parsing succeeds exactly when the entry is well formed and then carries the values read; otherwise it fails with a non-empty issue list at the date, ring, note or pr paths |
| Schemas.LinksIssuesFrom | src/schemas.ts:26-29 | a list of links has no issues exactly when every link has a title and a valid URL |
| Schemas.HistoryIssuesFrom | src/schemas.ts:64 | a list of history entries has no issues exactly when every entry is well formed |
| Schemas.BlipIssues | src/schemas.ts:42-65 | front matter has no issues exactly when it is well formed |
| Schemas.ParseBlipFrontMatter | src/schemas.ts:42-65 | parsing succeeds exactly when the front matter is well formed; required fields are carried over; tags, owners, links and history default to empty lists; failure has a non-empty issue list |
| Schemas.ParseBlipFrontMatterDecodes | src/schemas.ts:42-65 | a successful parse keeps tags and owners as given, parses since and last_reviewed from their strings, keeps each link's title and URL, and holds each history entry as HistoryEntrySchema parses it, position by position |
| Schemas.FrontMatterRoundTrip | src/schemas.ts:42-65 | writing typed front matter out and parsing it again succeeds exactly when the record is well formed, and then gives the same record back |
| Schemas.ColorIssuesFrom | src/schemas.ts:83 | colours have no issues exactly when every colour is `#` followed by six hex digits |
| Schemas.ConfigIssues | src/schemas.ts:77-88 | a configuration has no issues exactly when it is well formed |
| Schemas.ParseRadarConfig | src/schemas.ts:77-88 | parsing succeeds exactly when the configuration is well formed; a result has 4 quadrants, 4 rings, hex colours and positive windows; title, repo URL, colours, description and organisation name are the input's values; base path defaults to "/" and both windows to 90 |
| Schemas.FieldIssues | src/schemas.ts:44-49 | the six scalar keys of the front matter have no issues exactly when the name is present and non-empty, quadrant, ring and status are valid names, and since and last_reviewed are absent or dates |
| Schemas.CheckedIssuesAt | src/schemas.ts:34-37 | a checked key reports an issue at its own path, and only there, exactly when it is missing while required or present but invalid |
| Schemas.NonEmptyIssuesAt | src/schemas.ts:36 | a required non-empty string reports an issue at its own key exactly when it is missing or empty |
| Schemas.UnderAt | src/schemas.ts:61-64 | an issue list re-rooted under a prefix is reported at a path exactly when the path starts with the prefix and the rest is reported by the inner list |
| Schemas.HistoryEntryIssuesAt | src/schemas.ts:33-38 | an entry reports an issue at date, ring, note or pr exactly when that field is violated, and at no other path |
| Schemas.LinkIssuesAt | src/schemas.ts:26-29 | a link reports an issue at title exactly when the title is missing or empty, at url exactly when the URL is missing or invalid, and nowhere else |
| Schemas.LinksIssuesAt | src/schemas.ts:61 | every issue of link j is reported under `links`, j, and each reported issue belongs to some link at or after the start index |
| Schemas.HistoryIssuesAt | src/schemas.ts:64 | every issue of history entry j is reported under `history`, j, and each reported issue belongs to some entry at or after the start index |
| Schemas.BlipIssuesAt | src/schemas.ts:42-65 | front matter reports an issue at each violated top-level key, under links and history for each bad link or entry, and nowhere else |
| Schemas.FieldIssuesAt | src/schemas.ts:44-49 | each violated scalar key of the front matter is reported at that key, and only such keys are |
| Schemas.ColorIssuesAt | src/schemas.ts:83 | a colour is reported under colors and its own name exactly when its value is not a hex colour |
| Schemas.LengthIssuesAt | src/schemas.ts:81-82 | quadrants or rings report an issue at their key exactly when missing or not of length 4 |
| Schemas.PositiveIssuesAt | src/schemas.ts:86-87 | a window reports an issue at its key exactly when it is present and not a positive integer |
| Schemas.ConfigIssuesAt | src/schemas.ts:77-88 | a configuration reports an issue at each violated key, under colors for each bad colour, and nowhere else |
| Schemas.ReportedAtIff | src/schemas.ts:33-88 | a list reports an issue at a path exactly when one of its issues carries that path |
| Schemas.IndexedIssuesAt | src/schemas.ts:61-64 | in an array of nested records, entry j's issues appear under the array key and j, and every issue of the array belongs to some entry at or after the start |
| Schemas.LinksIssuesIndexed | src/schemas.ts:61 | the issues of the links are the indexed issues of the individual links |
| Schemas.HistoryIssuesIndexed | src/schemas.ts:64 | the issues of the history are the indexed issues of the individual entries |
| Schemas.HistoryViolatedAt | src/schemas.ts:64 | the history reports an issue under `history`, j exactly where entry j is violated |
| Schemas.BlipIssuesReportedAt | src/schemas.ts:42-65 | front matter has an issue at exactly the paths where it is violated: each bad top-level key, `links`, j then a bad field of link j, and `history`, j then a bad field of entry j |
| Schemas.ConfigIssuesReportedAt | src/schemas.ts:77-88 | a configuration has an issue at exactly the paths where it is violated, including `colors` and the name of each bad colour |
| Schemas.ParseHistoryEntryReportsAt | src/schemas.ts:33-38 | a failed entry parse reports an issue at each of date, ring, note and pr that is violated, and at no other path |
| Schemas.ParseBlipFrontMatterReportsAt | src/schemas.ts:42-65 | a failed front-matter parse reports an issue at every path where the front matter is violated, nested ones included, and at no other path |
| Schemas.ParseRadarConfigReportsAt | src/schemas.ts:77-88 | a failed configuration parse reports an issue at every path where the configuration is violated, and at no other path |
| Consistency.ValidateHistoryConsistency | src/schemas.ts:155-187 | the warnings are HistoryWarnings: H1's mismatch, then one per descending pair; valid holds exactly when there are none, which is exactly when the history is empty or both hold: the last ring is the current ring and the dates never decrease |
| Consistency.PairWarningsEmpty | src/schemas.ts:172-180 | there are no order warnings exactly when every adjacent pair is non-decreasing in date |
| Consistency.NoOrderWarningsIffChronological | src/schemas.ts:172-180 | there are no order warnings exactly when the history is sorted by date |
| Consistency.OrderWarningsCount | src/schemas.ts:172-180 | the number of order warnings equals the number of adjacent pairs whose later date is strictly earlier |
| Consistency.OrderWarningsMembers | src/schemas.ts:172-180 | a warning is reported exactly when it names such a descending pair |
| Consistency.RingMismatchExact | src/schemas.ts:161-169 | the H1 check yields exactly one warning when the last history ring differs from the current ring, naming both rings, and none otherwise |
| Generate.ZalandoProjection | tools/generate.ts:78-88 | the projection succeeds exactly when every quadrant is found; then entry k carries blip k's name, quadrant index, ring index and moved flag; a failure reports the first unknown quadrant |
| Generate.BlipsToZalandoEntries | tools/generate.ts:78-88 | a successful projection has one entry per blip |
| Common.MapAllSpec | tools/generate.ts:82-87 | a mapping whose callback may throw succeeds exactly when every call does, keeps order, and otherwise fails with the first call's error |
| Generate.ZalandoEntriesInRange | src/schemas.ts:93-98 | with a valid configuration every projected entry satisfies the visualisation schema's ranges |
| Generate.EntryChangeRecords | tools/generate.ts:104-113 | a change records entry i exactly when it copies name, quadrant, date, ring, note, PR and slug; fromRing is absent for i = 0 and is the previous entry's ring otherwise |
| Generate.ExtractRecentChanges | tools/generate.ts:91-122 | the result is the collected changes stably sorted newest first; every date is strictly after the cutoff; dates never increase; the count equals the number of history entries after the cutoff |
| Generate.BlipChangesDates | tools/generate.ts:103 | every change collected for a blip is dated strictly after the cutoff |
| Generate.CollectedDates | tools/generate.ts:98-116 | every collected change is dated strictly after the cutoff |
| Generate.BlipChangesCount | tools/generate.ts:99-115 | a blip contributes one change per history entry after the cutoff |
| Generate.CollectedCount | tools/generate.ts:98-116 | the number of collected changes is the number of entries after the cutoff over all blips |
| Generate.BlipChangesMembers | tools/generate.ts:99-115 | a change is collected for a blip exactly when it records one of its entries dated after the cutoff |
| Generate.CollectedMembers | tools/generate.ts:98-116 | a change is collected exactly when it records an entry of some blip dated after the cutoff |
| Generate.RecentChangesMembers | tools/generate.ts:119 | the sorted list is a permutation of the collected changes and holds exactly the changes of recent entries |
| Generate.RecentChangesStable | tools/generate.ts:119 | changes with equal dates keep their collection order |
| Generate.ChangelogListsPartition | tools/generate.ts:213-215 | a change is in exactly one of the new, moved-in and moved-out lists; a change whose ring did not change is in none |
| Generate.ChangelogListsCount | tools/generate.ts:213-215 | the three lists and the same-ring changes together account for every change exactly once |
| Generate.KubernetesExample | tools/generate.ts:91-122 | an Assess-then-Trial history with a cutoff between the two dates yields only the Trial change, which is in the moved-in list |
| UpdateStatus.DetectStatus | tools/update-status.ts:57-64 | No Change exactly when the rings are equal; Moved In exactly when the new index is smaller; Moved Out exactly when it is larger; never New |
| UpdateStatus.ChangelogAgreesWithDetectStatus | tools/generate.ts:214-215 | the changelog's moved-in, moved-out and same-ring tests agree with the status a review would set |
| UpdateStatus.NormalizeName | tools/update-status.ts:31 | normalised names use only `[a-z0-9]` and `-`, and never two dashes in a row |
| UpdateStatus.NormalizeNameKeepsAlnum | tools/update-status.ts:31 | the letters and digits of the normalised name are exactly those of the lower-cased name, in order |
| UpdateStatus.NormalizeNameSplitsAtRun | tools/update-status.ts:31 | a maximal run of other characters after a letter or digit becomes exactly one dash |
| UpdateStatus.NormalizeNameFixed | tools/update-status.ts:31 | a name of lower-case letters and digits only is its own normalised form |
| UpdateStatus.NormalizeNameExample | tools/update-status.ts:31 | "A b!" normalises to "a-b-" |
| UpdateStatus.CollapseRuns | tools/update-status.ts:40-42 | the output uses only `[a-z0-9]` and `-`, with no two dashes in a row |
| UpdateStatus.CollapseRunsAppend | tools/update-status.ts:40-42 | the replacement works piece by piece: a concatenation collapses to the collapse of its parts, the second continuing any open run |
| UpdateStatus.CollapseSeparatorRun | tools/update-status.ts:40-42 | a run of characters outside `[a-z0-9]` becomes exactly one dash, or nothing when it continues a run already replaced |
| UpdateStatus.CollapseRunsKeepsAlnum | tools/update-status.ts:40-42 | every character of `[a-z0-9]` is kept, in order |
| UpdateStatus.NormalizeNameIdempotent | tools/update-status.ts:31-44 | normalising twice is normalising once, so searching with a normalised name finds the blip |
| UpdateStatus.FindBlipFile | tools/update-status.ts:28-54 | returns the first file that parses and whose normalised name equals the normalised search; None exactly when there is no such file |
| UpdateStatus.ReviewNote | tools/update-status.ts:155 | the note starts with the reason; it differs from the reason exactly when a reviewer is given, and then ends with " (reviewed by X)" |
| UpdateStatus.UpdatedFrontMatter | tools/update-status.ts:145-159 | exactly one entry (today, new ring, note, PR) is appended and earlier entries are unchanged; ring, status and last_reviewed are set; nothing else changes |
| UpdateStatus.UpdateSatisfiesRingCheck | tools/update-status.ts:147-154 | after a review the last history ring is the current ring, so H1 reports nothing |
| UpdateStatus.UpdateKeepsHistoryConsistent | tools/update-status.ts:150-158 | a review dated no earlier than every entry of a chronological history leaves no warnings at all |
| UpdateStatus.UpdateRoundTrips | tools/update-status.ts:124-159 | with a non-empty reason and an accepted PR, the updated front matter is written and parsed back unchanged |
| ImportHistory.NamesInOrderSpec | tools/import-history.ts:84-90 | group keys are distinct, include every row's name, and name only names that occur |
| ImportHistory.RowsNamed | tools/import-history.ts:89 | a group holds only rows of its name |
| ImportHistory.GroupByName | tools/import-history.ts:84-90 | the loop produces the keys in first-appearance order, and for each key the rows of that name in input order |
| ImportHistory.RowInOwnGroup | tools/import-history.ts:85-90 | every row is in the group of its name |
| ImportHistory.GroupsPartitionRows | tools/import-history.ts:84-90 | the group sizes add up to the number of rows, so each row is in exactly one group |
| ImportHistory.PrFieldValidIff | tools/import-history.ts:119 | a normalised PR passes the schema exactly when the input matched `^#?\d+$` |
| ImportHistory.ParseRowOkIff | tools/import-history.ts:115-120 | a row is accepted exactly when its date is ISO, its ring is a ring name, its note is non-empty and its PR is empty or `#`-optional digits; the stored PR is the normalised one |
| ImportHistory.ParsedRows | tools/import-history.ts:113-130 | each row is either parsed or counted as an error; parsed entries are exactly those some row validates to, and are well formed |
| ImportHistory.CollectNewEntries | tools/import-history.ts:112-131 | the loop yields the valid entries whose date is not in the history, in row order, and counts the invalid rows |
| ImportHistory.NewEntriesMember | tools/import-history.ts:122-126 | an entry is added exactly when a row validates to it and the history has no entry on its date |
| ImportHistory.BatchDuplicatesKept | tools/import-history.ts:123-126 | two valid rows for the same new date are both added (dedup is only against the file) |
| ImportHistory.MergeHistory | tools/import-history.ts:139-141 | the merged history is sorted by date and is a permutation of old followed by new |
| ImportHistory.MergeHistoryStable | tools/import-history.ts:139-141 | same-day entries keep their order, existing before new, and the order check reports nothing |
| ImportHistory.MergeNothing | tools/import-history.ts:139-141 | merging nothing into a chronological history leaves it unchanged |
| ImportHistory.ImportOneGroup | tools/import-history.ts:95-156 | one loop iteration computes ImportGroup: unknown name, nothing new, or merge and count |
| ImportHistory.ImportHistory | tools/import-history.ts:84-156 | the import applies ImportGroup to each group in key order, returning the radar and both counters |
| ImportHistory.ImportGroupEvolves | tools/import-history.ts:133-147 | a group step changes no slot other than that of the blip the lookup found; that blip keeps all other fields, its history only gains entries and is chronological if it changed; at most one blip more counts as updated |
| ImportHistory.ImportOnlyExtendsHistories | tools/import-history.ts:95-156 | across the whole import each slot keeps its parse status and every field but history; histories only grow, and a changed history is chronological; updatedCount is at most the number of groups |
| ImportHistory.UnknownNameCountsOnce | tools/import-history.ts:100-104 | a group whose name matches no blip adds one error and changes nothing |
| ImportHistory.NothingNewChangesNothing | tools/import-history.ts:133-136 | a group that adds no entry leaves the radar unchanged and counts only its invalid rows |
| ImportHistory.ImportedBlip | tools/import-history.ts:139-155 | a group that adds entries gives exactly this outcome: the found blip's history replaced by the merge, every other slot unchanged, updatedCount one higher, errorCount higher by the group's invalid rows; the merged history has no order warning |
| NewBlip.ParseCommaList | tools/new-blip.ts:122-127 | empty input gives no items; otherwise the items are the comma-separated pieces, trimmed, with the empty ones dropped, in order; every item is non-empty, has no surrounding white space and contains no comma |
| NewBlip.ParseCommaListMembers | tools/new-blip.ts:122-127 | a string is an item exactly when the input is non-empty and the string is a non-empty trimmed piece of it |
| NewBlip.CommaListRoundTrip | tools/new-blip.ts:132-137 | joining such items with commas and parsing gives them back |
| NewBlip.CollectInput | tools/new-blip.ts:113-137 | a new blip's status is New; name, quadrant, ring, summary and links are the answers given; tags and owners are the parsed comma lists |
| NewBlip.GenerateFrontMatter | tools/new-blip.ts:20-56 | the conditional field assignments build InitialFrontMatter (required keys, optional keys when non-empty, last_reviewed, one history entry) |
| NewBlip.OptionalKeysOnlyWhenNonEmpty | tools/new-blip.ts:31-44 | summary, tags, owners and links appear exactly when non-empty; since is always written and last_reviewed equals it |
| NewBlip.GeneratedFrontMatterValid | tools/new-blip.ts:31-53 | the generated front matter validates exactly when the name is non-empty and every link is valid; the result keeps every answer and has one history entry "Initial entry at <ring>" dated since; last_reviewed is since and there are no warnings |
| Dates.ParseDate | src/schemas.ts:34 | a date is read exactly from the strings matching `^\d{4}-\d{2}-\d{2}$` |
| Dates.ParseFormatDate | tools/update-status.ts:142 | reading a formatted day gives the day back |
| Dates.FormatParseDate | src/schemas.ts:34 | formatting the day a well-shaped string names gives the string back |
| Dates.ParseDateInjective | tools/import-history.ts:123 | two well-shaped strings name the same day only when they are equal, so the date dedup may compare days |
| Sorting.SortBy | tools/generate.ts:119 | the result is sorted by the key and is a permutation of the input |
| Sorting.SortByStable | tools/import-history.ts:139-141 | for each key, the elements with that key keep their input order |
| Sorting.SortBySorted | tools/import-history.ts:139-141 | an already sorted input is returned unchanged |
| Common.OkValuesMember | tools/import-history.ts:113-130 | a value is among the successes exactly when some element succeeds with it |
| Common.OkValuesCount | tools/import-history.ts:127-130 | successes and errors together account for every element |
| Common.Trim | tools/new-blip.ts:125 | the trimmed string is no longer than the input and neither starts nor ends with white space |
| Common.TrimIsSlice | tools/new-blip.ts:125 | the trimmed string is a slice of the input and everything around the slice is white space |
| Common.SplitJoin | tools/new-blip.ts:124 | splitting a comma-joined list of comma-free pieces gives the pieces back |

## Left out

- File reading and writing, glob, gray-matter, js-yaml load and dump, and
  csv-parse are left out. The radar is a sequence of already-validated front
  matter in glob order. A file is written back as the typed record itself,
  and `Schemas.FrontMatterRoundTrip` shows that this loses nothing for
  well-formed records. In update-status (tools/update-status.ts:35) and in
  import-history's file lookup (tools/import-history.ts:26-27) the front
  matter is read outside the `try`, so one file with a YAML syntax error
  ends the whole search, and in import-history the whole import, there. A
  `None` slot of the model stands only for a file that fails schema
  validation, which the shared lookup (`UpdateStatus.FindBlipFile`, also
  used by `ImportHistory.ImportGroup`) skips.
- inquirer prompts, console output and `process.exit` are left out. Prompt
  answers are parameters. In update-status, the "Ring unchanged. Continue
  anyway" cancel branch is the caller's choice not to apply the update. The
  config rings and quadrants offered by the select prompts are assumed to be
  the enumeration names their `as Ring` / `as Quadrant` casts claim.
- Wall-clock time is a parameter. This covers `new Date()`, `subDays` and
  `format(new Date(), "yyyy-MM-dd")`. The cutoff is a day, and an entry on
  the cutoff day is excluded. In the source the cutoff carries the current
  time of day while an entry is midnight of its day, so the cutoff day is
  excluded there too. Time zones are not modelled.
- Dates that match `\d{4}-\d{2}-\d{2}` but name no calendar day (NaN in
  JavaScript) are not modelled. Every well-shaped string is read as the
  number YYYYMMDD.
- Case folding and trimming are ASCII only, and Unicode is not modelled.
- URL validity (zod's `.url()` and `new URL`) is the parameter `isUrl`.
- `slugify` (slugs and folder names) is not modelled. Slugs are carried as
  given.
- The HTML, CSS and Markdown generation and `parseAllBlips` in
  tools/generate.ts are not modelled. Neither is `generateMarkdownTemplate`
  in tools/new-blip.ts, or tools/validate.ts.
- `BlipWithContentSchema` is not modelled as a schema: `Schemas.Blip` is its
  typed record. `ZalandoRadarDataSchema` only pairs entries with a
  configuration and is not modelled.
- Raw (pre-validation) records type each field with its expected type and
  model only presence and value constraints. A value of the wrong type
  (such as a number where a string is expected) is not modelled. Zod's
  stripping of unknown keys has no counterpart.
- CSV parsing is not modelled. This covers header handling, quoting, the
  `trim: true` option, empty-line skipping, and rows with missing columns
  (csv-parse rejects those). A row is five strings, and an absent `pr`
  column is the empty string.
- ImportHistory.ImportGroup: the re-parse of the found file (line 109)
  always succeeds and is not modelled, because the lookup returns only
  files whose front matter validates.
- NewBlip.GenerateFrontMatter: the `if (data.since)` test is modelled, but
  it always holds, because a formatted day is never empty.
- `Array.prototype.sort` is modelled by a functional stable insertion sort
  (`Sorting.SortBy`), not as an in-place sort of an array.
- Messages are modelled only where a contract uses them. Consistency
  warnings are the datatype `Warning`, which names the rings or dates
  involved, not the English sentences. Schema issues carry the path and a
  message.
