# eslint-formatter-friendlier, modelled in Dafny

This project models `format(results, resultsMeta)` from eslint-formatter-friendlier. That function is an ESLint
formatter: it turns per-file lint results into the text printed on the terminal. It takes these steps:

1. It flattens the results into one entry per message. Each entry carries the file's displayed path and source text; a
   file without a `source` is read from disk, and a read failure aborts the call.
2. It stable-sorts the entries by severity, then (in by-issue mode) rule id, then file path, line and column.
3. It makes one pass over the sorted entries. The pass skips entries that the rule filter rejects. It counts every other
   entry as an error (fatal or severity 2) or a warning, in a counter and in a per-rule table. It also renders one block
   per entry. In by-issue mode a block repeats the title and editor link only when its rule differs from that of the
   previous counted entry.
4. It appends the summary line ("✘ N problems (E errors, W warnings)") and, per kind, a table of rules ordered by how
   often they fired. Each rule takes two rows: its count, then its documentation link.
5. The whole output is empty exactly when there were no messages.

Modelling choices:

* The environment variables the source reads (`EFF_BY_ISSUE`, `EFF_FILTER`, `EFF_EDITOR_SCHEME`, …) form one `Config`
  record (`Lint.Config`).
* `resultsMeta.rulesMeta[rule].docs.url` is a map from rule id to URL (`Lint.DocsUrls`).
* Colouring (chalk) is the identity.
* Some services are fields of a `Lint.Host` record of functions:
  * the file system (`fs.readFileSync`), path resolution (`path.resolve`, `path.relative`) and `encodeURIComponent`
  * the code frame (`@babel/code-frame`) and the column layout of `text-table`
* The formatter's three loops are methods proved against specification functions:
  * the `forEach` that flattens (`Flatten.FlattenResults` against `Flatten.Collect`)
  * the `reduce` that counts and renders (`Fold.RenderEntries` against `Fold.Passing`, `Fold.Blocks` and the tallies)
  * `format` itself (`Formatter.Format` against `Formatter.Report`)
* Strings are `seq<char>`. The rule tables `errorsHash`/`warningsHash` are association lists in insertion order. That
  is the order `Object.keys` reports for keys that do not look like array indices, which covers every ESLint rule id
  (see "## Left out" for integer-like keys).

Modules:

* `Wrappers`: `Option` and `Result`.
* `Seqs`: associativity of concatenation, used to regroup long string concatenations.
* `Strings`: the JavaScript string operations used, namely `trim`, `join`, `split`, `replace` with a string pattern,
  and number-to-decimal conversion.
* `Order`: the three-way comparisons lodash's `sortBy` applies to each key.
* `StableSort`: a stable sort by a total preorder.
* `Lint`: the data types, the configuration and the host.
* `RuleCounts`: the per-rule tables.
* `Helpers`: `pluralize`, `getFileLink`, `getKeyLink`, the trailing-period removal, the code-frame indentation and
  `createLine`.
* `Render`: the inner `render*` functions and one entry's block.
* `Flatten`: the flattening pass.
* `EntryOrder`: the sort key.
* `Fold`: the `reduce`.
* `Summary`: the summary line and `printSummary`.
* `Formatter`: `format`.

## Model

| member | source | states |
|---|---|---|
| Helpers.Pluralize | index.js:26-28 | the word is returned unchanged exactly when the count is one, and with an "s" appended exactly when it is not |
| Helpers.GetFileLink | index.js:49-58 | there is no link exactly when the editor scheme is unset or empty |
| Helpers.GetFileLinkFills | index.js:49-58 | a scheme holding `{file}`, `{line}` and `{column}` in that order yields the scheme with the encoded path, the line number and the column number in their places and every other character kept |
| Helpers.FillFirst | index.js:55-57 | one `replace` of a placeholder whose first character does not occur before it puts the replacement exactly in the placeholder's place |
| Helpers.KeyLink | index.js:60-66 | a rule with a non-empty documentation URL links to that URL; any other key links to the search prefix followed by the key |
| Helpers.StripTrailingPeriod | index.js:202-204 | the description loses at most one final period: it is unchanged exactly when it does not end with a period, and otherwise it is the message without its last character |
| Helpers.StripOnePeriod | index.js:203 | a message ending in periods loses exactly one of them |
| Helpers.IndentFrameLines | index.js:225-230 | the indented code frame has the same lines as the frame, each behind three spaces |
| Helpers.Kept | index.js:234-237 | every piece that `createLine` keeps is non-blank after trimming |
| Helpers.CreateLineDropsBlank | index.js:233-239 | a blank piece leaves no trace in the line: removing it changes nothing |
| Helpers.CreateLineKeepsAll | index.js:233-239 | pieces that are all non-blank are joined with newlines unchanged |
| Helpers.CreateLineEmpty | index.js:233-239 | a line is empty exactly when every piece is blank |
| Helpers.KeptAppend | index.js:234-237 | filtering distributes over concatenation of the pieces |
| Flatten.FlattenResults | index.js:120-154 | the loop's result equals the left-to-right flattening `Collect` of `results \|\| []`, including its first read failure |
| Flatten.CollectOkIff | index.js:133-138 | flattening succeeds exactly when every result with messages has a non-empty source or a readable file |
| Flatten.CollectErrSticky | index.js:138 | once a file cannot be read, later results do not change the outcome |
| Flatten.CollectCount | index.js:139-153 | every message of every result becomes exactly one entry |
| Flatten.CollectIndex | index.js:139-153 | the k-th message of the j-th result is the entry after all earlier results' messages, with the result's displayed path and source text |
| Flatten.CollectSkipsEmpty | index.js:134-136 | a result with no messages changes nothing, even when its file could not be read |
| Order.CompareInt | index.js:156-161 | numbers compare equal and less exactly as integers do |
| Order.CompareString | index.js:156-161 | strings compare equal exactly when they are equal |
| Order.CompareStringFlip | index.js:156-161 | swapping two strings flips their comparison |
| Order.CompareStringLtTrans | index.js:156-161 | the string order is transitive |
| Order.CompareOptString | index.js:156-161 | possibly-absent rule ids compare equal exactly when they are equal |
| Order.CompareOptStringFlip | index.js:156-161 | swapping two possibly-absent rule ids flips their comparison |
| Order.CompareOptStringLtTrans | index.js:156-161 | the order on possibly-absent rule ids is transitive |
| Order.CompareOptNat | index.js:156-161 | possibly-absent lines and columns compare equal exactly when equal; an absent one never sorts before another |
| Order.CompareOptNatFlip | index.js:156-161 | swapping two possibly-absent positions flips their comparison |
| Order.CompareOptNatLtTrans | index.js:156-161 | the order on possibly-absent positions is transitive |
| EntryOrder.CompareKeys | index.js:156-161 | two sort keys compare equal exactly when they coincide in every field used |
| EntryOrder.CompareKeysFlip | index.js:156-161 | swapping two keys flips their comparison |
| EntryOrder.CompareKeysLtTrans | index.js:156-161 | the lexicographic key order is transitive |
| EntryOrder.EntryLeIsTotalPreorder | index.js:156-161 | the entry order (with or without the rule id) is total and transitive |
| EntryOrder.PeersShareKey | index.js:158-160 | two entries tie exactly when severity, rule id (in by-issue mode only), path, line and column all agree |
| EntryOrder.SortEntriesCorrect | index.js:156-161 | the sorted entries are a permutation of the input, in non-decreasing key order, and entries with equal keys keep their input order |
| StableSort.SortPerm | index.js:156-161 | sorting only reorders: same multiset |
| StableSort.SortSorted | index.js:156-161 | sorting by a total preorder orders every pair |
| StableSort.SortStable | index.js:156-161 | for every value, the elements tied with it appear in the same order before and after sorting |
| StableSort.SortDistinct | index.js:71-74 | sorting keeps distinct keys distinct |
| StableSort.InsertPerm | index.js:156-161 | inserting adds exactly the inserted element |
| StableSort.InsertSorted | index.js:156-161 | inserting into an ordered sequence keeps it ordered |
| RuleCounts.Bump | index.js:179 | `hash[rule] = (hash[rule] \|\| 0) + 1` raises that rule's count by one, leaves every other count alone, and raises the total by one |
| RuleCounts.BumpRules | index.js:179 | a rule already in the table keeps its place; a new rule goes last, as in `Object.keys` order for keys that are not integer-like |
| RuleCounts.BumpValid | index.js:183 | counting keeps every rule listed once with a positive count |
| RuleCounts.CountRulesSnoc | index.js:179 | counting one more rule id bumps the table built so far |
| RuleCounts.CountRulesCounts | index.js:179-183 | each rule's count is its number of occurrences, and the counts add up to the number of counted entries |
| RuleCounts.CountRulesKeys | index.js:179-183 | the table lists exactly the rules that occurred, each once, with a count of at least one |
| Fold.CountEntry | index.js:176-185 | counting one entry keeps the tallies of the entries counted so far: an error turns the colour red and bumps the error counter and table; anything else bumps the warning counter and table |
| Fold.RenderEntry | index.js:241-263 | rendering one entry appends its block, which carries a header unless by-issue mode is on and the previous counted entry had the same rule id; the tracker then holds that rule id |
| Fold.RenderEntries | index.js:163-267 | the blocks are those of the entries that pass the filter, in order; the two counters, two rule tables and the summary colour are the tallies of those entries |
| Fold.CountsStep | index.js:176-185 | one error or warning moves the tallies forward as the source's two branches do |
| Fold.BlocksStep | index.js:241-252 | one more counted entry adds one block, with a header decided by the tracker |
| Fold.PassingSnoc | index.js:170-174 | an entry is kept by the filter exactly when no filter is set or its rule id equals the filter |
| Fold.PassingKeeps | index.js:170-174 | the filter only drops entries: the kept entries are a sub-multiset of the input, each of them passes, and every input entry that passes is kept |
| Fold.PassingAll | index.js:170 | without a filter every entry is kept |
| Fold.ClassifyPartition | index.js:176-185 | every counted entry is either an error or a warning, never both |
| Fold.ClassifyKinds | index.js:176-185 | the errors are exactly the fatal or severity-2 entries and the warnings the others: each side holds only its kind, and together they hold every counted entry |
| Fold.CountsAddUp | index.js:170-185 | errors plus warnings equal the number of kept entries, at most the number of entries; every kept entry has the filtered rule id; without a filter all entries are kept |
| Fold.TablesAgree | index.js:179-184 | each table's counts add up to its counter, each rule's count is its number of occurrences, and every rule appears once |
| Fold.GroupedBlocks | index.js:241-252 | in by-issue mode a block shows the title and link above the file reference and code frame exactly when it starts a run of its rule |
| Fold.BlocksWithSnoc | index.js:241-252 | whether a block starts a group depends only on the previous counted entry |
| Render.BlockNotEmpty | index.js:233-263 | no entry's block is empty, because it always holds the file reference |
| Render.HeaderlessBlock | index.js:245-252 | a repeated rule's block is just its file reference and code frame |
| Render.HeaderBlock | index.js:245-252 | a new rule's block is the title and link lines above the headerless block |
| Summary.CountedSample | index.js:275-283 | one problem and one error read in the singular, zero warnings in the plural |
| Summary.CountedPrefix | index.js:275-283 | a count followed by its noun can be read back: the number and the text after it are determined |
| Summary.SummaryLineInjective | index.js:271-286 | the summary line determines the problem, error and warning counts it was made from |
| Summary.BreakdownInjective | index.js:278-284 | the part in parentheses determines the error and warning counts |
| Summary.CountLeIsTotalPreorder | index.js:72-74 | the count order is total and transitive |
| Summary.OrderByCountCorrect | index.js:71-74 | the ordered table holds the same rule/count pairs, by non-increasing count, with ties in insertion order, and each rule still appears once |
| Summary.Rows | index.js:75-81 | there are two rows per rule |
| Summary.RowsIndex | index.js:75-81 | row 2i is the count row and row 2i+1 the link row of the table's i-th rule |
| Summary.SummaryRowsCorrect | index.js:70-81 | the rows handed to `text-table` come in pairs, one pair per rule of the table in count order |
| Formatter.Format | index.js:113-305 | `format` fails exactly when flattening fails, with the read error of the first unreadable file; otherwise it returns the report of the flattened entries, and the result is empty exactly when no result carries a message |
| Formatter.ReportFromPass | index.js:165-295 | the report is the blocks, the summary line and the tables built from the pass's counters and tables |
| Formatter.ReportEmptyIff | index.js:304 | the report is empty exactly when there are no entries, and otherwise starts with a line break |
| Formatter.SummaryCounts | index.js:269-286 | the summary line counts every entry as a problem, while its error and warning counts cover only the filtered entries: at most the total, and exactly the total without a filter |
| Formatter.FilterRejectsAll | index.js:170-174 | when the filter rejects every entry, the output is still the summary line counting them all as problems, with zero errors and warnings and no tables |
| Formatter.SortedPassingNone | index.js:156-174 | if the filter rejects every entry, sorting does not change that |
| Strings.TrimEmptyIffBlank | index.js:236 | a piece trims to nothing exactly when it is all white space |
| Strings.JoinSplit | index.js:227-229 | joining the pieces of a split with the separator gives the string back |
| Strings.SplitJoin | index.js:227-229 | splitting a join of separator-free pieces gives the pieces back |
| Strings.DecimalRoundTrip | index.js:56-57 | a number's decimal text reads back as the number |
| Strings.NumberPrefix | index.js:275-283 | decimal text followed by a non-digit determines both the number and the rest |
| Strings.IndexOf | index.js:55-57 | the index is the first occurrence at or after the start; none is reported only when there is no occurrence |
| Strings.ReplaceFirstAt | index.js:55-57 | `replace` with a string pattern replaces its first occurrence only |
| Strings.ReplaceFirstAbsent | index.js:55-57 | without an occurrence, `replace` changes nothing |

## Left out

- Formatter.Format: the iTerm current-directory prefix (index.js:297-302) is not added. It depends on `process.stdout.isTTY`, `process.env.CI` and `process.cwd()`, which are outside the model.
- Helpers.GetFileLinkFills: stated only for schemes where no `{` comes before a placeholder, in the text or in the encoded path. Other schemes are still modelled by `Helpers.GetFileLink`, which replaces first occurrences, but they have no closed-form lemma.
- Colours and styles (chalk, `subtleLog`, `EFF_NO_GRAY`) are the identity; the summary colour is tracked but only decides colouring.
- `text-table`'s column alignment and `strip-ansi` are a host function (`Host.table`) applied to the rows.
- `@babel/code-frame`, and the `EFF_CODE_FRAME_OPTIONS` JSON parsing (`tryParseJSONObject`), form the host function `Host.codeFrame`.
- `fs.readFileSync`, `path.resolve`, `path.relative` and `encodeURIComponent` are host functions. A throwing read is the error result `ReadFailed`.
- `process.env` is the `Config` record. A boolean switch is true exactly when its variable reads "true"; an empty text setting is unset.
- Special `$` patterns in a `String.prototype.replace` replacement string are not interpreted. The replacements are an encoded path and decimal numbers, which hold no `$` unless the host's encoding leaves one.
- Rule ids are a string or ESLint's `null`, never `undefined`. An `undefined` rule id would match the tracker's initial `undefined` and drop the first block's header; ESLint does not produce one.
- `Object.keys` lists integer-like keys (such as "42") first, in ascending numeric order, before the other keys in insertion order. The rule tables keep plain insertion order, so a rule id that looks like an array index is not modelled; ESLint rule ids never do.
- In a JavaScript object, a `null` rule id and a rule literally named "null" share the key "null". The model keeps them as separate table rows.
- The summary table's comparator `hash[a] > hash[b] ? -1 : 1` never answers "equal". The model reads it as a stable sort by non-increasing count, with ties in insertion order, which is how a stable engine sort treats it.
- Strings are ordered by character codes as Dafny characters. JavaScript compares UTF-16 code units, which differs only for characters outside the Basic Multilingual Plane.
- Severity is an integer. Non-integer severities are not modelled.
- The entries' file paths and sources come from `extend`. A message carrying its own `filePath` or `fileSource` field would override them; ESLint messages have neither.
- Blank blocks are not filtered before the final join, following the code; the model also proves that no block is ever blank (`Render.BlockNotEmpty`).
