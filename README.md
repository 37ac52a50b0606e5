# OpenBook GitDB core, modelled in Dafny

OpenBook keeps a database as a git repository of markdown files. Each table is
a directory holding one `.md` file per record. An optional `view.json` in a
table maps markdown-tree paths to the columns of a tabular view. This project
models four parts of the system:

- **Indexer.** The indexer (`GitDBIndex`, in OpenBook and in its node-gitdb
  variant) works out which files changed since the revision its tracker
  records. The tracker is the stored record of the last indexed revision. The
  indexer upserts one file index per changed file. It flattens each file's
  parsed markdown tree into one node record per tree node. It prunes the rows
  of tables and files that no longer exist.
- **Views.** The view builder groups the node records by file and re-keys
  them by column. It then condenses the result into a header row and one row
  per file.
- **Git helpers.** These cover the sort order of tables and files (`_top.md`
  first, `_bottom.md` last, dates, then embedded numbers), the normalised
  database path, and the parsing of `git diff` output.
- **Spreadsheets.** The formula engine expands `{{CURRENT_ROW±K}}`-style
  tokens and strips the `!&&format&&` cell prefix. The two Excel exporters
  classify and substitute view cells.

The store is modelled two ways: as a class (`IndexRun.GitDbIndex`,
`NodeIndex.NodeGitDbIndex`) whose sequences of rows the methods update, and as
functions on a `Store` value that state what a whole run leaves behind. The
checked-out repository is a `Checkout` value. It provides the table listing,
each file's git blob hash, SHA-256 digest and parse tree, the paths git reports
changed since a revision, the current revision and the clock. The host's
`localeCompare`, the date parsing of `moment` and the store's string order for
files are parameters.

Modules:

- `Formula` models `src/core/formula.ts`.
- `CoreExcel` models `src/core/excel.ts`.
- `DatabaseExcel` models `src/database/excel.ts`.
- `Sheet` holds the cell classification both exporters share.
- `CoreGitDb` models `src/core/gitdb.ts`.
- `GitPaths`, `CoreGitOperations` and `NodeGitOperations` model the two
  `gitOperations.ts` files.
- `IndexRecords`, `FileNodes`, `ViewProjection` and `IndexRun` model
  `src/database/gitdb-index.ts`.
- `NodeIndex` models `node-gitdb/src/database/gitdb-index.ts`.
- `JsString`, `JsObject`, `TokenTables`, `Seqs` and `Wrappers` model the
  JavaScript built-ins the source relies on. These are string search and
  `replace`, `split`, `trim`, insertion-ordered objects, `filter` and stable
  `sort`.

## Model

| member | source | states |
|---|---|---|
| Formula.ColumnLetter | src/core/formula.ts:16-28 | the column name is a non-empty capital-letter string whose bijective base-26 value is the column number; every number below 1 gives "A" |
| Formula.LettersRoundTrip | src/core/formula.ts:20-27 | decoding the letters of a number gives the number back, and the letters are capitals |
| Formula.ValueRoundTrip | src/core/formula.ts:20-27 | every capital-letter string is the name of the number it decodes to |
| Formula.ColumnLetterUnique | src/core/formula.ts:16-28 | a column name is determined by the number it stands for |
| Formula.ColumnLetterExamples | src/core/formula.test.ts:5-16 | 1→A, 26→Z, 27→AA, 52→AZ, 53→BA, 702→ZZ, 703→AAA, and 0 and -1 → A |
| Formula.ColumnNumberToLetter | src/core/formula.ts:16-28 | the digit loop computes exactly the column name |
| Formula.Lookup | src/core/formula.ts:36-45 | a key has a value in an insertion-ordered map exactly when some entry has that key |
| Formula.GetVariables | src/core/formula.ts:36-45 | four entries whose keys are distinct double-braced tokens |
| Formula.GetVariablesLookup | src/core/formula.ts:36-45 | each base key maps to its decimal text, and the letter key maps to the column's letter name |
| Formula.ApplyAllBraceFree | src/core/formula.ts:83-88 | replacing the plain variables leaves brace-free text untouched |
| Formula.SuffixAt | src/core/formula.ts:55 | a `([+-]\d+)?}}` suffix found at a position ends in "}}" inside the text |
| Formula.MatchToken | src/core/formula.ts:55 | an anchored token match starts with "{{" and is at least as long as the braced name |
| Formula.MatchRowColumn | src/core/formula.ts:55-66 | a row or column token match starts at a "{{" and stays within the text |
| Formula.MatchLetter | src/core/formula.ts:70-74 | a letter-token match starts at a "{{" and stays within the text |
| Formula.MatchRowCount | src/core/formula.ts:77-79 | a row-count token match starts at a "{{" and stays within the text |
| Formula.PerformVariableSubstitutionsOnFormula | src/core/formula.ts:53-91 | the method's three global passes and plain-variable loop compute the substitution function |
| Formula.ScanIdentity | src/core/formula.ts:55-80 | one global regex pass leaves brace-free text unchanged |
| Formula.ScanReplacesToken | src/core/formula.ts:55-80 | a pass replaces a token it matches between brace-free texts, and only that token |
| Formula.ScanKeepsToken | src/core/formula.ts:55-80 | a pass copies a token it does not match |
| Formula.MatchTokenOfToken | src/core/formula.ts:55 | a canonical token is recognised with its own name, offset and length |
| Formula.MatchTokenOtherName | src/core/formula.ts:55 | a token is not recognised under a different name |
| Formula.ColumnNameMissesLetterToken | src/core/formula.ts:55 | `{{CURRENT_COLUMN` does not match the start of a `{{CURRENT_COLUMN_LETTER±K}}` token |
| Formula.RowColumnMissesLetterToken | src/core/formula.ts:55-68 | the row and column pass leaves letter tokens for the letter pass |
| Formula.SubstituteBraceFree | src/core/formula.ts:53-91 | a formula without braces is returned unchanged |
| Formula.SubstituteRowToken | src/core/formula.ts:55-68 | `{{CURRENT_ROW±K}}` becomes the decimal text of max(1, row+K) |
| Formula.SubstituteColumnToken | src/core/formula.ts:55-68 | `{{CURRENT_COLUMN±K}}` becomes the decimal text of max(1, column+K) |
| Formula.SubstituteLetterToken | src/core/formula.ts:70-75 | `{{CURRENT_COLUMN_LETTER±K}}` becomes the letter name of max(1, column+K) |
| Formula.SubstituteRowCountToken | src/core/formula.ts:77-80 | `{{ROW_COUNT±K}}` becomes the decimal text of count+K, with no clamping |
| Formula.ExampleFirstPass | src/core/formula.ts:55-68 | the first pass of the documented example replaces the row token and keeps the letter token |
| Formula.ExampleSecondPass | src/core/formula.ts:70-75 | the second pass of the example names column 4 "D" |
| Formula.RowAndLetterExample | src/core/formula.test.ts:36-43 | with column 3 and row 5, "Row: {{CURRENT_ROW+1}}, Col: {{CURRENT_COLUMN_LETTER+1}}" becomes "Row: 6, Col: D" |
| Formula.FindSplit | src/core/formula.ts:176 | the first "&&" at or after a position that leaves text after it; none exists before it; none means none at all |
| Formula.ExtractFormatting | src/core/formula.ts:175-181 | there is formatting exactly when the anchored pattern can match; otherwise the whole input is the formula |
| Formula.ExtractReconstructs | src/core/formula.ts:175-181 | on a match, "!&&" + formatting + "&&" + formula is the input, and both parts are non-empty |
| Formula.ExtractRoundTrip | src/core/formula.ts:175-181 | formatting without '&' and a one-line formula are read back from the prefixed cell |
| Formula.ExtractNoMatch | src/core/formula.ts:175-181 | a cell without the prefix, or with a line break after it, has no formatting |
| Formula.CellFormatting | src/core/formula.ts:98-102 | a cell has non-empty formatting exactly when it carries a prefix, and the cell is rebuilt from its formatting and formula |
| Formula.StrippedCellFormula | src/core/formula.ts:121-124 | the stripped cell is the extracted formula; it equals the cell or rebuilds it with the formatting |
| Formula.SubstituteCellPlain | src/core/formula.ts:125-134 | a cell that is not a formula, or holds no brace, is only stripped |
| Formula.GetFormulaFormatting | src/core/formula.ts:93-107 | the result has the input's shape, and each cell holds that cell's formatting ("" without a prefix) |
| Formula.PerformDataSubstitutions | src/core/formula.ts:114-138 | the result has the input's shape, and each cell is stripped and substituted for its own 1-based row and column |
| Formula.SubstituteRow | src/core/formula.ts:119-135 | one row, with each cell substituted for its column |
| Formula.SubstituteCellData | src/core/formula.ts:120-134 | one cell, stripped, and substituted when it is a formula |
| Formula.MatrixExample | src/core/formula.test.ts:124-142 | the cells of the documented two-row matrix each get their own row, column letter and row count |
| Formula.SubstituteFormulaCell | src/core/formula.ts:125-134 | every cell starting with "=", which therefore has no "!&&" prefix, is substituted for its position as it stands |
| Formula.CalculateDataFormulas | src/core/formula.ts:145-167 | the result has the input's shape; formulas are replaced by their evaluation or "#ERROR", and other cells are kept |
| CoreExcel.ColumnNumberToLetter | src/core/excel.ts:11-24 | the exporter's remainder loop computes its own column naming |
| CoreExcel.LegacySingleLetters | src/core/excel.ts:18-23 | columns 1 to 25 get the n-th capital letter, which is also the spreadsheet name |
| CoreExcel.LegacyAgreesWithoutZeroDigit | src/core/excel.ts:18-23 | where no base-26 digit is zero, the exporter's naming agrees with the spreadsheet naming |
| CoreExcel.LegacyZeroDigit | src/core/excel.ts:19-20 | a column whose last base-26 digit is zero gets a name ending in "undefined" |
| CoreExcel.LegacyTwentySix | src/core/excel.ts:11-24 | column 26 is named "Aundefined", where the spreadsheet name is "Z" |
| CoreExcel.OffsetsAreBlockOffsets | src/core/excel.ts:33 | the offset list is -10..-1 then 1..10, with no 0 |
| CoreExcel.VariableBindings | src/core/excel.ts:32-50 | 84 bindings whose keys are distinct well-formed tokens and whose values are brace-free, the letter block holding the given column naming (the exporter's own, or the intended spreadsheet one) |
| CoreExcel.Variables | src/core/excel.ts:32-50 | the map `getVariables` returns: 84 token keys, for either column naming |
| CoreExcel.KeyTextIsToken | src/core/excel.ts:39 | the key text written for an offset is the canonical token for it |
| CoreExcel.GetVariables | src/core/excel.ts:32-50 | the nested loops build exactly the 84-entry map, block by block, the letter keys named by the exporter's own `columnNumberToLetter` |
| CoreExcel.SetBlock | src/core/excel.ts:36-47 | one block of the loop extends the map by its 21 bindings, the letter block with the exporter's own naming |
| CoreExcel.PerformSubstitutions | src/core/excel.ts:52-61 | the loop of global replaces computes the substitution function over the exporter's own table (letter keys named as written) |
| CoreExcel.BoundAt | src/core/excel.ts:36-47 | the key `{{name±k}}` is bound at its block and position, holding base+k, or for the letter key the chosen naming of column+k |
| CoreExcel.SubstituteKey | src/core/excel.ts:52-61 | a key with an offset of at most 10 becomes base+k, or for the letter key the chosen naming of column+k (as written: the exporter's own loop) |
| CoreExcel.SubstituteKeyEverywhere | src/core/excel.ts:57-58 | every copy of a key is replaced by the same value |
| CoreExcel.SubstituteOutOfRange | src/core/excel.ts:33 | a token with an offset beyond 10 is not in the table and is left as it is |
| CoreExcel.SubstitutePlainText | src/core/excel.ts:52-61 | text without braces is not touched |
| CoreExcel.LegacyDigitsBraceFree | src/core/excel.ts:18-23 | the exporter's column names hold no brace, so a letter value never forms a new key |
| CoreExcel.LetterKeyAsWritten | src/core/excel.ts:42-47 | as written, `{{CURRENT_COLUMN_LETTER}}` in column 26 becomes "Aundefined", not the spreadsheet name "Z" |
| CoreExcel.LetterKeyIntended | src/core/excel.ts:42-47 | with the intended naming the letter key of column c+k becomes the spreadsheet name of c+k, "Z" for 26 |
| CoreExcel.LetterKeyIntendedDistinct | src/core/excel.ts:42-47 | with the intended naming, two different columns from 1 on never give a letter key the same text |
| CoreExcel.ExportDataRow | src/core/excel.ts:78-105 | each cell of a data row is classified, and its formula is substituted for the cell's row (which counts the header) and column, with the exporter's own letter naming |
| CoreExcel.GetViewAsExcel | src/core/excel.ts:63-111 | fails with the documented message exactly when the table has no view; otherwise there is one header cell per header text and one classified cell per data cell, formulas substituted with the exporter's own letter naming |
| Sheet.DataCell | src/core/excel.ts:89-104 | "=$" and "=" make a formula whose text after the prefix is substituted; "$" and "-$" make a currency cell; anything else is plain text |
| DatabaseExcel.Bindings | src/database/excel.ts:10-28 | fifteen bindings with distinct well-formed token keys |
| DatabaseExcel.GetVariables | src/database/excel.ts:10-28 | the object literal: fifteen token keys |
| DatabaseExcel.RowKeyTexts | src/database/excel.ts:12-16 | the current-row keys are the tokens for offsets 0, -1, +1, -2 and +2 |
| DatabaseExcel.BlockKeyTexts | src/database/excel.ts:17-26 | the row-count and current-column keys are the tokens of their names |
| DatabaseExcel.RowKeysFirst | src/database/excel.ts:12-14 | the first three entries are the current row, row-1 and row+1, in that order |
| DatabaseExcel.RowKeysLast | src/database/excel.ts:15-16 | entries 3 and 4 are row-2 and row+2 |
| DatabaseExcel.BlockOrder | src/database/excel.ts:17-26 | the row-count block follows, then the current-column block, ending at column+2 |
| DatabaseExcel.KeysDistinct | src/database/excel.ts:10-28 | the fifteen keys are different texts |
| DatabaseExcel.PerformSubstitutions | src/database/excel.ts:30-36 | the loop of string replaces computes the first-occurrence substitution |
| DatabaseExcel.BoundAt | src/database/excel.ts:10-28 | each key is bound at its block and position to the text of its number |
| DatabaseExcel.SubstituteKey | src/database/excel.ts:30-36 | a key of the table becomes the text of its number |
| DatabaseExcel.SubstituteFirstCopyOnly | src/database/excel.ts:33 | only the first copy of a key is replaced; a second copy stays |
| DatabaseExcel.SubstituteUnknownKey | src/database/excel.ts:10-36 | the letter key and offsets beyond 2 are left as they are |
| DatabaseExcel.SubstitutePlainText | src/database/excel.ts:30-36 | text without braces is not touched |
| DatabaseExcel.ExportDataCell | src/database/excel.ts:58-73 | a cell is classified, and its formula is substituted with the row index and column number |
| DatabaseExcel.ExportDataRow | src/database/excel.ts:53-74 | every cell of a data row is exported at its own column |
| DatabaseExcel.GetViewAsExcel | src/database/excel.ts:38-80 | fails exactly when the table has no view; otherwise each view cell is exported with rows counted from the header at 0 |
| CoreGitDb.FindDateFrom | src/core/gitdb.ts:70 | the leftmost match of the date pattern, with none before it; none means no match anywhere |
| CoreGitDb.RemoveFirstDate | src/core/gitdb.ts:90 | a name without a date is unchanged |
| CoreGitDb.RunEnd | src/core/gitdb.ts:85 | the end of a maximal run of digits |
| CoreGitDb.FindLastNumberFrom | src/core/gitdb.ts:85 | the leftmost match of the last-number pattern, with none before it; none means no match |
| CoreGitDb.AlphaSort | src/core/gitdb.ts:61-100 | `_top.md` sorts first and `_bottom.md` last, in the order the markers are tested |
| CoreGitDb.DatesDecide | src/core/gitdb.ts:76-81 | two valid, different first dates decide chronologically |
| CoreGitDb.OneDigitRunNoDate | src/core/gitdb.ts:70 | a name with a single digit run holds no date |
| CoreGitDb.OneDigitRunNumber | src/core/gitdb.ts:84-87 | with a single digit run, the last number is that run |
| CoreGitDb.NumbersDecide | src/core/gitdb.ts:89-99 | without dates, two different last numbers decide by their difference; otherwise the locale order decides |
| CoreGitDb.DigitNotMarker | src/core/gitdb.ts:63-66 | a name with a digit is neither marker |
| CoreGitDb.NumberedNames | src/core/gitdb.ts:84-99 | names that differ only in one embedded number compare by that number, with equal numbers left to the locale order |
| CoreGitDb.FileTwoBeforeFileTen | src/core/gitdb.test.ts:36-38 | "file2" sorts before "file10" both ways round |
| CoreGitDb.InsertTop | src/core/gitdb.ts:63 | an element keyed `_top.md` is inserted at the front |
| CoreGitDb.SortedTopFirst | src/core/gitdb.ts:63-64 | when some element is keyed `_top.md`, the sort puts one such element first |
| CoreGitDb.InsertBottom | src/core/gitdb.ts:65-66 | an element keyed `_bottom.md` is inserted last |
| CoreGitDb.SortedBottomLast | src/core/gitdb.ts:65-66 | when some element is keyed `_bottom.md`, the sort puts one such element last |
| CoreGitDb.CollectionSort | src/core/gitdb.ts:102-111 | the array is sorted in place by `alphaSort` on the column's text |
| CoreGitDb.MarkersAreMarkdown | src/core/gitdb.ts:127-137 | both markers are visible markdown names, so they are listed |
| CoreGitDb.GetTableFiles | src/core/gitdb.ts:116-143 | the files are the sorted listing, filtered as it is walked |
| CoreGitDb.WalkListing | src/core/gitdb.ts:126-141 | the walk keeps exactly the visible, non-directory markdown files, in order |
| CoreGitDb.TableFilesMembers | src/core/gitdb.ts:116-143 | a file is listed exactly when it is in the directory and is a visible markdown file |
| CoreGitDb.TopFileFirst | src/core/gitdb.ts:121-125 | `_top.md`, when present, is the first file listed |
| CoreGitDb.BottomFileLast | src/core/gitdb.ts:121-125 | `_bottom.md`, when present, is the last file listed |
| CoreGitDb.GetTables | src/core/gitdb.ts:149-156 | the tables are exactly the visible directories, in `localeCompare` order |
| CoreGitDb.GetViewJson | src/core/gitdb.ts:158-177 | the parsed view, or the default root when the file is absent or the parse throws |
| CoreGitDb.GetViewPathsFromViewRoot | src/core/gitdb.ts:179-181 | the paths of the columns, one per column, in order |
| CoreGitDb.DefaultViewHasNoPaths | src/core/gitdb.ts:158-181 | a table without a readable view has no view paths |
| GitPaths.NormalizedRelativePath | src/core/gitOperations.ts:24-33 | the normalised path ends in "/", and "/" stays "/" |
| GitPaths.NormalizedShape | src/core/gitOperations.ts:24-33 | the result is the input without one leading "/", plus at most a trailing "/" |
| GitPaths.NormalizedStripsOneSlash | src/core/gitOperations.ts:26-28 | a leading "/" is removed once, and a second one stays |
| GitPaths.NormalizedPlainPath | src/core/gitOperations.ts:30-32 | a path with no leading or trailing "/" only gains the trailing slash |
| GitPaths.NormalizedStable | src/core/gitOperations.ts:24-33 | normalising twice is normalising once, for paths that do not start with "/" |
| GitPaths.WhiteSpaceFrom | src/core/gitOperations.ts:129 | the first white-space position at or after a start |
| GitPaths.WhiteSpaceEnd | src/core/gitOperations.ts:129 | the end of a white-space run |
| GitPaths.SecondField | src/core/gitOperations.ts:129 | there is no second field exactly when the line has no white space; the field holds none |
| GitPaths.SecondFieldOf | src/core/gitOperations.ts:129 | a field, a white-space run and a second field give that second field |
| GitPaths.StripTrailingSlashes | node-gitdb/src/database/gitOperations.ts:160 | the path without its trailing slashes, and nothing else removed |
| GitPaths.AfterLastSlash | node-gitdb/src/database/gitOperations.ts:160 | what follows the last "/", which holds no "/" |
| GitPaths.Basename | node-gitdb/src/database/gitOperations.ts:160 | a basename holds no "/" |
| GitPaths.BasenameOf | node-gitdb/src/database/gitOperations.ts:160 | the name after the last separator is the basename, with or without directories |
| CoreGitOperations.LinePath | src/core/gitOperations.ts:129-137 | the path a line names is non-empty and holds no white space |
| CoreGitOperations.PathsKept | src/core/gitOperations.ts:127-141 | no more paths than lines; each is non-empty and accepted by the filter |
| CoreGitOperations.PathsKeptMembers | src/core/gitOperations.ts:127-141 | a path is kept exactly when the filter accepts it and some line names it |
| CoreGitOperations.PathsKeptAppend | src/core/gitOperations.ts:127-141 | parsing distributes over concatenated blocks of output |
| CoreGitOperations.ChangedMarkdownFilesAsWritten | src/core/gitOperations.ts:117-151 | blank output gives no paths; every path reported starts with the relative path |
| CoreGitOperations.RootDropsEveryChange | src/core/gitOperations.ts:139 | under the root database a name-status line is dropped as written and kept by the corrected filter |
| CoreGitOperations.ChangedMarkdownFiles | src/core/gitOperations.ts:117-151 | blank output gives no paths; off the root it agrees with the code as written |
| CoreGitOperations.ChangedMarkdownFilesMembers | src/core/gitOperations.ts:117-151 | a path is reported exactly when the output is not blank, some line names it, and it lies in the database |
| CoreGitOperations.NameStatusLine | src/core/gitOperations.ts:129 | a status, a tab and a path report that path |
| CoreGitOperations.GitOperations.constructor | src/core/gitOperations.ts:24-33 | the stored relative path is the normalised configured path |
| CoreGitOperations.GitOperations.PullLatest | src/core/gitOperations.ts:179-195 | the checkout moves to the pulled revision, and the result says whether the revision changed |
| NodeGitOperations.ChangedFiles | node-gitdb/src/database/gitOperations.ts:133-175 | blank output gives nothing; otherwise a subsequence of the lines holding exactly the lines under the path, not excluded by basename, and non-empty |
| NodeGitOperations.RootReportsEveryLine | node-gitdb/src/database/gitOperations.ts:151-152 | at the root with no exclusions, every non-empty line is reported in order |
| NodeGitOperations.ExcludedNeverReported | node-gitdb/src/database/gitOperations.ts:157-164 | a listed file name is never reported, neither at the repository root nor in any directory |
| NodeGitOperations.GitOperations.constructor | node-gitdb/src/database/gitOperations.ts:26-35 | the stored relative path is the normalised configured path, and the exclusions are kept |
| IndexRecords.NotDataNames | src/database/gitdb-index.ts:424-434 | a file that is not data is the read-me or ends in "template.md" |
| IndexRecords.DataNames | src/database/gitdb-index.ts:424-434 | any other name is data |
| IndexRecords.TableChanges | src/database/gitdb-index.ts:246-257 | one changed file per file of a table, each with its hashes |
| IndexRecords.TablesChangesMembers | src/database/gitdb-index.ts:242-260 | a change is listed exactly when its table is listed, its file is in that table, and its hashes are the file's |
| IndexRecords.GetAllFilesAsChangedFiles | src/database/gitdb-index.ts:242-260 | the nested loops list every file of every table, in listing order |
| FileNodes.ChildPath | src/database/gitdb-index.ts:530 | a child path starts with `path.index.` |
| FileNodes.NewNode | src/database/gitdb-index.ts:535-547 | the record copies the index's fields, has no fileIndexId, and holds the node's value, else its check-box state as text, else nothing |
| FileNodes.Flatten | src/database/gitdb-index.ts:527-550 | one record per tree node; the node's own record comes last; all lie under the path and copy the index's fields |
| FileNodes.PrefixesDiverge | src/database/gitdb-index.ts:530 | paths below two different child indexes differ |
| FileNodes.FlattenDistinct | src/database/gitdb-index.ts:527-550 | the paths of a flattened file are pairwise distinct |
| FileNodes.Traverse | src/database/gitdb-index.ts:527-550 | the recursive traversal appends exactly the flattened subtree |
| FileNodes.ConvertToIFileNodes | src/database/gitdb-index.ts:516-556 | throws for another indexing version, otherwise returns the traversal of the parse tree from "root" |
| FileNodes.FileNodesShape | src/database/gitdb-index.ts:516-556 | another indexing version is rejected; otherwise one record per node, the root's last at "root", distinct paths under "root" |
| FileNodes.LeafFlattens | src/database/gitdb-index.ts:527-550 | a leaf gives only its own record |
| FileNodes.OneChildFlattens | src/database/gitdb-index.ts:527-550 | a child's records come first, under `path.0.type`, then the parent's |
| ViewProjection.AggregateQuery | src/database/gitdb-index.ts:216-219 | exactly the current-version nodes of the table on the paths that have a value |
| ViewProjection.GroupedUnique | src/database/gitdb-index.ts:220-227 | the grouping lists no file twice |
| ViewProjection.GroupedFiles | src/database/gitdb-index.ts:220-227 | the grouping lists exactly the files of the nodes |
| ViewProjection.GroupedValue | src/database/gitdb-index.ts:220-227 | under each file and path, the trimmed value of the last such node |
| ViewProjection.GroupedRowsUnique | src/database/gitdb-index.ts:220-227 | each file's object lists no path twice |
| ViewProjection.GetAggregateForTableByFile | src/database/gitdb-index.ts:215-228 | the loop computes the grouping |
| ViewProjection.SetTwice | src/database/gitdb-index.ts:222-225 | setting a key twice keeps the second value where the first one went |
| ViewProjection.BuildViewFromViewRootAndAggregates | src/database/gitdb-index.ts:577-594 | the loops compute the view, file after file and path after path |
| ViewProjection.BuildViewFiles | src/database/gitdb-index.ts:577-594 | the view lists the same files as the data, in the same order, once each |
| ViewProjection.BuildViewGet | src/database/gitdb-index.ts:577-594 | a file's row in the view is built from that file's values |
| ViewProjection.BuildRowColumn | src/database/gitdb-index.ts:586-591 | with distinct columns, a path's column holds the file's value on that path |
| ViewProjection.ColumnOfIs | src/database/gitdb-index.ts:589 | a path has a given column exactly when it is that column's path |
| ViewProjection.CondensedRow | src/database/gitdb-index.ts:602-608 | one cell per header column: the file's value, or "" |
| ViewProjection.CondenseViewResponse | src/database/gitdb-index.ts:596-611 | the column names first, then one row per file, each as wide as the header |
| ViewProjection.CondensedCell | src/database/gitdb-index.ts:577-611 | the cell of file i under column j is the file's last value on that column's path, or "" |
| ViewProjection.CondensedViewCell | src/database/gitdb-index.ts:636-645 | end to end, the cell of file i under column j is the trimmed value of the last node the query found for that file and path, or "" |
| IndexRun.DeleteMany | src/database/gitdb-index.ts:76-80 | the rows kept are exactly those the query does not select |
| IndexRun.DeleteManyTwice | src/database/gitdb-index.ts:110-124 | two deletions in a row are one deletion of the rows either selects |
| IndexRun.DeleteManyNothing | src/database/gitdb-index.ts:107-125 | a query that selects nothing keeps every row |
| IndexRun.PathsChanges | src/database/gitdb-index.ts:162-180 | succeeds exactly when every path is a table and a file whose file can be read to hash it; then one change per path, in order |
| IndexRun.FirstInvalidPath | src/database/gitdb-index.ts:166-171 | the error is that of the first path that is not a table path or whose file cannot be read |
| IndexRun.ChangeNamesPath | src/database/gitdb-index.ts:164-177 | a change names its path as table "/" file, neither part holding a "/" |
| IndexRun.FirstRunIndexesEverything | src/database/gitdb-index.ts:182-194 | without a tracker revision, every file of every listed table is a change, and the tracker records them |
| IndexRun.EmptyDiffKeepsTracker | src/database/gitdb-index.ts:156-160 | an empty diff returns no changes and leaves the tracker as it was |
| IndexRun.IncrementalRun | src/database/gitdb-index.ts:156-194 | an incremental run fails exactly on a path that is not a table path or whose file cannot be read (a deleted file), keeping the tracker; otherwise one change per path, and the tracker records them |
| IndexRun.DeletedFileStallsTracker | src/database/gitdb-index.ts:156-194 | as written, a reported deletion makes the run throw before the tracker is written, so a later run from the same revision throws again and the tracker never moves |
| IndexRun.UnreadableFails | src/database/gitdb-index.ts:171 | one reported path whose file is gone makes the loop throw |
| IndexRun.PresentPaths | src/database/gitdb-index.ts:162-180 | keeps exactly the reported paths that are not table paths of a deleted file |
| IndexRun.IntendedRunAdvances | src/database/gitdb-index.ts:156-194 | with deleted files skipped, an incremental run over table paths succeeds, reports exactly the changes of the files still there and advances the tracker |
| IndexRun.FindIndexFrom | src/database/gitdb-index.ts:460-464 | the first current-version index of the file, with none before it |
| IndexRun.ReindexReplacesNodes | src/database/gitdb-index.ts:558-569 | after re-indexing a file, its nodes are exactly its new flattened tree, and every other node is as before |
| IndexRun.FlattenedOfFile | src/database/gitdb-index.ts:527-550 | every flattened node belongs to the file it came from |
| IndexRun.ReindexIdempotent | src/database/gitdb-index.ts:558-569 | re-indexing the same file twice is re-indexing it once |
| IndexRun.AsWrittenKeepsStaleNodes | src/database/gitdb-index.ts:558-569 | as written, the delete removes nothing and the new nodes are appended to all the old ones |
| IndexRun.StaleNodeExample | src/database/gitdb-index.ts:558-569 | re-parsing a one-value file keeps the "old" node as written; the corrected version keeps only "new" |
| IndexRun.ClearFile | src/database/gitdb-index.ts:74-85 | with a table and a file, only that file's current rows are removed |
| IndexRun.ClearTable | src/database/gitdb-index.ts:86-95 | with only a table, only that table's current rows are removed |
| IndexRun.ClearAll | src/database/gitdb-index.ts:96-104 | otherwise every current row is removed, and rows of other versions stay |
| IndexRun.RunPrunes | src/database/gitdb-index.ts:202-213 | after a successful run, every current row belongs to a listed table and to one of its listed files |
| IndexRun.IndexChangeKeepsOtherVersions | src/database/gitdb-index.ts:442-487 | one change touches only current-version rows |
| IndexRun.RunKeepsOtherVersions | src/database/gitdb-index.ts:202-213 | a run leaves every row of another version where it was |
| IndexRun.IndexChangeIndexes | src/database/gitdb-index.ts:460-482 | after one change its index is stored, and earlier indexed changes stay indexed |
| IndexRun.IndexChangesIndex | src/database/gitdb-index.ts:442-487 | after all changes, each listed change is indexed |
| IndexRun.RunIndexesChanges | src/database/gitdb-index.ts:202-213 | after a successful run, every change has its index, with its data flag, hashes, parse tree and time |
| IndexRun.GitDbIndex.constructor | src/database/gitdb-index.ts:63-65 | the index works over the given store |
| IndexRun.GitDbIndex.ClearIndices | src/database/gitdb-index.ts:73-105 | the store becomes the cleared store |
| IndexRun.GitDbIndex.ClearIndicesForMissingTables | src/database/gitdb-index.ts:130-142 | current rows of unlisted tables are deleted |
| IndexRun.GitDbIndex.ClearIndicesForMissingFiles | src/database/gitdb-index.ts:107-125 | for each listed table, its current rows of unlisted files are deleted |
| IndexRun.GitDbIndex.ChangedGitFile | src/database/gitdb-index.ts:163-178 | a changed path yields a change exactly when it splits into a table and a file and that file can be read, and then it is that file's change with its hashes; otherwise the invalid-change or the read error |
| IndexRun.GitDbIndex.ChangedGitFiles | src/database/gitdb-index.ts:162-180 | the loop computes the changes of the paths, or the first error |
| IndexRun.GitDbIndex.DetermineChangedFiles | src/database/gitdb-index.ts:150-196 | returns the changes to index and writes the tracker as specified, changing nothing else |
| IndexRun.GitDbIndex.UpdateFileNodes | src/database/gitdb-index.ts:558-569 | the file's nodes are replaced (corrected delete); throws exactly for another version |
| IndexRun.GitDbIndex.FindOneAndUpdate | src/database/gitdb-index.ts:460-482 | the upsert replaces the first matching row, or appends one with the next id |
| IndexRun.GitDbIndex.UpdateIndicies | src/database/gitdb-index.ts:442-487 | the store after all the changes' upserts and node updates |
| IndexRun.GitDbIndex.DetermineChangesAndUpdateIncices | src/database/gitdb-index.ts:202-213 | the store is the run's result, and the error is what the run throws |
| NodeIndex.StripPrefixAsWritten | node-gitdb/src/database/gitdb-index.ts:129-137 | the prefix as written ends in "/" |
| NodeIndex.RootPrefixAsWritten | node-gitdb/src/database/gitdb-index.ts:129-137 | under the root path the prefix as written is "/" |
| NodeIndex.StripPrefix | node-gitdb/src/database/gitdb-index.ts:129-137 | the corrected prefix is empty or ends in "/", and agrees with the code as written off the root |
| NodeIndex.StripPrefixOffRoot | node-gitdb/src/database/gitdb-index.ts:129-137 | the two prefixes differ only for the root path |
| NodeIndex.StrippedUnder | node-gitdb/src/database/gitdb-index.ts:138 | a path under the prefix loses exactly the prefix |
| NodeIndex.CollectOk | node-gitdb/src/database/gitdb-index.ts:122-157 | the loop succeeds exactly when every path succeeds |
| NodeIndex.CollectMembers | node-gitdb/src/database/gitdb-index.ts:122-157 | a successful loop holds exactly the changes of the paths |
| NodeIndex.CollectErrorStays | node-gitdb/src/database/gitdb-index.ts:139-141 | an error ends the loop |
| NodeIndex.PathChanges | node-gitdb/src/database/gitdb-index.ts:122-157 | the outcome of each path, in order |
| NodeIndex.StrippedChangesOk | node-gitdb/src/database/gitdb-index.ts:138-148 | changes are found exactly when every stripped path is a table path whose file is excluded or can be read |
| NodeIndex.StrippedChangesMembers | node-gitdb/src/database/gitdb-index.ts:122-157 | the changes found are exactly those some path reports, and none is excluded |
| NodeIndex.PathChangeParts | node-gitdb/src/database/gitdb-index.ts:138-155 | one path's outcome read off its stripped parts: invalid, excluded, unreadable, or the change |
| NodeIndex.RootStripsSeparator | node-gitdb/src/database/gitdb-index.ts:138 | under the prefix "/" a table path loses its own separator |
| NodeIndex.TablePathParts | node-gitdb/src/database/gitdb-index.ts:139-141 | a table path splits into its table and its file |
| NodeIndex.RootPathAsWritten | node-gitdb/src/database/gitdb-index.ts:129-141 | as written, the root prefix makes a table path an invalid change |
| NodeIndex.RootPathCorrected | node-gitdb/src/database/gitdb-index.ts:129-155 | the corrected root prefix keeps a table path whole |
| NodeIndex.RootRejectsEveryChange | node-gitdb/src/database/gitdb-index.ts:129-157 | under the root database every table path fails as written and gives its change once corrected |
| NodeIndex.SubdirectoryChange | node-gitdb/src/database/gitdb-index.ts:129-155 | under a subdirectory prefix, prefix + table "/" file names that table and file |
| NodeIndex.NodeGitDbIndex.constructor | node-gitdb/src/database/gitdb-index.ts:59-61 | the index works over the given store |
| NodeIndex.NodeGitDbIndex.ClearIndices | node-gitdb/src/database/gitdb-index.ts:69-89 | only current file indices selected by the arguments' truthiness are deleted: by table and file, by table, or all |
| NodeIndex.NodeGitDbIndex.ClearIndicesForMissingTables | node-gitdb/src/database/gitdb-index.ts:94-102 | current file indices of unlisted tables are deleted |
| NodeIndex.NodeGitDbIndex.ChangedPrefix | node-gitdb/src/database/gitdb-index.ts:129-137 | the prefix computed in the loop body is the corrected prefix: one leading "/" dropped, "/" appended unless the path is empty or already ends in "/" |
| NodeIndex.NodeGitDbIndex.ChangedGitFile | node-gitdb/src/database/gitdb-index.ts:129-155 | one changed path, stripped of the corrected prefix, gives an invalid-change error unless it splits into exactly a table and a file, nothing when the file is excluded, a read error when the file is gone, and otherwise that file's change with its hashes |
| NodeIndex.NodeGitDbIndex.ChangedGitFiles | node-gitdb/src/database/gitdb-index.ts:122-157 | the loop strips the corrected prefix, splits, skips excluded files and collects, or fails on the first invalid path or unreadable file |
| NodeIndex.NodeGitDbIndex.DetermineChangedFiles | node-gitdb/src/database/gitdb-index.ts:110-170 | returns the changes to index under the corrected prefix, and writes the tracker unless the diff was empty or a path was invalid |
| NodeIndex.ExcludedNeverIndexed | node-gitdb/src/database/gitdb-index.ts:144-168 | on an incremental run, excluded file names never reach the result or the tracker, and an empty diff writes no tracker |

## Left out

- Asynchrony, the network, and the git and filesystem calls are not modelled. This covers clone, checkout, pull, diff, hash-object, readdir, stat and readFileSync. Their results are fields of `Checkout`, or parameters.
- `moment` date parsing, `String.prototype.localeCompare` and MongoDB's string order for `.sort('file')` are parameters (`Host`, `fileOrder`). Array sorting is a stable insertion sort.
- src/database/gitdb.ts is not part of this model. `changedSince`, the table listing and the view root are what it would return. The view root of the view builder is a flat path-to-column object.
- MongoDB is not modelled: it becomes sequences of rows with the queries the code issues. Left out are mongoose schema strict mode, the unique indexes, write concerns and concurrent writers.
- The remark markdown parser is not modelled: a file's tree is `Checkout.parse`.
- The read helpers of the index are not modelled, because they only forward a query. These are getTableFileIndex*, the index's getTables and getTableFiles, getAggregateForTable, getAggregateQueryResponse and getRenderedView.
- writeIndexTracker is folded into DetermineChangedFiles: the tracker of the current version is replaced.
- node-gitdb's updateIndicies and determineChangesAndUpdateIncices are not modelled. Its version of getAllFilesAsChangedFiles is not modelled: it repeats the one of src/database/gitdb-index.ts.
- exceljs is not modelled: fonts, number formats, column widths and the workbook buffer are left out. A currency cell keeps its text, because its `parseFloat` is floating point.
- Exceljs `eachCell` skips empty cells, and that is not modelled.
- HyperFormula evaluation is a parameter of CalculateDataFormulas.
- Formula.GetVariables: the for-in over extra keys a caller adds to the base variables is not modelled; only the three documented keys are.
- IndexRun.GitDbIndex.UpdateFileNodes: the model uses the corrected delete by table, file and version (see Findings); the code as written is NodesAfterUpdateAsWritten.
- NodeIndex.NodeGitDbIndex.DetermineChangedFiles: the model strips the corrected prefix; the code as written is StripPrefixAsWritten.
- NodeIndex.NodeGitDbIndex.ChangedPrefix: computes the corrected prefix, which keeps the root path empty; the code as written appends "/" to it (StripPrefixAsWritten).
- CoreGitOperations.ChangedMarkdownFiles: this is the corrected filter; the code as written is ChangedMarkdownFilesAsWritten.
- Console logging and the `?? null` fallback after `trim()` are not modelled; the fallback cannot apply to a string.
- Throwing `readFileSync` is modelled only where a changed path's file is hashed (`Checkout.readable`); the message is abstracted to the reported path, since Node's text names the absolute file. JSON parse errors outside getViewJson's own try are not modelled.
- IndexRecords.TablesChanges: a first run hashes only listed files, which the checkout is taken to be able to read, so it cannot fail on a read.
- IndexRun.GitDbIndex.DetermineChangedFiles: follows the code as written on a deleted file (the run throws and keeps the tracker, DeletedFileStallsTracker); the corrected loop that skips it is IntendedPathsChanges (see Findings).
- NodeIndex.NodeGitDbIndex.ChangedGitFile: strips the corrected prefix (StripPrefix), which keeps the root path empty; the code as written appends "/" to it (StripPrefixAsWritten, see Findings).
- NodeIndex.NodeGitDbIndex.ChangedGitFiles: strips the corrected prefix, as ChangedGitFile does; the code as written is StripPrefixAsWritten.
- NodeIndex.NodeGitDbIndex.DetermineChangedFiles: a deleted file reported by the diff throws as in IndexRun, and the same stuck tracker follows; it is not restated for this indexer.
- IndexRecords.Node: `checked` is an optional boolean, so mdast's `checked: null` is not representable; src/database/gitdb-index.ts:544-545 would store it as "false".
- Integers are unbounded, and the source's numbers stay far below 2^53 here. Column numbers and offsets are plain integers.

## Findings

| source | as written | input that shows it | evidently intended | confidence | as-written member | corrected member |
|---|---|---|---|---|---|---|
| src/core/excel.ts:18-22 | `base[remainder - 1]` with `remainder = n % 26` reads index -1 when the digit is zero | column 26 is named "Aundefined" | bijective base 26: 26 → "Z", 27 → "AA" | not executed | CoreExcel.LetterKeyAsWritten | CoreExcel.LetterKeyIntended |
| src/database/gitdb-index.ts:171 | a reported path whose file was deleted makes `readFileSync` throw before `writeIndexTracker` | after "people/alice.md" is deleted every later run throws, since the tracker keeps the old revision | skip deleted files (the pruning of missing files removes their rows) and advance the tracker | not executed | IndexRun.DeletedFileStallsTracker | IndexRun.IntendedRunAdvances |
| src/database/gitdb-index.ts:563-565 | old nodes are deleted by `fileIndexId`, which the inserted nodes (535-547) never carry | re-indexing "people/alice.md" after "old" became "new" keeps both nodes | delete the file's nodes by table, file and indexing version before inserting | not executed | IndexRun.StaleNodeExample | IndexRun.ReindexReplacesNodes |
| node-gitdb/src/database/gitdb-index.ts:129-141 | with the default database path "/" (node-gitdb/src/environment.ts:12) the prefix is "/", and `replace` deletes the table separator | "people/alice.md" becomes "peoplealice.md" and the run throws | the root database strips nothing | not executed | NodeIndex.RootRejectsEveryChange | NodeIndex.RootPathCorrected |
| src/core/gitOperations.ts:139 | changed paths are kept when they start with the relative path, which is "/" for the root database | git reports "people/alice.md", which does not start with "/", so nothing is returned | the root database keeps every path (as node-gitdb/src/database/gitOperations.ts:151-152 does) | not executed | CoreGitOperations.ChangedMarkdownFilesAsWritten | CoreGitOperations.ChangedMarkdownFilesMembers |
