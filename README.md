# Block resource check, modelled in Dafny

`check_blocks.py` cross-checks a datapack against a registry of block names.
It reads the registry values and strips the `box3:` namespace. It then scans two
directories of `.json` files: `recipe/` and `loot_table/blocks/`. Each file stem
is assigned to the longest block name that qualifies for it, and a stem that no
block claims is an "extra" file. Finally it writes a Markdown report: the counts,
a table of blocks ordered by completeness, and the extra files of each directory.

This project models that logic. The file system, the JSON parser and the report
file are replaced by parameters and results.

- `registry.dfy` (module `Registry`): the prefix strip of `load_block_names_from_block_id`.
- `fileindex.dfy` (module `FileIndex`): pathlib's `suffix` and `stem` rules, the stem loop of
  `index_block_files` and `list_json_basenames`. A directory is `Option<seq<Entry>>`: its
  entries in `iterdir()` order, or `None` when it does not exist.
- `matching.dfy` (module `Matching`): `index_block_files`. The Python loop over the set of blocks
  becomes a loop that takes any remaining element. It is proved equal to an order-free reference
  definition (`LongestMatch`), which tries the prefixes of the stem from the longest down.
- `totals.dfy` (module `Totals`): the file totals of `main` and the count identity behind them.
  `SumSizes` states the sum of the bucket sizes; `TotalFiles` is the loop that computes it.
- `report.dfy` (module `Report`): `sort_key`, the sorted table order, cell and row rendering, the
  extra-file sections and the report text.
  `list_json_basenames` is modelled as written even though `main` never calls it.
- `check.dfy` (module `Check`): `main` as one run from the inputs to the report text.
- `text.dfy` and `wrappers.dfy`: string helpers and `Option`.

Behaviour worth noting:

- The prefix stripped is `box3:` (`MOD_ID` is `"box3"`), not an arbitrary namespace.
- The extra-file lists are reported in directory order. The script never sorts them.
- Ties between qualifying blocks of equal length cannot occur, because such blocks would be equal
  (`Matching.SameLengthSameBlock`). So the script is deterministic even though it iterates over a set.

## Model

| member | source | states |
|---|---|---|
| `Registry.Normalize` | check_blocks.py:57-61 | a value stays a string exactly when it was one; a non-string is unchanged; a string result is either the original or the original minus a leading `box3:` |
| `Registry.StripsPrefix` | check_blocks.py:58-59 | `"box3:" + name` becomes `name` |
| `Registry.KeepsUnprefixed` | check_blocks.py:60-61 | every value not starting with `box3:` passes through unchanged |
| `Registry.NormalizedSize` | check_blocks.py:52-63 | the set of stripped names has no more elements than the set of raw values |
| `Registry.LoadBlockNames` | check_blocks.py:49-63 | the result holds exactly the normalised registry values, whatever the iteration order and however many duplicates; it is no larger than the set of distinct values; all-string input gives all-string names |
| `Text.StrLess` | check_blocks.py:140 | Python's string `<` (code point by code point, a proper prefix first) never holds between equal strings |
| `Text.StrLessIrreflexive` | check_blocks.py:140 | Python's string `<` is irreflexive |
| `Text.StrLessTransitive` | check_blocks.py:140 | Python's string `<` is transitive |
| `Text.StrLessTotal` | check_blocks.py:140 | two distinct strings are always ordered one way or the other |
| `Text.NatToString` | check_blocks.py:121-123 | an integer renders as a non-empty run of decimal digits with no leading zero |
| `Text.CanonicalIsNatToString` | check_blocks.py:121-123 | digits without a leading zero are the `str` of their value, so a number has only one printed form |
| `Text.NatToStringRoundTrip` | check_blocks.py:143-144 | the rendered digits read back as the same number |
| `Text.JoinLines` | check_blocks.py:171 | `"\n".join` starts with the first line, and a newline follows it when there is a second line |
| `Text.NoNewlineAppend` | check_blocks.py:145 | a concatenation is newline-free exactly when both parts are |
| `Text.LinesWithoutNewlineAppend` | check_blocks.py:117-169 | appending newline-free line lists gives a newline-free list |
| `Text.JoinThenNewline` | check_blocks.py:171 | `"\n".join(lines) + "\n"` ends every line with a newline, so the text ends with `"\n"` |
| `Text.TerminatedInjective` | check_blocks.py:171 | when no line holds a newline, the text determines the lines |
| `FileIndex.LastIndexOf` | check_blocks.py:73 | `rfind`: the index holds the character and no later index does, or -1 when none does |
| `FileIndex.Suffix` | check_blocks.py:73 | pathlib's suffix is empty or a dot and at least one more character that end the name, after at least one character |
| `FileIndex.Stem` | check_blocks.py:74 | the stem followed by the suffix gives back the whole name |
| `FileIndex.JsonSuffixRule` | check_blocks.py:73-74 | the pathlib suffix is `.json` exactly when the name ends in `.json` and is longer than 5 characters; the stem is then the name without those 5 |
| `FileIndex.JsonEntryStem` | check_blocks.py:73-74 | an entry yields stem `s` exactly when `s` is non-empty and the entry is the regular file `<s>.json` |
| `FileIndex.JsonStemsMembers` | check_blocks.py:72-74 | a stem is found exactly when it is non-empty and a regular file `<stem>.json` is in the directory |
| `FileIndex.JsonStemsAppend` | check_blocks.py:86-89 | stems are collected in directory order |
| `FileIndex.NewStemNotListed` | check_blocks.py:86-89 | a `.json` file whose name no earlier entry has yields a stem not yet collected |
| `FileIndex.JsonStemsDistinct` | check_blocks.py:86-89 | a directory with distinct entry names yields distinct stems |
| `FileIndex.CollectStems` | check_blocks.py:86-89 | the loop collects the stems of the regular `.json` files, in order |
| `FileIndex.ListJsonBasenames` | check_blocks.py:66-75 | the result holds exactly the stems of the regular `.json` files; it is empty when the directory is missing |
| `Matching.Qualifies` | check_blocks.py:94 | a qualifying block is always a prefix of the stem |
| `Matching.QualifiesAsPrefix` | check_blocks.py:94 | a block qualifies exactly when it is a prefix of the stem that ends the stem or is followed by `_` |
| `Matching.SameLengthSameBlock` | check_blocks.py:93-96 | two qualifying blocks of one length are the same block |
| `Matching.LongestIsUnique` | check_blocks.py:93-96 | at most one block is the longest qualifying block |
| `Matching.PrefixMatchSpec` | check_blocks.py:92-96 | trying prefixes from length k down finds the longest qualifying block of length at most k, or shows that none exists |
| `Matching.LongestMatchCorrect` | check_blocks.py:92-96 | the reference match is `b` exactly when `b` is the longest qualifying block; it is absent exactly when no block qualifies |
| `Matching.BestBlock` | check_blocks.py:92-96 | the loop with the strict `>` returns the longest qualifying block for every iteration order, or nothing exactly when no block qualifies |
| `Matching.BucketSnocAt` | check_blocks.py:98-99 | a new stem joins one bucket exactly when that bucket's block is its match |
| `Matching.BucketsSnoc` | check_blocks.py:98-101 | placing one more stem adds it to its matching block's bucket and leaves every other bucket unchanged, or changes no bucket when nothing matches |
| `Matching.IndexBlockFiles` | check_blocks.py:78-103 | the buckets and extra list equal the reference assignment of the directory's stems; a missing directory gives all-empty buckets and no extra files |
| `Matching.UnmatchedMembers` | check_blocks.py:98-101 | a stem is extra exactly when it was found and no block qualifies for it |
| `Matching.UnmatchedAppend` | check_blocks.py:100-101 | the extra list keeps directory order |
| `Matching.BucketMembersQualify` | check_blocks.py:94-99 | a stem is in `b`'s bucket only if it was found, `b` is its longest qualifying block, and it equals `b` or starts with `b + "_"` |
| `Matching.ExactlyOnePlace` | check_blocks.py:91-101 | every found stem is either extra or in some bucket, never both, and never in two buckets |
| `Matching.BucketKeys` | check_blocks.py:83 | there is one bucket per block name and no other |
| `Matching.NoStemsNoFiles` | check_blocks.py:79-81 | with no stems, every bucket is empty and there are no extra files |
| `Matching.FooExample` | check_blocks.py:94 | for block `foo`, the stems `foo` and `foo_bar` go to `foo` and `foobar` is extra |
| `Matching.IronOreExample` | check_blocks.py:93-96 | of blocks `ore` and `iron_ore`, the stem `iron_ore_block` goes to `iron_ore` |
| `Totals.SumSizesRemove` | check_blocks.py:189 | the sum of bucket sizes does not depend on the order of the keys |
| `Totals.AddToBucket` | check_blocks.py:99 | adding a new stem to a bucket raises the sum by one |
| `Totals.TotalFiles` | check_blocks.py:189 | the total is the sum of the bucket sizes plus the number of extra files |
| `Totals.EmptySum` | check_blocks.py:81 | all-empty buckets sum to zero |
| `Totals.CountIdentity` | check_blocks.py:91-101 | for distinct stems, bucket sizes plus extras equal the number of stems |
| `Totals.DistinctCard` | check_blocks.py:189 | a list of distinct stems has as many elements as its set |
| `Totals.ReportedTotal` | check_blocks.py:189-194 | the reported total is the number of distinct `.json` stems in the directory |
| `Report.Count` | check_blocks.py:134-135 | `len(map.get(name, set()))` is 0 exactly when the name has no entry or an empty set |
| `Report.Flag` | check_blocks.py:136-137 | the flag is 0 exactly when the count is positive, else 1 |
| `Report.KeyOf` | check_blocks.py:133-138 | the recipe and loot flags are the flags of the block's two counts; the first field counts the missing categories (0 exactly when both exist, 2 exactly when both are missing); the last field is the name |
| `Report.KeyLess` | check_blocks.py:140 | a key is only below a different key, and never below one with fewer missing categories |
| `Report.KeyLessIrreflexive` | check_blocks.py:140 | no key is less than itself |
| `Report.KeyLessTransitive` | check_blocks.py:140 | the tuple order is transitive |
| `Report.KeyLessTotal` | check_blocks.py:140 | keys of distinct blocks are always ordered |
| `Report.KeyLessAsymmetric` | check_blocks.py:140 | the tuple order is asymmetric |
| `Report.OrderedDistinct` | check_blocks.py:140 | an ordered table repeats no block |
| `Report.OrderedUnique` | check_blocks.py:140 | two ordered listings of the same blocks are equal, so the table order is deterministic |
| `Report.CompleteFirst` | check_blocks.py:132-140 | rows are ascending in missing-category count, so fully complete blocks come before all others; among rows with the same count, a block with a recipe comes before one without; rows that agree on both are in ascending name order |
| `Report.MinByKey` | check_blocks.py:140 | returns the block whose key is strictly below every other candidate's |
| `Report.SortBlocks` | check_blocks.py:140 | the table is a permutation of the block names in strictly ascending key order |
| `Report.Cell` | check_blocks.py:143-144 | a cell holds no newline and starts with `❌` exactly when the count is 0 |
| `Report.CellMeaning` | check_blocks.py:143-144 | a cell is `❌` exactly when the count is 0; otherwise it is `🎉 x` followed by digits that read back as the count |
| `Report.RowLine` | check_blocks.py:145 | a row starts with `\| <name> \| ` and holds no newline when the name holds none |
| `Report.RowLineShape` | check_blocks.py:145 | a row built from newline-free cells starts with the name's column and is newline-free when the name is |
| `Report.RowLinesWithoutNewline` | check_blocks.py:140-145 | the table rows are newline-free when the block names are |
| `Report.LabelledCount` | check_blocks.py:121-123 | the line `caption + str(n)` reads back as `n`, and it is the only line that reads back as `n` |
| `Report.Header` | check_blocks.py:119-130 | the header has ten newline-free lines, and lines 3 to 5 are each their caption followed by the digits of the block count and of the two file totals (zero included) |
| `Report.BulletsWithoutNewline` | check_blocks.py:155-156 | a bullet is newline-free when its file name is |
| `Report.ExtraSection` | check_blocks.py:151-159 | a section is a blank line, its title, a blank line and one bullet per extra file or the placeholder; it is newline-free when the title and names are |
| `Report.ReportLinesWithoutNewline` | check_blocks.py:117-169 | no report line holds a newline when no block or file name does |
| `Report.ReportTextDeterminesLines` | check_blocks.py:117-171 | when no name holds a newline, the report text determines the list of lines it was joined from |
| `Report.PlaceholderIffEmpty` | check_blocks.py:153-159 | the `- 无` bullet appears in a section exactly when it lists no extra file |
| `Report.BulletsInOrder` | check_blocks.py:155-156 | the i-th extra file is listed as `- <name>.json` on the i-th bullet line |
| `Report.ReportLength` | check_blocks.py:117-169 | the report has 18 fixed lines, one line per block, and one per extra file with at least one per section |
| `Report.RowPlacement` | check_blocks.py:140-145 | the row of the i-th block in sorted order is line 10 + i of the report |
| `Report.AppendRows` | check_blocks.py:140-145 | appends one row per block, in table order |
| `Report.AppendBullets` | check_blocks.py:155-156 | appends one bullet per extra file, in order |
| `Report.AppendExtraSection` | check_blocks.py:151-159 | appends the blank line, the title, a blank line and the bullets or placeholder |
| `Report.WriteMarkdownReport` | check_blocks.py:106-171 | the table is the sorted permutation of the blocks; the text is the report lines, each newline-terminated, and it ends with `"\n"` |
| `Check.RunCheck` | check_blocks.py:178-206 | a missing registry gives no report; otherwise the names are the normalised registry strings, each directory is indexed by the longest-match rule, each total is the number of distinct `.json` stems, and the text renders the sorted table |

## Left out

- Reading `block_id.json` and parsing it with `json.load` (check_blocks.py:50-51). The registry is taken as the already-parsed sequence of its values; a value that is not hashable is not modelled.
- Check.RunCheck: requires every registry value to be a string, which excludes some runs that succeed in Python. `LoadBlockNames` models non-string values passing through unchanged. A non-string name makes Python raise `TypeError` at line 94 once a stem is examined, or in `sorted` at line 140 when it is compared with a string. When there are no stems and `sorted` compares nothing or only numbers and booleans, the Python run succeeds: a registry `{"a": 42}` with missing or empty directories writes the row `| 42 | ❌ | ❌ |`. Neither those runs nor the crash are modelled.
- File system access: `Path.resolve`, `exists`, `iterdir`, `is_file` (lines 39, 67-73, 79, 87-88, 180). A directory is the list of its entries, and a missing path is `None`.
- Writing the report file and every `print` (lines 68, 80, 172-175, 181, 185, 190, 195, 208). The report text is returned instead.
- The path constants (lines 35-45): configuration only.
- Report.SortBlocks: Python's `sorted` (Timsort) is modelled by repeatedly taking the least remaining key. `Report.OrderedUnique` shows that every correct sort yields the same table.
- Strings: a Dafny `char` is a Unicode scalar value, and Python's string comparison and `str.startswith` also work code point by code point. A Python `str` can also hold lone surrogates, which no Dafny `char` can: file names decoded with `surrogateescape`, or a `"\ud800"` escape read by `json.load`. Names holding lone surrogates are not modelled.
