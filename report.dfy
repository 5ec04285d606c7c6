/**
  `write_markdown_report` (check_blocks.py:106-175) up to the report text at
  line 171: the header with the counts, the table of blocks ordered by
  `sort_key` (133-140), one row per block (141-145), and the two sections
  listing extra files (147-169).
 */
module Report {
  import opened Wrappers
  import opened Text

  /** `len(m.get(name, set()))`. */
  function Count(m: map<string, set<string>>, name: string): (n: nat)
    ensures n == 0 <==> name !in m || m[name] == {}
  {
    if name in m then |m[name]| else 0
  }

  /** The 4-tuple returned by `sort_key` (lines 133-138). */
  datatype SortKey = SortKey(missing: nat, recipeFlag: nat, lootFlag: nat, name: string)

  /** `0 if count > 0 else 1`. */
  function Flag(count: nat): (f: nat)
    ensures f <= 1 && (f == 0 <==> count > 0)
  {
    if count > 0 then 0 else 1
  }

  /** `sort_key(name)`: the first field counts the categories the block is missing. */
  function KeyOf(recipe: map<string, set<string>>, loot: map<string, set<string>>, name: string): (k: SortKey)
    ensures k.name == name
    ensures k.recipeFlag == Flag(Count(recipe, name)) && k.lootFlag == Flag(Count(loot, name))
    ensures k.missing == 0 <==> Count(recipe, name) > 0 && Count(loot, name) > 0
    ensures k.missing == 2 <==> Count(recipe, name) == 0 && Count(loot, name) == 0
    ensures k.missing <= 2 && k.missing == k.recipeFlag + k.lootFlag
  {
    var recipeFlag := Flag(Count(recipe, name));
    var lootFlag := Flag(Count(loot, name));
    SortKey(recipeFlag + lootFlag, recipeFlag, lootFlag, name)
  }

  /** Python's `<` on the tuples: field by field, the name last. */
  predicate KeyLess(a: SortKey, b: SortKey): (less: bool)
    ensures less ==> a != b
    ensures less ==> a.missing <= b.missing
  {
    if a.missing != b.missing then a.missing < b.missing
    else if a.recipeFlag != b.recipeFlag then a.recipeFlag < b.recipeFlag
    else if a.lootFlag != b.lootFlag then a.lootFlag < b.lootFlag
    else StrLess(a.name, b.name)
  }

  lemma KeyLessIrreflexive(a: SortKey)
    ensures !KeyLess(a, a)
  {
    StrLessIrreflexive(a.name);
  }

  lemma KeyLessTransitive(a: SortKey, b: SortKey, c: SortKey)
    requires KeyLess(a, b) && KeyLess(b, c)
    ensures KeyLess(a, c)
  {
    if a.missing == b.missing == c.missing && a.recipeFlag == b.recipeFlag == c.recipeFlag
      && a.lootFlag == b.lootFlag == c.lootFlag
    {
      StrLessTransitive(a.name, b.name, c.name);
    }
  }

  /** Keys of distinct blocks are never tied: the order is total. */
  lemma KeyLessTotal(a: SortKey, b: SortKey)
    requires a.name != b.name
    ensures KeyLess(a, b) || KeyLess(b, a)
  {
    StrLessTotal(a.name, b.name);
  }

  lemma KeyLessAsymmetric(a: SortKey, b: SortKey)
    requires KeyLess(a, b)
    ensures !KeyLess(b, a)
  {
    if KeyLess(b, a) {
      KeyLessTransitive(a, b, a);
      KeyLessIrreflexive(a);
    }
  }

  /** The rows are in strictly ascending `sort_key` order. */
  predicate Ordered(rows: seq<string>, recipe: map<string, set<string>>, loot: map<string, set<string>>)
  {
    forall i, j :: 0 <= i < j < |rows| ==> KeyLess(KeyOf(recipe, loot, rows[i]), KeyOf(recipe, loot, rows[j]))
  }

  /** The rows list every block exactly once: a permutation of the set. */
  ghost predicate ListsExactly(rows: seq<string>, blocks: set<string>)
  {
    |rows| == |blocks| && forall b :: b in rows <==> b in blocks
  }

  lemma OrderedDistinct(rows: seq<string>, recipe: map<string, set<string>>, loot: map<string, set<string>>, i: int, j: int)
    requires Ordered(rows, recipe, loot) && 0 <= i < j < |rows|
    ensures rows[i] != rows[j]
  {
    KeyLessIrreflexive(KeyOf(recipe, loot, rows[i]));
  }

  /**
    `sorted(block_names, key=sort_key)` has only one possible result: two
    ordered listings of the same blocks are equal. So the table does not depend
    on the order in which the set yields its elements.
   */
  lemma {:induction false} OrderedUnique(a: seq<string>, b: seq<string>, recipe: map<string, set<string>>, loot: map<string, set<string>>)
    requires Ordered(a, recipe, loot) && Ordered(b, recipe, loot)
    requires forall x :: x in a <==> x in b
    ensures a == b
  {
    assert a != [] ==> a[0] in b;
    assert b != [] ==> b[0] in a;
    if a != [] && b != [] {
      if a[0] != b[0] {
        var i :| 0 <= i < |a| && a[i] == b[0];
        var j :| 0 <= j < |b| && b[j] == a[0];
        KeyLessAsymmetric(KeyOf(recipe, loot, a[0]), KeyOf(recipe, loot, b[0]));
        assert false;
      }
      forall x
        ensures x in a[1..] <==> x in b[1..]
      {
        if x in a[1..] {
          var i :| 1 <= i < |a| && a[i] == x;
          OrderedDistinct(a, recipe, loot, 0, i);
          assert x in a && x in b;
          var j :| 0 <= j < |b| && b[j] == x;
          assert j != 0;
          assert b[1..][j - 1] == x;
        }
        if x in b[1..] {
          var j :| 1 <= j < |b| && b[j] == x;
          OrderedDistinct(b, recipe, loot, 0, j);
          assert x in b && x in a;
          var i :| 0 <= i < |a| && a[i] == x;
          assert i != 0;
          assert a[1..][i - 1] == x;
        }
      }
      OrderedUnique(a[1..], b[1..], recipe, loot);
      assert a == [a[0]] + a[1..] && b == [b[0]] + b[1..];
    }
  }

  /**
    Fully complete blocks come first, then blocks missing one category, then
    blocks missing both. Among blocks missing one category, those with a recipe
    come first; within each group the names ascend.
   */
  lemma CompleteFirst(rows: seq<string>, recipe: map<string, set<string>>, loot: map<string, set<string>>, i: int, j: int)
    requires Ordered(rows, recipe, loot) && 0 <= i < j < |rows|
    ensures KeyOf(recipe, loot, rows[i]).missing <= KeyOf(recipe, loot, rows[j]).missing
    ensures Count(recipe, rows[j]) > 0 && Count(loot, rows[j]) > 0 ==>
      Count(recipe, rows[i]) > 0 && Count(loot, rows[i]) > 0
    ensures KeyOf(recipe, loot, rows[i]).missing == KeyOf(recipe, loot, rows[j]).missing ==>
      (Count(recipe, rows[j]) > 0 ==> Count(recipe, rows[i]) > 0)
    ensures (KeyOf(recipe, loot, rows[i]).missing == KeyOf(recipe, loot, rows[j]).missing &&
             (Count(recipe, rows[i]) > 0 <==> Count(recipe, rows[j]) > 0))
      ==> StrLess(rows[i], rows[j])
  {
  }

  /** One step of the sort: the block with the least key among those not yet listed. */
  method MinByKey(candidates: set<string>, recipe: map<string, set<string>>, loot: map<string, set<string>>)
    returns (m: string)
    requires candidates != {}
    ensures m in candidates
    ensures forall b :: b in candidates && b != m ==> KeyLess(KeyOf(recipe, loot, m), KeyOf(recipe, loot, b))
  {
    m :| m in candidates;
    var rest := candidates - {m};
    while rest != {}
      invariant rest <= candidates && m in candidates && m !in rest
      invariant forall b :: b in candidates && b !in rest && b != m ==> KeyLess(KeyOf(recipe, loot, m), KeyOf(recipe, loot, b))
      decreases rest
    {
      var b :| b in rest;
      KeyLessTotal(KeyOf(recipe, loot, b), KeyOf(recipe, loot, m));
      if KeyLess(KeyOf(recipe, loot, b), KeyOf(recipe, loot, m)) {
        forall c | c in candidates && c !in rest && c != m
          ensures KeyLess(KeyOf(recipe, loot, b), KeyOf(recipe, loot, c))
        {
          KeyLessTransitive(KeyOf(recipe, loot, b), KeyOf(recipe, loot, m), KeyOf(recipe, loot, c));
        }
        m := b;
      }
      rest := rest - {b};
    }
  }

  lemma OrderedSnoc(rows: seq<string>, m: string, recipe: map<string, set<string>>, loot: map<string, set<string>>)
    requires Ordered(rows, recipe, loot)
    requires forall i :: 0 <= i < |rows| ==> KeyLess(KeyOf(recipe, loot, rows[i]), KeyOf(recipe, loot, m))
    ensures Ordered(rows + [m], recipe, loot)
  {
  }

  /** Line 140: `sorted(block_names, key=sort_key)`. */
  method SortBlocks(blocks: set<string>, recipe: map<string, set<string>>, loot: map<string, set<string>>)
    returns (rows: seq<string>)
    ensures ListsExactly(rows, blocks)
    ensures Ordered(rows, recipe, loot)
  {
    rows := [];
    var rest := blocks;
    while rest != {}
      invariant rest <= blocks
      invariant forall b :: b in rows <==> b in blocks && b !in rest
      invariant |rows| + |rest| == |blocks|
      invariant Ordered(rows, recipe, loot)
      invariant forall i, b :: 0 <= i < |rows| && b in rest ==> KeyLess(KeyOf(recipe, loot, rows[i]), KeyOf(recipe, loot, b))
      decreases rest
    {
      var m := MinByKey(rest, recipe, loot);
      OrderedSnoc(rows, m, recipe, loot);
      forall i, b | 0 <= i < |rows + [m]| && b in rest - {m}
        ensures KeyLess(KeyOf(recipe, loot, (rows + [m])[i]), KeyOf(recipe, loot, b))
      {
      }
      rows := rows + [m];
      rest := rest - {m};
    }
  }

  const MISSING: string := "❌"
  const DONE: string := "🎉 x"
  const NONE_BULLET: string := "- 无"
  const RECIPE_TITLE: string := "### 合成配方（recipe）目录中多余的文件"
  const LOOT_TITLE: string := "### 方块战利品表（loot_table/blocks）目录中多余的文件"

  /** Lines 143-144: one table cell. */
  function Cell(count: nat): (cell: string)
    ensures NoNewline(cell)
    ensures |cell| > 0 && (cell[0] == MISSING[0] <==> count == 0)
  {
    if count == 0 then MISSING else DONE + NatToString(count)
  }

  /** A cell shows the missing marker exactly for a zero count, and otherwise the count can be read back. */
  lemma CellMeaning(count: nat)
    ensures Cell(count) == MISSING <==> count == 0
    ensures count > 0 ==>
      StartsWith(Cell(count), DONE) && IsDecimal(Cell(count)[|DONE|..]) &&
      DecimalValue(Cell(count)[|DONE|..]) == count
  {
    if count > 0 {
      var c := Cell(count);
      assert c[0] != MISSING[0];
      assert c[..|DONE|] == DONE && c[|DONE|..] == NatToString(count);
      NatToStringRoundTrip(count);
    }
  }

  /** Line 145: one table row. */
  function RowLine(name: string, recipe: map<string, set<string>>, loot: map<string, set<string>>): (line: string)
    ensures StartsWith(line, "| " + name + " | ")
    ensures NoNewline(name) ==> NoNewline(line)
  {
    RowLineShape(name, Cell(Count(recipe, name)), Cell(Count(loot, name)));
    "| " + name + " | " + Cell(Count(recipe, name)) + " | " + Cell(Count(loot, name)) + " |"
  }

  /** A row built from newline-free cells starts with its name column and is as newline-free as the name. */
  lemma RowLineShape(name: string, recipeCell: string, lootCell: string)
    requires NoNewline(recipeCell) && NoNewline(lootCell)
    ensures var line := "| " + name + " | " + recipeCell + " | " + lootCell + " |";
      StartsWith(line, "| " + name + " | ") && (NoNewline(name) ==> NoNewline(line))
  {
    var line := "| " + name + " | " + recipeCell + " | " + lootCell + " |";
    assert line[..|"| " + name + " | "|] == "| " + name + " | ";
    if NoNewline(name) {
      NoNewlineAppend("| ", name);
      NoNewlineAppend("| " + name, " | ");
      NoNewlineAppend("| " + name + " | ", recipeCell);
      NoNewlineAppend("| " + name + " | " + recipeCell, " | ");
      NoNewlineAppend("| " + name + " | " + recipeCell + " | ", lootCell);
      NoNewlineAppend("| " + name + " | " + recipeCell + " | " + lootCell, " |");
    }
  }

  function RowLines(rows: seq<string>, recipe: map<string, set<string>>, loot: map<string, set<string>>): (lines: seq<string>)
    ensures |lines| == |rows|
  {
    seq(|rows|, i requires 0 <= i < |rows| => RowLine(rows[i], recipe, loot))
  }

  lemma RowLinesSnoc(rows: seq<string>, recipe: map<string, set<string>>, loot: map<string, set<string>>, i: nat)
    requires i < |rows|
    ensures RowLines(rows[..i + 1], recipe, loot) == RowLines(rows[..i], recipe, loot) + [RowLine(rows[i], recipe, loot)]
  {
  }

  /** The captions of the three count lines (lines 121-123). */
  const BLOCKS_LABEL: string := "- 总方块数量："
  const RECIPE_LABEL: string := "- recipe 文件数："
  const LOOT_LABEL: string := "- loot_table/blocks 文件数："

  /**
    The number a count line prints after `caption`: `None` unless the line is the
    caption followed by digits as `str` prints them.
   */
  function CountOn(line: string, caption: string): Option<nat>
  {
    if StartsWith(line, caption) && Canonical(line[|caption|..]) then Some(DecimalValue(line[|caption|..])) else None
  }

  /** A count line reads back as the count it prints, and it is the only line that does. */
  lemma LabelledCount(caption: string, n: nat, line: string)
    requires NoNewline(caption)
    ensures CountOn(caption + NatToString(n), caption) == Some(n)
    ensures NoNewline(caption + NatToString(n))
    ensures CountOn(line, caption) == Some(n) ==> line == caption + NatToString(n)
  {
    var printed := caption + NatToString(n);
    assert printed[..|caption|] == caption && printed[|caption|..] == NatToString(n);
    NatToStringRoundTrip(n);
    NoNewlineAppend(caption, NatToString(n));
    if CountOn(line, caption) == Some(n) {
      var digits := line[|caption|..];
      CanonicalIsNatToString(digits);
      assert line == line[..|caption|] + digits;
    }
  }

  /** Lines 119-130: the title, the three counts and the table head. */
  function Header(blockCount: nat, totalRecipe: nat, totalLoot: nat): (lines: seq<string>)
    ensures |lines| == 10 && LinesWithoutNewline(lines)
    ensures CountOn(lines[2], BLOCKS_LABEL) == Some(blockCount)
    ensures CountOn(lines[3], RECIPE_LABEL) == Some(totalRecipe)
    ensures CountOn(lines[4], LOOT_LABEL) == Some(totalLoot)
  {
    FixedHeaderLines();
    LabelledCount(BLOCKS_LABEL, blockCount, "");
    LabelledCount(RECIPE_LABEL, totalRecipe, "");
    LabelledCount(LOOT_LABEL, totalLoot, "");
    [HEADER_TITLE, "", BLOCKS_LABEL + NatToString(blockCount), RECIPE_LABEL + NatToString(totalRecipe),
     LOOT_LABEL + NatToString(totalLoot), "", OVERVIEW_TITLE, "", TABLE_HEAD, TABLE_RULE]
  }

  /** The fixed lines of the report (lines 119, 127, 129, 130 and 149). */
  const HEADER_TITLE := "# 方块检查报告"
  const OVERVIEW_TITLE := "## 方块完成情况总览"
  const TABLE_HEAD := "| 方块名 | 合成配方 | 破坏掉落 |"
  const TABLE_RULE := "| ------ | -------- | -------- |"

  const EXTRA_TITLE := "## 目录中多余的文件"

  /** The fixed lines of the header hold no newline. */
  lemma FixedHeaderLines()
    ensures NoNewline(HEADER_TITLE) && NoNewline(OVERVIEW_TITLE) && NoNewline(TABLE_HEAD) && NoNewline(TABLE_RULE)
    ensures NoNewline(BLOCKS_LABEL) && NoNewline(RECIPE_LABEL) && NoNewline(LOOT_LABEL) && NoNewline("")
  {
  }

  /** The fixed lines of the extra-file part hold no newline. */
  lemma FixedSectionLines()
    ensures LinesWithoutNewline(["", EXTRA_TITLE]) && NoNewline(RECIPE_TITLE) && NoNewline(LOOT_TITLE)
  {
  }

  function Bullet(name: string): string
  {
    "- " + name + ".json"
  }

  function Bullets(extras: seq<string>): (lines: seq<string>)
    ensures |lines| == |extras|
  {
    seq(|extras|, i requires 0 <= i < |extras| => Bullet(extras[i]))
  }

  /** A bullet holds a newline only when its file name does. */
  lemma BulletsWithoutNewline(extras: seq<string>)
    ensures LinesWithoutNewline(extras) ==> forall i :: 0 <= i < |extras| ==> NoNewline(Bullet(extras[i]))
  {
    forall i | 0 <= i < |extras| && NoNewline(extras[i])
      ensures NoNewline(Bullet(extras[i]))
    {
      NoNewlineAppend("- ", extras[i]);
      NoNewlineAppend("- " + extras[i], ".json");
    }
  }

  /** Lines 151-159 (and 161-169): a titled list of extra files, or the placeholder. */
  function ExtraSection(title: string, extras: seq<string>): (lines: seq<string>)
    ensures |lines| == 3 + (if extras == [] then 1 else |extras|)
    ensures lines[1] == title && lines[0] == lines[2] == ""
    ensures NoNewline(title) && LinesWithoutNewline(extras) ==> LinesWithoutNewline(lines)
  {
    BulletsWithoutNewline(extras);
    ["", title, ""] + (if extras != [] then Bullets(extras) else [NONE_BULLET])
  }

  /** The lines of the report, before they are joined into its text. */
  function ReportLines(blockCount: nat, totalRecipe: nat, totalLoot: nat, rows: seq<string>,
                       recipe: map<string, set<string>>, loot: map<string, set<string>>,
                       extraRecipe: seq<string>, extraLoot: seq<string>): seq<string>
  {
    Header(blockCount, totalRecipe, totalLoot) + RowLines(rows, recipe, loot)
      + ["", EXTRA_TITLE]
      + ExtraSection(RECIPE_TITLE, extraRecipe) + ExtraSection(LOOT_TITLE, extraLoot)
  }

  /** Every line of the report is free of newlines when the block and file names are. */
  lemma ReportLinesWithoutNewline(blockCount: nat, totalRecipe: nat, totalLoot: nat, rows: seq<string>,
                                  recipe: map<string, set<string>>, loot: map<string, set<string>>,
                                  extraRecipe: seq<string>, extraLoot: seq<string>)
    ensures NamesWithoutNewline(rows, extraRecipe, extraLoot) ==>
      LinesWithoutNewline(ReportLines(blockCount, totalRecipe, totalLoot, rows, recipe, loot, extraRecipe, extraLoot))
  {
    var header, table := Header(blockCount, totalRecipe, totalLoot), RowLines(rows, recipe, loot);
    var recipeSection, lootSection := ExtraSection(RECIPE_TITLE, extraRecipe), ExtraSection(LOOT_TITLE, extraLoot);
    FixedSectionLines();
    RowLinesWithoutNewline(rows, recipe, loot);
    LinesWithoutNewlineAppend(header, table);
    LinesWithoutNewlineAppend(header + table, ["", EXTRA_TITLE]);
    LinesWithoutNewlineAppend(header + table + ["", EXTRA_TITLE], recipeSection);
    LinesWithoutNewlineAppend(header + table + ["", EXTRA_TITLE] + recipeSection, lootSection);
  }

  /** The table rows hold no newline when the block names hold none. */
  lemma RowLinesWithoutNewline(rows: seq<string>, recipe: map<string, set<string>>, loot: map<string, set<string>>)
    ensures LinesWithoutNewline(rows) ==> LinesWithoutNewline(RowLines(rows, recipe, loot))
  {
    var table := RowLines(rows, recipe, loot);
    forall i | 0 <= i < |table| && NoNewline(rows[i])
      ensures NoNewline(table[i])
    {
      assert table[i] == RowLine(rows[i], recipe, loot);
    }
  }

  /** No block name and no extra file name contains a newline. */
  predicate NamesWithoutNewline(rows: seq<string>, extraRecipe: seq<string>, extraLoot: seq<string>)
  {
    LinesWithoutNewline(rows) && LinesWithoutNewline(extraRecipe) && LinesWithoutNewline(extraLoot)
  }

  /**
    When no name contains a newline, the report text determines its lines:
    any newline-free lines that render to the same text are the report's lines.
   */
  lemma ReportTextDeterminesLines(blockCount: nat, totalRecipe: nat, totalLoot: nat, rows: seq<string>,
                                  recipe: map<string, set<string>>, loot: map<string, set<string>>,
                                  extraRecipe: seq<string>, extraLoot: seq<string>, lines: seq<string>)
    ensures var report := ReportLines(blockCount, totalRecipe, totalLoot, rows, recipe, loot, extraRecipe, extraLoot);
      (NamesWithoutNewline(rows, extraRecipe, extraLoot) && LinesWithoutNewline(lines) &&
       Terminated(lines) == Terminated(report)) ==> lines == report
  {
    var report := ReportLines(blockCount, totalRecipe, totalLoot, rows, recipe, loot, extraRecipe, extraLoot);
    ReportLinesWithoutNewline(blockCount, totalRecipe, totalLoot, rows, recipe, loot, extraRecipe, extraLoot);
    if NamesWithoutNewline(rows, extraRecipe, extraLoot) && LinesWithoutNewline(lines) &&
       Terminated(lines) == Terminated(report) {
      TerminatedInjective(lines, report);
    }
  }

  /** The placeholder appears in a section exactly when it lists no extra file. */
  lemma PlaceholderIffEmpty(title: string, extras: seq<string>)
    requires title != NONE_BULLET
    ensures NONE_BULLET in ExtraSection(title, extras) <==> extras == []
  {
  }

  /** Each extra file is listed as `- <name>.json`, in the order of the list. */
  lemma BulletsInOrder(title: string, extras: seq<string>, i: int)
    requires 0 <= i < |extras|
    ensures ExtraSection(title, extras)[3 + i] == "- " + extras[i] + ".json"
    ensures |ExtraSection(title, extras)| == 3 + |extras|
  {
  }

  /** How long the report is: 18 fixed lines, one per block, and at least one per section of extras. */
  lemma ReportLength(blockCount: nat, totalRecipe: nat, totalLoot: nat, rows: seq<string>,
                     recipe: map<string, set<string>>, loot: map<string, set<string>>,
                     extraRecipe: seq<string>, extraLoot: seq<string>)
    ensures |ReportLines(blockCount, totalRecipe, totalLoot, rows, recipe, loot, extraRecipe, extraLoot)|
      == 18 + |rows| + (if extraRecipe == [] then 1 else |extraRecipe|) + (if extraLoot == [] then 1 else |extraLoot|)
  {
  }

  /** Table row i, for the i-th block in sorted order, is line 10 + i of the report. */
  lemma RowPlacement(blockCount: nat, totalRecipe: nat, totalLoot: nat, rows: seq<string>,
                     recipe: map<string, set<string>>, loot: map<string, set<string>>,
                     extraRecipe: seq<string>, extraLoot: seq<string>, i: int)
    requires 0 <= i < |rows|
    ensures var lines := ReportLines(blockCount, totalRecipe, totalLoot, rows, recipe, loot, extraRecipe, extraLoot);
      10 + i < |lines| && lines[10 + i] == RowLine(rows[i], recipe, loot)
  {
    LineOfSecondPart(Header(blockCount, totalRecipe, totalLoot), RowLines(rows, recipe, loot), ["", EXTRA_TITLE],
                     ExtraSection(RECIPE_TITLE, extraRecipe), ExtraSection(LOOT_TITLE, extraLoot), i);
  }

  /** Line |a| + i of five concatenated parts is line i of the second part. */
  lemma LineOfSecondPart(a: seq<string>, b: seq<string>, c: seq<string>, d: seq<string>, e: seq<string>, i: int)
    requires 0 <= i < |b|
    ensures |a| + i < |a + b + c + d + e| && (a + b + c + d + e)[|a| + i] == b[i]
  {
    assert (a + b + c + d + e)[|a| + i] == (a + b)[|a| + i];
  }

  /** Appends `- <name>.json` for every extra file (lines 155-156 and 165-166). */
  method AppendBullets(lines: seq<string>, extras: seq<string>) returns (result: seq<string>)
    ensures result == lines + Bullets(extras)
  {
    result := lines;
    for i := 0 to |extras|
      invariant result == lines + Bullets(extras[..i])
    {
      assert Bullets(extras[..i + 1]) == Bullets(extras[..i]) + [Bullet(extras[i])];
      result := result + [Bullet(extras[i])];
    }
    assert extras[..|extras|] == extras;
  }

  /** Lines 140-145: one row per block, in table order. */
  method AppendRows(lines: seq<string>, rows: seq<string>, recipe: map<string, set<string>>, loot: map<string, set<string>>)
    returns (result: seq<string>)
    ensures result == lines + RowLines(rows, recipe, loot)
  {
    result := lines;
    for i := 0 to |rows|
      invariant result == lines + RowLines(rows[..i], recipe, loot)
    {
      RowLinesSnoc(rows, recipe, loot, i);
      var name := rows[i];
      var recipeCount := Count(recipe, name);
      var lootCount := Count(loot, name);
      var line := "| " + name + " | " + Cell(recipeCount) + " | " + Cell(lootCount) + " |";
      result := result + [line];
    }
    assert rows[..|rows|] == rows;
  }

  /** Lines 151-159 and 161-169: one section of extra files. */
  method AppendExtraSection(lines: seq<string>, title: string, extras: seq<string>) returns (result: seq<string>)
    ensures result == lines + ExtraSection(title, extras)
  {
    result := lines + ["", title];
    if extras != [] {
      result := result + [""];
      result := AppendBullets(result, extras);
    } else {
      result := result + ["", NONE_BULLET];
    }
  }

  /**
    `write_markdown_report` up to `report_text` (line 171). It also returns the
    table order it used, which is the only one `sorted` can produce.
   */
  method WriteMarkdownReport(blocks: set<string>, recipe: map<string, set<string>>, loot: map<string, set<string>>,
                             totalRecipe: nat, totalLoot: nat, extraRecipe: seq<string>, extraLoot: seq<string>)
    returns (rows: seq<string>, text: string)
    ensures ListsExactly(rows, blocks) && Ordered(rows, recipe, loot)
    ensures text == Terminated(ReportLines(|blocks|, totalRecipe, totalLoot, rows, recipe, loot, extraRecipe, extraLoot))
    ensures EndsWith(text, "\n")
  {
    var lines: seq<string> := [];
    lines := lines + [HEADER_TITLE, ""];
    lines := lines + [BLOCKS_LABEL + NatToString(|blocks|)];
    lines := lines + [RECIPE_LABEL + NatToString(totalRecipe)];
    lines := lines + [LOOT_LABEL + NatToString(totalLoot), ""];
    lines := lines + [OVERVIEW_TITLE, ""];
    lines := lines + [TABLE_HEAD, TABLE_RULE];
    ghost var header := lines;
    assert header == Header(|blocks|, totalRecipe, totalLoot);

    rows := SortBlocks(blocks, recipe, loot);
    lines := AppendRows(lines, rows, recipe, loot);
    lines := lines + ["", EXTRA_TITLE];
    ghost var table := lines;
    lines := AppendExtraSection(lines, RECIPE_TITLE, extraRecipe);
    ghost var withRecipe := lines;
    lines := AppendExtraSection(lines, LOOT_TITLE, extraLoot);
    assert lines == withRecipe + ExtraSection(LOOT_TITLE, extraLoot);
    assert withRecipe == table + ExtraSection(RECIPE_TITLE, extraRecipe);
    assert table == header + RowLines(rows, recipe, loot) + ["", EXTRA_TITLE];

    text := JoinLines(lines) + "\n";
    JoinThenNewline(lines);
  }
}
