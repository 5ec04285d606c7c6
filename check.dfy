/**
  `main` (check_blocks.py:178-208): load the block names, index the recipe and
  loot-table directories, total the files found and render the report. The
  registry file, the two directories and the report file are parameters and
  results here; a missing registry file is `None`.
 */
module Check {
  import opened Wrappers
  import opened Registry
  import opened FileIndex
  import opened Matching
  import opened Totals
  import opened Report

  /** What one run computes and the report text it writes. */
  datatype Run = Run(
    blocks: set<string>,
    recipeMap: map<string, set<string>>, extraRecipe: seq<string>, totalRecipe: nat,
    lootMap: map<string, set<string>>, extraLoot: seq<string>, totalLoot: nat,
    rows: seq<string>, text: string)

  /** The block names as strings, once every registry value is known to be one. */
  function Names(values: set<RegistryValue>): set<string>
  {
    set v | v in values && v.Str? :: v.s
  }

  method RunCheck(registry: Option<seq<RegistryValue>>, recipeDir: Directory, lootDir: Directory)
    returns (run: Option<Run>)
    requires registry.Some? ==> forall v :: v in registry.value ==> v.Str?
    ensures run.None? <==> registry.None?
    ensures run.Some? ==>
      var r := run.value;
      && (forall b :: b in r.blocks <==> exists v :: v in registry.value && Normalize(v) == Str(b))
      && r.recipeMap == Buckets(r.blocks, StemsIn(recipeDir)) && r.extraRecipe == Unmatched(r.blocks, StemsIn(recipeDir))
      && r.lootMap == Buckets(r.blocks, StemsIn(lootDir)) && r.extraLoot == Unmatched(r.blocks, StemsIn(lootDir))
      && r.totalRecipe == SumSizes(r.recipeMap) + |r.extraRecipe|
      && r.totalLoot == SumSizes(r.lootMap) + |r.extraLoot|
      && ((recipeDir.Some? ==> DistinctNames(recipeDir.value)) ==> r.totalRecipe == |set s | s in StemsIn(recipeDir)|)
      && ((lootDir.Some? ==> DistinctNames(lootDir.value)) ==> r.totalLoot == |set s | s in StemsIn(lootDir)|)
      && ListsExactly(r.rows, r.blocks) && Ordered(r.rows, r.recipeMap, r.lootMap)
      && r.text == Text.Terminated(ReportLines(|r.blocks|, r.totalRecipe, r.totalLoot, r.rows,
                                               r.recipeMap, r.lootMap, r.extraRecipe, r.extraLoot))
  {
    if registry.None? {
      return None;
    }
    var values := LoadBlockNames(registry.value);
    var blocks := Names(values);
    forall b
      ensures b in blocks <==> exists v :: v in registry.value && Normalize(v) == Str(b)
    {
      if b in blocks {
        assert Str(b) in values;
      }
    }

    var recipeMap, extraRecipe := IndexBlockFiles(blocks, recipeDir);
    var totalRecipe := TotalFiles(recipeMap, extraRecipe);
    if recipeDir.Some? ==> DistinctNames(recipeDir.value) {
      ReportedTotal(blocks, recipeDir);
    }

    var lootMap, extraLoot := IndexBlockFiles(blocks, lootDir);
    var totalLoot := TotalFiles(lootMap, extraLoot);
    if lootDir.Some? ==> DistinctNames(lootDir.value) {
      ReportedTotal(blocks, lootDir);
    }

    var rows, text := WriteMarkdownReport(blocks, recipeMap, lootMap, totalRecipe, totalLoot, extraRecipe, extraLoot);
    return Some(Run(blocks, recipeMap, extraRecipe, totalRecipe, lootMap, extraLoot, totalLoot, rows, text));
  }
}
