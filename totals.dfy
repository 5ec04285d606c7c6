/**
  The file totals of `main` (check_blocks.py:189 and 194):
  `sum(len(v) for v in m.values()) + len(extra)`.
 */
module Totals {
  import opened FileIndex
  import opened Matching

  /** The sum of the bucket sizes, in no particular order of keys. */
  ghost function SumSizes(m: map<string, set<string>>): nat
    decreases |m|
  {
    if m == map[] then 0
    else
      var k :| k in m;
      |m[k]| + SumSizes(m - {k})
  }

  /** Any key may be taken first: the sum does not depend on the order of the keys. */
  lemma {:induction false} SumSizesRemove(m: map<string, set<string>>, k: string)
    requires k in m
    ensures SumSizes(m) == |m[k]| + SumSizes(m - {k})
    decreases |m|
  {
    var j :| j in m && SumSizes(m) == |m[j]| + SumSizes(m - {j});
    if j != k {
      var m' := m - {j};
      SumSizesRemove(m', k);
      SumSizesRemove(m - {k}, j);
      assert m' - {k} == (m - {k}) - {j};
    }
  }

  /** Adding one new file to one bucket adds one to the sum. */
  lemma AddToBucket(m: map<string, set<string>>, k: string, s: string)
    requires k in m && s !in m[k]
    ensures SumSizes(m[k := m[k] + {s}]) == SumSizes(m) + 1
  {
    var m' := m[k := m[k] + {s}];
    SumSizesRemove(m, k);
    SumSizesRemove(m', k);
    assert m' - {k} == m - {k};
  }

  /** check_blocks.py:189 and 194: the loop behind `sum(...)`, over the keys in any order. */
  method TotalFiles(buckets: map<string, set<string>>, extra: seq<string>) returns (total: nat)
    ensures total == SumSizes(buckets) + |extra|
  {
    var sum := 0;
    var rest := buckets;
    while rest != map[]
      invariant sum + SumSizes(rest) == SumSizes(buckets)
      decreases |rest|
    {
      var k :| k in rest;
      SumSizesRemove(rest, k);
      sum := sum + |rest[k]|;
      rest := rest - {k};
    }
    total := sum + |extra|;
  }

  /** Each of a list of distinct stems is counted once: in one bucket or among the extra files. */
  lemma {:induction false} CountIdentity(blocks: set<string>, stems: seq<string>)
    requires Distinct(stems)
    ensures SumSizes(Buckets(blocks, stems)) + |Unmatched(blocks, stems)| == |stems|
  {
    if stems == [] {
      NoStemsNoFiles(blocks);
      EmptySum(blocks);
    } else {
      var init, s := stems[..|stems| - 1], stems[|stems| - 1];
      assert stems == init + [s];
      CountIdentity(blocks, init);
      BucketsSnoc(blocks, init, s);
      var m := LongestMatch(blocks, s);
      if m.Some? {
        assert s !in Buckets(blocks, init)[m.value] by {
          assert s !in init;
        }
        AddToBucket(Buckets(blocks, init), m.value, s);
      }
    }
  }

  lemma {:induction false} EmptySum(blocks: set<string>)
    ensures SumSizes(map b | b in blocks :: {}) == 0
    decreases |blocks|
  {
    var m: map<string, set<string>> := map b | b in blocks :: {};
    if blocks != {} {
      var b :| b in blocks;
      SumSizesRemove(m, b);
      EmptySum(blocks - {b});
      assert m - {b} == map c | c in blocks - {b} :: {};
    } else {
      assert m == map[];
    }
  }

  /**
    The reported total is the number of distinct `.json` files in the directory:
    every stem counted exactly once.
   */
  lemma ReportedTotal(blocks: set<string>, dir: Directory)
    requires dir.Some? ==> DistinctNames(dir.value)
    ensures SumSizes(Buckets(blocks, StemsIn(dir))) + |Unmatched(blocks, StemsIn(dir))|
         == |set s | s in StemsIn(dir)|
  {
    var stems := StemsIn(dir);
    if dir.Some? {
      JsonStemsDistinct(dir.value);
    }
    CountIdentity(blocks, stems);
    DistinctCard(stems);
  }

  lemma {:induction false} DistinctCard(xs: seq<string>)
    requires Distinct(xs)
    ensures |set s | s in xs| == |xs|
  {
    if xs != [] {
      var init := xs[..|xs| - 1];
      DistinctCard(init);
      assert (set s | s in xs) == (set s | s in init) + {xs[|xs| - 1]};
    }
  }
}
