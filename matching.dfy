/**
  `index_block_files` (check_blocks.py:78-103): every JSON stem of a directory
  goes into the bucket of the longest block name that qualifies for it, or into
  the list of extra files when none does.
 */
module Matching {
  import opened Wrappers
  import opened Text
  import opened FileIndex

  /** The test at line 94: the stem is the block, or the block followed by "_" starts it. */
  predicate Qualifies(block: string, stem: string): (q: bool)
    ensures q ==> StartsWith(stem, block)
  {
    stem == block || StartsWith(stem, block + "_")
  }

  /** A block qualifies exactly when it is a prefix of the stem that ends the stem or is followed by "_". */
  lemma QualifiesAsPrefix(block: string, stem: string)
    ensures Qualifies(block, stem) <==>
      |block| <= |stem| && stem[..|block|] == block && (|block| == |stem| || stem[|block|] == '_')
  {
    if |block| < |stem| && stem[..|block|] == block && stem[|block|] == '_' {
      assert stem[..|block| + 1] == block + "_";
    }
    if StartsWith(stem, block + "_") {
      assert stem[..|block|] == (block + "_")[..|block|];
    }
  }

  /** Two qualifying blocks of the same length are the same block, so ties cannot arise. */
  lemma SameLengthSameBlock(b: string, c: string, stem: string)
    requires Qualifies(b, stem) && Qualifies(c, stem) && |b| == |c|
    ensures b == c
  {
    QualifiesAsPrefix(b, stem);
    QualifiesAsPrefix(c, stem);
  }

  /** `b` is a qualifying block and no qualifying block is strictly longer. */
  predicate IsLongest(blocks: set<string>, stem: string, b: string)
  {
    b in blocks && Qualifies(b, stem) &&
    forall c :: c in blocks && Qualifies(c, stem) ==> |c| <= |b|
  }

  /** At most one block is the longest qualifying one. */
  lemma LongestIsUnique(blocks: set<string>, stem: string, b: string, c: string)
    requires IsLongest(blocks, stem, b) && IsLongest(blocks, stem, c)
    ensures b == c
  {
    SameLengthSameBlock(b, c, stem);
  }

  /**
    A reference definition that needs no iteration over the set: try the
    prefixes of the stem from length `k` down, keeping the first one that is a
    block and qualifies.
   */
  function PrefixMatch(blocks: set<string>, stem: string, k: nat): Option<string>
    requires k <= |stem|
    decreases k
  {
    if stem[..k] in blocks && (k == |stem| || stem[k] == '_') then Some(stem[..k])
    else if k == 0 then None
    else PrefixMatch(blocks, stem, k - 1)
  }

  function LongestMatch(blocks: set<string>, stem: string): Option<string>
  {
    PrefixMatch(blocks, stem, |stem|)
  }

  lemma {:induction false} PrefixMatchSpec(blocks: set<string>, stem: string, k: nat)
    requires k <= |stem|
    ensures PrefixMatch(blocks, stem, k).Some? ==>
      var b := PrefixMatch(blocks, stem, k).value;
      b in blocks && Qualifies(b, stem) && |b| <= k &&
      forall c :: c in blocks && Qualifies(c, stem) && |c| <= k ==> |c| <= |b|
    ensures PrefixMatch(blocks, stem, k).None? ==>
      forall c :: c in blocks && Qualifies(c, stem) ==> |c| > k
    decreases k
  {
    var p := stem[..k];
    QualifiesAsPrefix(p, stem);
    if p in blocks && (k == |stem| || stem[k] == '_') {
    } else {
      forall c | c in blocks && Qualifies(c, stem) && |c| == k
        ensures false
      {
        QualifiesAsPrefix(c, stem);
      }
      if k > 0 {
        PrefixMatchSpec(blocks, stem, k - 1);
      }
    }
  }

  /** The reference definition picks the longest qualifying block, and finds none only when none qualifies. */
  lemma LongestMatchCorrect(blocks: set<string>, stem: string)
    ensures forall b :: LongestMatch(blocks, stem) == Some(b) <==> IsLongest(blocks, stem, b)
    ensures LongestMatch(blocks, stem) == None <==> forall c :: c in blocks ==> !Qualifies(c, stem)
  {
    PrefixMatchSpec(blocks, stem, |stem|);
    forall c | c in blocks && Qualifies(c, stem)
      ensures |c| <= |stem|
    {
      QualifiesAsPrefix(c, stem);
    }
    forall b | IsLongest(blocks, stem, b)
      ensures LongestMatch(blocks, stem) == Some(b)
    {
      var m := LongestMatch(blocks, stem);
      if m.Some? {
        LongestIsUnique(blocks, stem, b, m.value);
      }
    }
  }

  /**
    The inner loop at check_blocks.py:92-96, over `block_names` in whatever
    order the set yields them, with the strict `>` of line 95. Whatever the
    order, the result is the longest qualifying block.
   */
  method BestBlock(blocks: set<string>, stem: string) returns (best: Option<string>)
    ensures best == LongestMatch(blocks, stem)
    ensures best.Some? ==> IsLongest(blocks, stem, best.value)
    ensures best.None? <==> forall c :: c in blocks ==> !Qualifies(c, stem)
  {
    best := None;
    var rest := blocks;
    while rest != {}
      invariant rest <= blocks
      invariant best.Some? ==> best.value in blocks && best.value !in rest && Qualifies(best.value, stem)
      invariant forall c :: c in blocks && c !in rest && Qualifies(c, stem) ==> best.Some? && |c| <= |best.value|
      decreases rest
    {
      var block :| block in rest;
      if stem == block || StartsWith(stem, block + "_") {
        if best.None? || |block| > |best.value| {
          best := Some(block);
        }
      }
      rest := rest - {block};
    }
    LongestMatchCorrect(blocks, stem);
  }

  /** The buckets `index_block_files` returns for the stems of one directory. */
  function Buckets(blocks: set<string>, stems: seq<string>): map<string, set<string>>
  {
    map b | b in blocks :: set s | s in stems && LongestMatch(blocks, s) == Some(b)
  }

  /** The extra files, in the order the stems were found. */
  function Unmatched(blocks: set<string>, stems: seq<string>): seq<string>
  {
    if stems == [] then []
    else
      var rest := Unmatched(blocks, stems[..|stems| - 1]);
      var s := stems[|stems| - 1];
      if LongestMatch(blocks, s).None? then rest + [s] else rest
  }

  lemma BucketSnocAt(blocks: set<string>, stems: seq<string>, s: string, c: string)
    requires c in blocks
    ensures Buckets(blocks, stems + [s])[c] ==
      Buckets(blocks, stems)[c] + (if LongestMatch(blocks, s) == Some(c) then {s} else {})
  {
    assert forall t :: t in stems + [s] <==> t in stems || t == s;
  }

  lemma BucketsSnoc(blocks: set<string>, stems: seq<string>, s: string)
    ensures LongestMatch(blocks, s).None? ==> Buckets(blocks, stems + [s]) == Buckets(blocks, stems)
    ensures LongestMatch(blocks, s).Some? ==>
      var b := LongestMatch(blocks, s).value;
      b in blocks &&
      Buckets(blocks, stems + [s]) == Buckets(blocks, stems)[b := Buckets(blocks, stems)[b] + {s}]
  {
    var before, after := Buckets(blocks, stems), Buckets(blocks, stems + [s]);
    var m := LongestMatch(blocks, s);
    PrefixMatchSpec(blocks, s, |s|);
    assert after.Keys == blocks == before.Keys;
    if m.None? {
      forall c | c in blocks
        ensures after[c] == before[c]
      {
        BucketSnocAt(blocks, stems, s, c);
      }
      assert after == before;
    } else {
      var expected := before[m.value := before[m.value] + {s}];
      forall c | c in blocks
        ensures after[c] == expected[c]
      {
        BucketSnocAt(blocks, stems, s, c);
      }
      assert after == expected;
    }
  }

  /**
    `index_block_files` itself. A missing directory gives one empty bucket per
    block and no extra files (lines 79-81); otherwise each stem is placed by
    the longest-match rule (lines 91-101).
   */
  method IndexBlockFiles(blocks: set<string>, dir: Directory)
    returns (buckets: map<string, set<string>>, extra: seq<string>)
    ensures buckets == Buckets(blocks, StemsIn(dir))
    ensures extra == Unmatched(blocks, StemsIn(dir))
  {
    buckets := map b | b in blocks :: {};
    extra := [];
    NoStemsNoFiles(blocks);
    if dir.None? {
      return;
    }
    var stems := CollectStems(dir.value);
    for i := 0 to |stems|
      invariant buckets == Buckets(blocks, stems[..i])
      invariant extra == Unmatched(blocks, stems[..i])
    {
      var stem := stems[i];
      assert stems[..i + 1] == stems[..i] + [stem];
      BucketsSnoc(blocks, stems[..i], stem);
      var best := BestBlock(blocks, stem);
      if best.Some? {
        buckets := buckets[best.value := buckets[best.value] + {stem}];
      } else {
        extra := extra + [stem];
      }
    }
    assert stems[..|stems|] == stems;
  }

  /** A stem is an extra file exactly when it was found and no block qualifies for it. */
  lemma {:induction false} UnmatchedMembers(blocks: set<string>, stems: seq<string>, s: string)
    ensures s in Unmatched(blocks, stems) <==> s in stems && forall b :: b in blocks ==> !Qualifies(b, s)
  {
    LongestMatchCorrect(blocks, s);
    if stems != [] {
      var init := stems[..|stems| - 1];
      assert stems == init + [stems[|stems| - 1]];
      UnmatchedMembers(blocks, init, s);
    }
  }

  /** The extra files keep the order in which the directory listed them. */
  lemma {:induction false} UnmatchedAppend(blocks: set<string>, a: seq<string>, b: seq<string>)
    ensures Unmatched(blocks, a + b) == Unmatched(blocks, a) + Unmatched(blocks, b)
    decreases |b|
  {
    if b == [] {
      assert a + b == a;
    } else {
      var init := b[..|b| - 1];
      assert (a + b)[..|a + b| - 1] == a + init;
      UnmatchedAppend(blocks, a, init);
    }
  }

  /** A stem sits in block `b`'s bucket only if `b` is the longest block qualifying for it. */
  lemma BucketMembersQualify(blocks: set<string>, stems: seq<string>, b: string, s: string)
    requires b in blocks && s in Buckets(blocks, stems)[b]
    ensures s in stems && IsLongest(blocks, s, b)
    ensures s == b || StartsWith(s, b + "_")
  {
    LongestMatchCorrect(blocks, s);
  }

  /** Every stem found ends up in exactly one place: one bucket, or the extra list. */
  lemma ExactlyOnePlace(blocks: set<string>, stems: seq<string>, s: string)
    requires s in stems
    ensures s in Unmatched(blocks, stems) <==> forall b :: b in blocks ==> s !in Buckets(blocks, stems)[b]
    ensures forall b, c :: b in blocks && c in blocks && s in Buckets(blocks, stems)[b] && s in Buckets(blocks, stems)[c] ==> b == c
  {
    UnmatchedMembers(blocks, stems, s);
    LongestMatchCorrect(blocks, s);
  }

  /** Every block has a bucket, and nothing else does. */
  lemma BucketKeys(blocks: set<string>, stems: seq<string>)
    ensures Buckets(blocks, stems).Keys == blocks
  {
  }

  /** A missing directory (or an empty one) yields empty buckets and no extra files. */
  lemma NoStemsNoFiles(blocks: set<string>)
    ensures Buckets(blocks, []) == map b | b in blocks :: {}
    ensures Unmatched(blocks, []) == []
  {
    var empty: map<string, set<string>> := map b | b in blocks :: {};
    assert empty.Keys == blocks == Buckets(blocks, []).Keys;
    forall b | b in blocks
      ensures empty[b] == Buckets(blocks, [])[b]
    {
    }
  }

  /** `foo` and `foo_bar` belong to block `foo`; `foobar` is an extra file. */
  lemma FooExample()
    ensures Buckets({"foo"}, ["foo", "foo_bar", "foobar"]) == map["foo" := {"foo", "foo_bar"}]
    ensures Unmatched({"foo"}, ["foo", "foo_bar", "foobar"]) == ["foobar"]
  {
    var blocks: set<string> := {"foo"};
    var stems := ["foo", "foo_bar", "foobar"];
    assert LongestMatch(blocks, "foo") == Some("foo") by {
      assert "foo"[..3] == "foo";
    }
    assert LongestMatch(blocks, "foo_bar") == Some("foo") by {
      LongestMatchCorrect(blocks, "foo_bar");
      assert "foo_bar"[..4] == "foo" + "_";
      assert IsLongest(blocks, "foo_bar", "foo");
    }
    assert LongestMatch(blocks, "foobar") == None by {
      LongestMatchCorrect(blocks, "foobar");
      assert "foobar"[3] != ("foo" + "_")[3];
    }
    assert stems[..2] == ["foo", "foo_bar"] && stems[..1] == ["foo"] && stems[..2][..1] == ["foo"];
    assert Unmatched(blocks, stems[..1]) == [] by {
      assert stems[..1][..0] == [];
    }
    assert Unmatched(blocks, stems[..2]) == [];
    assert Buckets(blocks, stems)["foo"] == {"foo", "foo_bar"};
  }

  /** Between blocks `ore` and `iron_ore`, the stem `iron_ore_block` belongs to the longer one. */
  lemma IronOreExample()
    ensures LongestMatch({"ore", "iron_ore"}, "iron_ore_block") == Some("iron_ore")
  {
    var blocks: set<string> := {"ore", "iron_ore"};
    LongestMatchCorrect(blocks, "iron_ore_block");
    assert "iron_ore_block"[..9] == "iron_ore" + "_";
    assert !Qualifies("ore", "iron_ore_block") by {
      assert "iron_ore_block"[0] != ("ore" + "_")[0];
    }
    assert IsLongest(blocks, "iron_ore_block", "iron_ore");
  }
}
