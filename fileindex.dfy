/**
  The directory scan of check_blocks.py: `list_json_basenames` (66-75) and the
  stem loop of `index_block_files` (86-89). A directory is its listing in
  `iterdir()` order, each entry a name and whether it is a regular file;
  `None` stands for a directory that does not exist.
 */
module FileIndex {
  import opened Wrappers
  import opened Text

  datatype Entry = Entry(name: string, isFile: bool)

  type Directory = Option<seq<Entry>>

  /** Python's `s.rfind(c)`: the last index holding `c`, or -1. */
  function LastIndexOf(s: string, c: char): (i: int)
    ensures -1 <= i < |s|
    ensures i >= 0 ==> s[i] == c
    ensures forall j :: i < j < |s| ==> s[j] != c
  {
    if |s| == 0 then -1
    else if s[|s| - 1] == c then |s| - 1
    else LastIndexOf(s[..|s| - 1], c)
  }

  /** pathlib's `PurePath.suffix`: from the last dot, unless the dot is first or last. */
  function Suffix(name: string): (suffix: string)
    ensures suffix == "" || (2 <= |suffix| < |name| && suffix[0] == '.' && EndsWith(name, suffix))
  {
    var i := LastIndexOf(name, '.');
    if 0 < i < |name| - 1 then name[i..] else ""
  }

  /** pathlib's `PurePath.stem`: the name without its suffix. */
  function Stem(name: string): (stem: string)
    ensures name == stem + Suffix(name)
  {
    var i := LastIndexOf(name, '.');
    if 0 < i < |name| - 1 then name[..i] else name
  }

  /** pathlib's rule, spelled out: the suffix is ".json" exactly when the name ends
      in ".json" and has at least one character before it; the stem drops those 5. */
  lemma JsonSuffixRule(name: string)
    ensures Suffix(name) == ".json" <==> |name| > 5 && EndsWith(name, ".json")
    ensures Suffix(name) == ".json" ==> Stem(name) == name[..|name| - 5] && name == Stem(name) + ".json"
  {
    var i := LastIndexOf(name, '.');
    if |name| > 5 && EndsWith(name, ".json") {
      assert name[|name| - 5] == '.';
      assert forall j :: |name| - 5 < j < |name| ==> name[j] != '.' by {
        assert name[|name| - 5..] == ".json";
      }
      assert i == |name| - 5;
    }
    if Suffix(name) == ".json" {
      assert 0 < i < |name| - 1 && name[i..] == ".json";
      assert |name| - i == 5;
    }
  }

  /** `entry.is_file() and entry.suffix == ".json"` (lines 73 and 88). */
  predicate IsJsonFile(e: Entry)
  {
    e.isFile && Suffix(e.name) == ".json"
  }

  /** The stems of the JSON files, in directory order. */
  function JsonStems(entries: seq<Entry>): seq<string>
  {
    if entries == [] then []
    else
      var rest := JsonStems(entries[..|entries| - 1]);
      var e := entries[|entries| - 1];
      if IsJsonFile(e) then rest + [Stem(e.name)] else rest
  }

  /** A stem is listed exactly when a regular file named `<stem>.json` is in the directory. */
  lemma {:induction false} JsonStemsMembers(entries: seq<Entry>, s: string)
    ensures s in JsonStems(entries) <==> s != [] && Entry(s + ".json", true) in entries
  {
    if entries != [] {
      var init, e := entries[..|entries| - 1], entries[|entries| - 1];
      assert entries == init + [e];
      JsonStemsMembers(init, s);
      JsonEntryStem(e, s);
      if IsJsonFile(e) {
        assert JsonStems(entries) == JsonStems(init) + [Stem(e.name)];
      } else {
        assert JsonStems(entries) == JsonStems(init);
      }
    }
  }

  /** One entry yields the stem `s` exactly when it is the regular file `<s>.json`, with `s` non-empty. */
  lemma JsonEntryStem(e: Entry, s: string)
    ensures (IsJsonFile(e) && Stem(e.name) == s) <==> (s != [] && e == Entry(s + ".json", true))
  {
    JsonSuffixRule(e.name);
    if e.isFile && e.name == s + ".json" && s != [] {
      assert EndsWith(e.name, ".json") by {
        assert e.name[|e.name| - 5..] == ".json";
      }
      assert Stem(e.name) == s by {
        assert e.name[..|e.name| - 5] == s;
      }
    }
  }

  /** Scanning a listing in two parts gives the stems of each part in order. */
  lemma {:induction false} JsonStemsAppend(a: seq<Entry>, b: seq<Entry>)
    ensures JsonStems(a + b) == JsonStems(a) + JsonStems(b)
    decreases |b|
  {
    if b != [] {
      var init := b[..|b| - 1];
      assert (a + b)[..|a + b| - 1] == a + init;
      JsonStemsAppend(a, init);
    } else {
      assert a + b == a;
    }
  }

  predicate Distinct(xs: seq<string>)
  {
    forall i, j :: 0 <= i < j < |xs| ==> xs[i] != xs[j]
  }

  predicate DistinctNames(entries: seq<Entry>)
  {
    forall i, j :: 0 <= i < j < |entries| ==> entries[i].name != entries[j].name
  }

  /** A directory cannot hold two entries of one name, so its stems are distinct. */
  lemma {:induction false} JsonStemsDistinct(entries: seq<Entry>)
    requires DistinctNames(entries)
    ensures Distinct(JsonStems(entries))
  {
    if entries != [] {
      var init, e := entries[..|entries| - 1], entries[|entries| - 1];
      assert DistinctNames(init);
      JsonStemsDistinct(init);
      if IsJsonFile(e) {
        assert forall k :: 0 <= k < |init| ==> init[k].name != e.name;
        NewStemNotListed(init, e);
        DistinctSnoc(JsonStems(init), Stem(e.name));
      }
    }
  }

  /** A `.json` file whose name no earlier entry has yields a stem not yet listed. */
  lemma NewStemNotListed(init: seq<Entry>, e: Entry)
    requires IsJsonFile(e)
    requires forall k :: 0 <= k < |init| ==> init[k].name != e.name
    ensures Stem(e.name) !in JsonStems(init)
  {
    var st := Stem(e.name);
    JsonStemsMembers(init, st);
    JsonEntryStem(e, st);
  }

  /** Appending a new element keeps a list free of repeats. */
  lemma DistinctSnoc(xs: seq<string>, x: string)
    requires Distinct(xs) && x !in xs
    ensures Distinct(xs + [x])
  {
  }

  /** The stems the scan yields for a directory that may be missing. */
  function StemsIn(dir: Directory): seq<string>
  {
    if dir.None? then [] else JsonStems(dir.value)
  }

  /** check_blocks.py:86-89: the stems collected into a list. */
  method CollectStems(entries: seq<Entry>) returns (stems: seq<string>)
    ensures stems == JsonStems(entries)
  {
    stems := [];
    for i := 0 to |entries|
      invariant stems == JsonStems(entries[..i])
    {
      assert entries[..i + 1][..i] == entries[..i];
      var entry := entries[i];
      if entry.isFile && Suffix(entry.name) == ".json" {
        stems := stems + [Stem(entry.name)];
      }
    }
    assert entries[..|entries|] == entries;
  }

  /** `list_json_basenames` (66-75): the set of stems, empty when the directory is missing. */
  method ListJsonBasenames(dir: Directory) returns (names: set<string>)
    ensures forall s :: s in names <==> dir.Some? && s != [] && Entry(s + ".json", true) in dir.value
  {
    if dir.None? {
      return {};
    }
    var entries := dir.value;
    names := {};
    for i := 0 to |entries|
      invariant names == set s | s in JsonStems(entries[..i])
    {
      assert entries[..i + 1][..i] == entries[..i];
      var entry := entries[i];
      if entry.isFile && Suffix(entry.name) == ".json" {
        names := names + {Stem(entry.name)};
      }
    }
    assert entries[..|entries|] == entries;
    forall s ensures s in names <==> s != [] && Entry(s + ".json", true) in entries {
      JsonStemsMembers(entries, s);
    }
  }
}
