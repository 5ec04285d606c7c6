/**
  `load_block_names_from_block_id` (check_blocks.py:49-63): the values of the
  parsed block-id registry are collected into a set, and the namespace prefix
  `"box3:"` (`f"{MOD_ID}:"` with `MOD_ID = "box3"`) is stripped from every
  string value that carries it.
 */
module Registry {
  import opened Text

  /** `f"{MOD_ID}:"`. */
  const PREFIX: string := "box3:"

  /**
    One value of the parsed registry. The registry is meant to hold strings;
    any other JSON scalar (number, boolean, null) is kept as an opaque value.
   */
  datatype RegistryValue = Str(s: string) | Opaque(id: int)

  /** The body of the loop at check_blocks.py:57-61 for one value. */
  function Normalize(v: RegistryValue): (r: RegistryValue)
    ensures r.Str? <==> v.Str?
    ensures r.Opaque? ==> r == v
    ensures r.Str? ==> v.s == r.s || v.s == PREFIX + r.s
    ensures r.Str? && r.s != v.s ==> StartsWith(v.s, PREFIX)
  {
    if v.Str? && StartsWith(v.s, PREFIX) then Str(v.s[|PREFIX|..]) else v
  }

  /** A prefixed value becomes the text after the prefix. */
  lemma StripsPrefix(name: string)
    ensures Normalize(Str(PREFIX + name)) == Str(name)
  {
    assert (PREFIX + name)[..|PREFIX|] == PREFIX;
    assert (PREFIX + name)[|PREFIX|..] == name;
  }

  /** Every other value passes through unchanged. */
  lemma KeepsUnprefixed(v: RegistryValue)
    requires !(v.Str? && StartsWith(v.s, PREFIX))
    ensures Normalize(v) == v
  {
  }

  /** The set of block names obtained from a set of raw registry values. */
  function Normalized(raw: set<RegistryValue>): set<RegistryValue>
  {
    set v | v in raw :: Normalize(v)
  }

  /** Stripping can merge two values ("box3:x" and "x") but never creates one. */
  lemma {:induction false} NormalizedSize(raw: set<RegistryValue>)
    ensures |Normalized(raw)| <= |raw|
    decreases |raw|
  {
    if raw != {} {
      var v :| v in raw;
      var rest := raw - {v};
      NormalizedSize(rest);
      assert Normalized(raw) == Normalized(rest) + {Normalize(v)};
    }
  }

  /**
    check_blocks.py:52-63: `set(data.values())`, then one pass over that set
    in whatever order the set yields its elements.
   */
  method LoadBlockNames(values: seq<RegistryValue>) returns (names: set<RegistryValue>)
    ensures forall n :: n in names <==> exists v :: v in values && Normalize(v) == n
    ensures |names| <= |set v | v in values|
    ensures (forall v :: v in values ==> v.Str?) ==> forall n :: n in names ==> n.Str?
  {
    var raw := set v | v in values;
    names := {};
    var rest := raw;
    while rest != {}
      invariant rest <= raw
      invariant names == Normalized(raw - rest)
      decreases rest
    {
      var name :| name in rest;
      if name.Str? && StartsWith(name.s, PREFIX) {
        names := names + {Str(name.s[|PREFIX|..])};
      } else {
        names := names + {name};
      }
      assert raw - (rest - {name}) == (raw - rest) + {name};
      rest := rest - {name};
    }
    assert raw - rest == raw;
    NormalizedSize(raw);
  }
}
