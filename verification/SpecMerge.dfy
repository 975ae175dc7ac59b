/** Merging of nested task specifications: merge_dicts of packages/domain/utils.py. */
module SpecMerge {
  import opened Results

  /** A JSON value; a scalar or a list is replaced whole, so it is a leaf here. */
  datatype Json = Leaf(text: string) | Dict(entries: map<string, Json>)

  const EMPTY := Dict(map[])

  function At(d: Json, key: string): Option<Json>
    requires d.Dict?
  {
    if key in d.entries then Some(d.entries[key]) else None
  }

  predicate HasDict(d: Json, key: string)
    requires d.Dict?
  {
    key in d.entries && d.entries[key].Dict?
  }

  lemma SameEntries(a: Json, b: Json)
    requires a.Dict? && b.Dict? && forall key :: At(a, key) == At(b, key)
    ensures a == b
  {
    forall key
      ensures key in a.entries <==> key in b.entries
      ensures key in a.entries ==> a.entries[key] == b.entries[key]
    {
      assert At(a, key) == At(b, key);
    }
    assert a.entries == b.entries;
  }

  /** merge_dicts, key by key. */
  function Merge(base: Json, override: Json): (r: Json)
    requires base.Dict? && override.Dict?
    ensures r.Dict?
    decreases override
  {
    Dict(map key | key in base.entries.Keys + override.entries.Keys ::
      if key !in override.entries then base.entries[key]
      else if HasDict(override, key) && HasDict(base, key) then Merge(base.entries[key], override.entries[key])
      else override.entries[key])
  }

  lemma MergeAt(base: Json, override: Json, key: string)
    requires base.Dict? && override.Dict?
    ensures At(Merge(base, override), key)
         == if key !in override.entries then At(base, key)
            else if HasDict(override, key) && HasDict(base, key) then Some(Merge(base.entries[key], override.entries[key]))
            else At(override, key)
  {}

  /** The loop of merge_dicts has yet to handle the keys in `todo`. */
  predicate PartlyMerged(result: Json, base: Json, override: Json, todo: set<string>, key: string)
    requires result.Dict? && base.Dict? && override.Dict?
  {
    At(result, key) == if key in todo then At(base, key) else At(Merge(base, override), key)
  }

  /** merge_dicts: copy the base, then assign or merge every item of the override. */
  method MergeDicts(base: Json, override: Json) returns (result: Json)
    requires base.Dict? && override.Dict?
    ensures result == Merge(base, override)
    decreases override
  {
    hide Merge;
    result := base;
    var todo := override.entries.Keys;
    forall k
      ensures PartlyMerged(result, base, override, todo, k)
    {
      MergeAt(base, override, k);
    }
    while todo != {}
      invariant result.Dict? && todo <= override.entries.Keys
      invariant forall k :: PartlyMerged(result, base, override, todo, k)
      decreases |todo|
    {
      var key :| key in todo;
      ghost var before, todoBefore := result, todo;
      assert PartlyMerged(result, base, override, todo, key);
      MergeAt(base, override, key);
      var value := override.entries[key];
      if value.Dict? && HasDict(result, key) {
        var merged := MergeDicts(result.entries[key], value);
        result := Dict(result.entries[key := merged]);
      } else {
        result := Dict(result.entries[key := value]);
      }
      todo := todo - {key};
      forall k
        ensures PartlyMerged(result, base, override, todo, k)
      {
        assert PartlyMerged(before, base, override, todoBefore, k);
      }
    }
    forall k
      ensures At(result, k) == At(Merge(base, override), k)
    {
      assert PartlyMerged(result, base, override, todo, k);
    }
    SameEntries(result, Merge(base, override));
  }

  // ---- Identities, idempotence ----------------------------------------------------------------------

  lemma Identities(a: Json)
    requires a.Dict?
    ensures Merge(a, EMPTY) == a && Merge(EMPTY, a) == a
  {
    assert Merge(a, EMPTY).entries == a.entries;
    assert Merge(EMPTY, a).entries == a.entries;
  }

  /** Applying the same override twice changes nothing more. */
  lemma {:induction false} MergeIsIdempotent(a: Json, o: Json)
    requires a.Dict? && o.Dict?
    ensures Merge(Merge(a, o), o) == Merge(a, o)
    decreases o
  {
    var once, twice := Merge(a, o), Merge(Merge(a, o), o);
    forall key
      ensures At(twice, key) == At(once, key)
    {
      if HasDict(o, key) {
        if HasDict(a, key) {
          MergeIsIdempotent(a.entries[key], o.entries[key]);
        } else {
          MergeWithSelf(o.entries[key]);
        }
      }
    }
    SameEntries(twice, once);
  }

  lemma {:induction false} MergeWithSelf(o: Json)
    requires o.Dict?
    ensures Merge(o, o) == o
  {
    forall key
      ensures At(Merge(o, o), key) == At(o, key)
    {
      if HasDict(o, key) {
        MergeWithSelf(o.entries[key]);
      }
    }
    SameEntries(Merge(o, o), o);
  }

  // ---- Exactly when merging is associative ------------------------------------------------------------

  /** Every key path of the first is a key path of the second, unless a leaf lies above it. */
  predicate Covered(a: Json, c: Json)
    requires a.Dict? && c.Dict?
    decreases c
  {
    forall key :: key in a.entries ==> CoveredAt(a, c, key)
  }

  predicate CoveredAt(a: Json, c: Json, key: string)
    requires a.Dict? && c.Dict?
    decreases c, 0
  {
    key in c.entries
    && (HasDict(a, key) && HasDict(c, key) ==> Covered(a.entries[key], c.entries[key]))
  }

  /** A dict that c covers leaves no trace in the merge. */
  lemma {:induction false} CoveredIff(a: Json, c: Json)
    requires a.Dict? && c.Dict?
    ensures Merge(a, c) == c <==> Covered(a, c)
    decreases c
  {
    var m := Merge(a, c);
    forall key | key in a.entries
      ensures At(m, key) == At(c, key) <==> CoveredAt(a, c, key)
    {
      if HasDict(a, key) && HasDict(c, key) {
        CoveredIff(a.entries[key], c.entries[key]);
      }
    }
    if Covered(a, c) {
      forall key
        ensures At(m, key) == At(c, key)
      {
        assert key in a.entries ==> CoveredAt(a, c, key);
      }
      SameEntries(m, c);
    }
  }

  /**
   * No key path holds a dict in a, a leaf in b and a dict in c, except where
   * everything a has there is overridden by c.
   */
  predicate Compatible(a: Json, b: Json, c: Json)
    requires a.Dict? && b.Dict? && c.Dict?
    decreases c
  {
    forall key :: key in c.entries ==> CompatibleAt(a, b, c, key)
  }

  predicate CompatibleAt(a: Json, b: Json, c: Json, key: string)
    requires a.Dict? && b.Dict? && c.Dict? && key in c.entries
    decreases c, 0
  {
    HasDict(a, key) && HasDict(c, key) && key in b.entries ==>
      if b.entries[key].Dict?
      then Compatible(a.entries[key], b.entries[key], c.entries[key])
      else Covered(a.entries[key], c.entries[key])
  }

  /** Two corrections in a row amount to one merged correction exactly for compatible specifications. */
  lemma {:induction false} AssociativeIff(a: Json, b: Json, c: Json)
    requires a.Dict? && b.Dict? && c.Dict?
    ensures Merge(Merge(a, b), c) == Merge(a, Merge(b, c)) <==> Compatible(a, b, c)
    decreases c
  {
    var left, right := Merge(Merge(a, b), c), Merge(a, Merge(b, c));
    forall key
      ensures key !in c.entries ==> At(left, key) == At(right, key)
      ensures key in c.entries ==> (At(left, key) == At(right, key) <==> CompatibleAt(a, b, c, key))
    {
      AssociativeAt(a, b, c, key);
    }
    if Compatible(a, b, c) {
      forall key
        ensures At(left, key) == At(right, key)
      {
        assert key in c.entries ==> CompatibleAt(a, b, c, key);
      }
      SameEntries(left, right);
    }
  }

  lemma {:induction false} AssociativeAt(a: Json, b: Json, c: Json, key: string)
    requires a.Dict? && b.Dict? && c.Dict?
    ensures var left, right := Merge(Merge(a, b), c), Merge(a, Merge(b, c));
            && (key !in c.entries ==> At(left, key) == At(right, key))
            && (key in c.entries ==> (At(left, key) == At(right, key) <==> CompatibleAt(a, b, c, key)))
    decreases c, 0
  {
    MergeAt(a, b, key);
    MergeAt(b, c, key);
    MergeAt(Merge(a, b), c, key);
    MergeAt(a, Merge(b, c), key);
    if HasDict(a, key) && HasDict(c, key) && key in b.entries {
      if b.entries[key].Dict? {
        AssociativeIff(a.entries[key], b.entries[key], c.entries[key]);
      } else {
        CoveredIff(a.entries[key], c.entries[key]);
      }
    }
    hide Merge, Covered, Compatible;
  }

  /** Associativity fails as soon as a leaf wipes out a dict that a later override would have kept. */
  lemma LeafWipesOutDict(key: string, inner: string)
    ensures var a, b := Dict(map[key := Dict(map[inner := Leaf("kept")])]), Dict(map[key := Leaf("none")]);
            var c := Dict(map[key := EMPTY]);
            Merge(Merge(a, b), c) != Merge(a, Merge(b, c))
  {
    var d := Dict(map[inner := Leaf("kept")]);
    var a, b, c := Dict(map[key := d]), Dict(map[key := Leaf("none")]), Dict(map[key := EMPTY]);
    assert inner in d.entries && !CoveredAt(d, EMPTY, inner);
    assert key in c.entries && !CompatibleAt(a, b, c, key);
    AssociativeIff(a, b, c);
  }

  // ---- A chain of corrections ---------------------------------------------------------------------------

  predicate AllDicts(overrides: seq<Json>) {
    forall i :: 0 <= i < |overrides| ==> overrides[i].Dict?
  }

  /** The left fold of merge_dicts over a chain of overrides. */
  function Fold(initial: Json, overrides: seq<Json>): (r: Json)
    requires initial.Dict? && AllDicts(overrides)
    ensures r.Dict?
  {
    if overrides == [] then initial
    else Merge(Fold(initial, overrides[..|overrides| - 1]), overrides[|overrides| - 1])
  }

  lemma FoldMore(initial: Json, overrides: seq<Json>, override: Json)
    requires initial.Dict? && AllDicts(overrides) && override.Dict?
    ensures AllDicts(overrides + [override])
    ensures Fold(initial, overrides + [override]) == Merge(Fold(initial, overrides), override)
  {
    var all := overrides + [override];
    assert AllDicts(all) && all[..|all| - 1] == overrides;
  }
}
