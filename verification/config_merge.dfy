/** Recursive merge of configuration files (cascade/graph.py:367-385, 409-414). */
module ConfigMerge {
  import opened Common

  /** A value of a configuration: a dictionary, or anything else. */
  datatype Json = Plain(text: string) | Dict(fields: map<string, Json>)

  const EMPTY := Dict(map[])

  /** What becomes of key k of dict2. */
  function MergedField(a: Json, b: Json, k: string): Option<Json>
    requires a.Dict? && b.Dict? && k in b.fields
    decreases b, 0
  {
    if k in a.fields && a.fields[k].Dict? then Merge(a.fields[k], b.fields[k]) else Some(b.fields[k])
  }

  predicate Mergeable(a: Json, b: Json)
    requires a.Dict? && b.Dict?
    decreases b, 1
  {
    forall k | k in b.fields :: MergedField(a, b, k).Some?
  }

  /** merge_dict(dict1, dict2); None is a ValueError. */
  function Merge(a: Json, b: Json): Option<Json>
    decreases b, 2
  {
    if !a.Dict? || !b.Dict? || !Mergeable(a, b) then None
    else
      Some(Dict(map k | k in a.fields.Keys + b.fields.Keys ::
        if k in b.fields then MergedField(a, b, k).value else a.fields[k]))
  }

  /** The value under a key, if there is one. */
  function Field(j: Json, k: string): Option<Json> {
    if j.Dict? && k in j.fields then Some(j.fields[k]) else None
  }

  /** The value at the end of a path of keys. */
  function At(j: Json, path: seq<string>): Option<Json> {
    if path == [] then Some(j)
    else if Field(j, path[0]).None? then None
    else At(Field(j, path[0]).value, path[1..])
  }

  /** A defined merge, key by key. */
  lemma MergeField(a: Json, b: Json, k: string)
    requires Merge(a, b).Some?
    ensures a.Dict? && b.Dict? && Merge(a, b).value.Dict?
    ensures Field(Merge(a, b).value, k) == if k in b.fields then MergedField(a, b, k) else Field(a, k)
    ensures k in b.fields ==> MergedField(a, b, k).Some?
  {
  }

  lemma FailingField(a: Json, b: Json) returns (k: string)
    requires a.Dict? && b.Dict? && Merge(a, b).None?
    ensures k in b.fields && MergedField(a, b, k).None?
  {
    assert !Mergeable(a, b);
    k :| k in b.fields && MergedField(a, b, k).None?;
  }

  lemma SameFields(x: Json, y: Json)
    requires x.Dict? && y.Dict? && forall k :: Field(x, k) == Field(y, k)
    ensures x == y
  {
    forall k ensures k in x.fields <==> k in y.fields {
      assert Field(x, k) == Field(y, k);
    }
    forall k | k in x.fields ensures x.fields[k] == y.fields[k] {
      assert Field(x, k) == Field(y, k);
    }
    assert x.fields == y.fields;
  }

  // ---- identity, idempotence, keys -----------------------------------------

  lemma EmptyIsIdentity(a: Json)
    requires a.Dict?
    ensures Merge(a, EMPTY) == Some(a) && Merge(EMPTY, a) == Some(a)
  {
    assert Mergeable(a, EMPTY) && Mergeable(EMPTY, a);
    forall k ensures Field(Merge(a, EMPTY).value, k) == Field(a, k) && Field(Merge(EMPTY, a).value, k) == Field(a, k) {
      MergeField(a, EMPTY, k);
      MergeField(EMPTY, a, k);
    }
    SameFields(Merge(a, EMPTY).value, a);
    SameFields(Merge(EMPTY, a).value, a);
  }

  lemma {:induction false} MergeIdempotent(a: Json)
    requires a.Dict?
    ensures Merge(a, a) == Some(a)
    decreases a
  {
    forall k | k in a.fields ensures MergedField(a, a, k) == Some(a.fields[k]) {
      if a.fields[k].Dict? {
        MergeIdempotent(a.fields[k]);
      }
    }
    assert Mergeable(a, a);
    forall k ensures Field(Merge(a, a).value, k) == Field(a, k) {
      MergeField(a, a, k);
    }
    SameFields(Merge(a, a).value, a);
  }

  /** The keys of a merge are those of either dictionary, and later values win
      over earlier ones that are not dictionaries. */
  lemma MergeKeys(a: Json, b: Json)
    requires Merge(a, b).Some?
    ensures Merge(a, b).value.fields.Keys == a.fields.Keys + b.fields.Keys
  {
  }

  // ---- what a merge holds, at every depth --------------------------------------

  /** At the end of every path the later dictionary wins, except that two
      dictionaries are merged. */
  lemma {:induction false} MergeAt(a: Json, b: Json, path: seq<string>)
    requires Merge(a, b).Some?
    ensures var m, x, y := At(Merge(a, b).value, path), At(a, path), At(b, path);
      if y.None? then m == x
      else if x.Some? && x.value.Dict? then m == Merge(x.value, y.value) && m.Some?
      else m == y
    decreases |path|
  {
    if path != [] {
      var k := path[0];
      MergeField(a, b, k);
      if k in b.fields && k in a.fields && a.fields[k].Dict? {
        MergeAt(a.fields[k], b.fields[k], path[1..]);
      } else if k in b.fields && k in a.fields {
        PlainHasNoPaths(a.fields[k], path[1..]);
      }
    }
  }

  lemma PlainHasNoPaths(j: Json, path: seq<string>)
    requires j.Plain?
    ensures At(j, path) == if path == [] then Some(j) else None
  {
  }

  /** Somewhere a dictionary of a meets something else in b. */
  ghost predicate Clash(a: Json, b: Json, path: seq<string>) {
    var x, y := At(a, path), At(b, path);
    x.Some? && y.Some? && x.value.Dict? && y.value.Plain?
  }

  /** Two dictionaries can be merged exactly when no path leads to a dictionary in
      the first and to a plain value in the second. */
  lemma {:induction false} MergeDefinedIff(a: Json, b: Json)
    requires a.Dict? && b.Dict?
    ensures Merge(a, b).Some? <==> forall path :: !Clash(a, b, path)
    decreases b
  {
    if Merge(a, b).Some? {
      forall path ensures !Clash(a, b, path) {
        MergeAt(a, b, path);
      }
    } else {
      var path := FindClash(a, b);
    }
  }

  lemma {:induction false} FindClash(a: Json, b: Json) returns (path: seq<string>)
    requires a.Dict? && Merge(a, b).None?
    ensures Clash(a, b, path)
    decreases b
  {
    if b.Plain? {
      path := [];
    } else {
      var k := FailingField(a, b);
      var rest := FindClash(a.fields[k], b.fields[k]);
      path := [k] + rest;
      assert path[1..] == rest;
    }
  }

  // ---- three files -----------------------------------------------------------

  /** What becomes of a field: None is a ValueError, Some(None) no field. */
  function MergeFields(x: Option<Json>, y: Option<Json>): Option<Option<Json>> {
    if y.None? then Some(x)
    else if x.Some? && x.value.Dict? then
      match Merge(x.value, y.value)
      case None => None
      case Some(m) => Some(Some(m))
    else Some(y)
  }

  lemma FieldOfBoth(a: Json, b: Json, k: string)
    requires a.Dict? && b.Dict?
    ensures MergeFields(Field(a, k), Field(b, k)) ==
      if k !in b.fields then Some(Field(a, k))
      else if MergedField(a, b, k).None? then None
      else Some(MergedField(a, b, k))
  {
  }

  /** Merging is merging every field. */
  lemma MergeByFields(a: Json, b: Json)
    requires a.Dict? && b.Dict?
    ensures Merge(a, b).Some? <==> forall k :: MergeFields(Field(a, k), Field(b, k)).Some?
    ensures Merge(a, b).Some? ==>
      forall k :: Field(Merge(a, b).value, k) == MergeFields(Field(a, k), Field(b, k)).value
  {
    if Merge(a, b).Some? {
      forall k ensures MergeFields(Field(a, k), Field(b, k)) == Some(Field(Merge(a, b).value, k)) {
        FieldOfBoth(a, b, k);
        MergeField(a, b, k);
      }
    } else {
      var k := FailingField(a, b);
      FieldOfBoth(a, b, k);
    }
  }

  ghost predicate FieldsAssociate(x: Option<Json>, y: Option<Json>, z: Option<Json>)
    requires MergeFields(x, y).Some?
  {
    var left, inner := MergeFields(MergeFields(x, y).value, z), MergeFields(y, z);
    if left.Some? then inner.Some? && MergeFields(x, inner.value) == left
    else inner.None? || MergeFields(x, inner.value).None?
  }

  lemma {:induction false} FieldAssociative(x: Option<Json>, y: Option<Json>, z: Json)
    requires MergeFields(x, y).Some?
    ensures FieldsAssociate(x, y, Some(z))
    decreases z, 1
  {
    if x.Some? && y.Some? && x.value.Dict? {
      MergeAssociativeIff(x.value, y.value, z);
    }
  }

  ghost predicate AllAssociate(a: Json, b: Json, c: Json) {
    forall k :: MergeFields(Field(a, k), Field(b, k)).Some? && FieldsAssociate(Field(a, k), Field(b, k), Field(c, k))
  }

  /** One field of a defined merge. */
  lemma FieldOfMerge(a: Json, b: Json, m: Json, k: string)
    requires Merge(a, b) == Some(m)
    ensures MergeFields(Field(a, k), Field(b, k)) == Some(Field(m, k))
  {
    FieldOfBoth(a, b, k);
    MergeField(a, b, k);
  }

  lemma LeftToRight(a: Json, b: Json, c: Json, ab: Json)
    requires a.Dict? && b.Dict? && c.Dict? && Merge(a, b) == Some(ab) && AllAssociate(a, b, c) && Merge(ab, c).Some?
    ensures Merge(b, c).Some? && Merge(a, Merge(b, c).value) == Merge(ab, c)
  {
    var abc := Merge(ab, c).value;
    forall k ensures MergeFields(Field(b, k), Field(c, k)).Some? {
      FieldOfMerge(a, b, ab, k);
      FieldOfMerge(ab, c, abc, k);
      assert FieldsAssociate(Field(a, k), Field(b, k), Field(c, k));
    }
    MergeByFields(b, c);
    var bc := Merge(b, c).value;
    forall k ensures MergeFields(Field(a, k), Field(bc, k)) == Some(Field(abc, k)) {
      FieldOfMerge(a, b, ab, k);
      FieldOfMerge(ab, c, abc, k);
      FieldOfMerge(b, c, bc, k);
      assert FieldsAssociate(Field(a, k), Field(b, k), Field(c, k));
    }
    MergeByFields(a, bc);
    SameFields(Merge(a, bc).value, abc);
  }

  lemma RightField(a: Json, b: Json, c: Json, ab: Json, bc: Json, abc: Json, k: string)
    requires Merge(a, b) == Some(ab) && Merge(b, c) == Some(bc) && Merge(a, bc) == Some(abc) && AllAssociate(a, b, c)
    ensures MergeFields(Field(ab, k), Field(c, k)).Some?
  {
    FieldOfMerge(a, b, ab, k);
    FieldOfMerge(b, c, bc, k);
    FieldOfMerge(a, bc, abc, k);
    assert FieldsAssociate(Field(a, k), Field(b, k), Field(c, k));
  }

  lemma RightToLeft(a: Json, b: Json, c: Json, ab: Json)
    requires a.Dict? && b.Dict? && c.Dict? && Merge(a, b) == Some(ab) && AllAssociate(a, b, c)
    requires Merge(b, c).Some? && Merge(a, Merge(b, c).value).Some?
    ensures Merge(ab, c).Some?
  {
    var bc := Merge(b, c).value;
    forall k ensures MergeFields(Field(ab, k), Field(c, k)).Some? {
      RightField(a, b, c, ab, bc, Merge(a, bc).value, k);
    }
    MergeByFields(ab, c);
  }

  /** When a and b can be merged, merging c onto the result is defined exactly when
      merging the merge of b and c onto a is, and gives the same. */
  lemma {:induction false} MergeAssociativeIff(a: Json, b: Json, c: Json)
    requires Merge(a, b).Some?
    ensures Merge(Merge(a, b).value, c).Some? <==> Merge(b, c).Some? && Merge(a, Merge(b, c).value).Some?
    ensures Merge(Merge(a, b).value, c).Some? ==> Merge(Merge(a, b).value, c) == Merge(a, Merge(b, c).value)
    decreases c, 0
  {
    if c.Dict? {
      var ab := Merge(a, b).value;
      MergeByFields(a, b);
      forall k ensures MergeFields(Field(a, k), Field(b, k)).Some? && FieldsAssociate(Field(a, k), Field(b, k), Field(c, k)) {
        if k in c.fields {
          FieldAssociative(Field(a, k), Field(b, k), c.fields[k]);
        }
      }
      if Merge(ab, c).Some? {
        LeftToRight(a, b, c, ab);
      } else if Merge(b, c).Some? && Merge(a, Merge(b, c).value).Some? {
        RightToLeft(a, b, c, ab);
      }
    }
  }

  /** The order of merging matters where a plain value meets a dictionary: then
      only one of the two orders is defined. */
  lemma OneOrderOnly(k: string, v: string)
    ensures var a, b, c := Dict(map[k := EMPTY]), Dict(map[k := Plain(v)]), Dict(map[k := EMPTY]);
      Merge(a, b).None? && Merge(b, c) == Some(c) && Merge(a, Merge(b, c).value) == Some(a)
  {
    var a, b, c := Dict(map[k := EMPTY]), Dict(map[k := Plain(v)]), Dict(map[k := EMPTY]);
    assert Clash(a, b, [k]) by {
      assert At(a, [k]) == Some(EMPTY) && At(b, [k]) == Some(Plain(v));
    }
    MergeDefinedIff(a, b);
    assert MergedField(b, c, k) == Some(EMPTY);
    assert Mergeable(b, c);
    assert Merge(b, c).value.fields == c.fields;
    EmptyIsIdentity(EMPTY);
    MergeIdempotent(a);
  }

  // ---- the program -----------------------------------------------------

  /** merge_dict: the fields of dict2, in some order, are put into a copy of
      dict1. */
  method MergeDict(a: Json, b: Json) returns (r: Option<Json>)
    ensures r == Merge(a, b)
    decreases b
  {
    if !a.Dict? || !b.Dict? {
      return None;
    }
    var result := a.fields;
    var keys := b.fields.Keys;
    while keys != {}
      invariant keys <= b.fields.Keys
      invariant forall k | k in b.fields && k !in keys :: MergedField(a, b, k) == Field(Dict(result), k) && k in result
      invariant forall k | k in keys || k !in b.fields :: Field(Dict(result), k) == Field(a, k)
    {
      var k :| k in keys;
      assert Field(Dict(result), k) == Field(a, k);
      if k in result && result[k].Dict? {
        var merged := MergeDict(result[k], b.fields[k]);
        if merged.None? {
          assert MergedField(a, b, k).None?;
          return None;
        }
        result := result[k := merged.value];
      } else {
        result := result[k := b.fields[k]];
      }
      keys := keys - {k};
    }
    assert Mergeable(a, b);
    forall k ensures Field(Merge(a, b).value, k) == Field(Dict(result), k) {
      MergeField(a, b, k);
    }
    SameFields(Merge(a, b).value, Dict(result));
    return Some(Dict(result));
  }

  /** The credentials, the configuration and the pool, as the program reads them;
      None is a ValueError. */
  method LoadConfiguration(credentials: Json, config: Json, pool: Json) returns (r: Option<Json>)
    ensures var first := Merge(credentials, config); r == if first.Some? then Merge(first.value, pool) else None
    ensures r.Some? ==> Merge(config, pool).Some? && r == Merge(credentials, Merge(config, pool).value)
  {
    var first := MergeDict(credentials, config);
    if first.None? {
      return None;
    }
    MergeAssociativeIff(credentials, config, pool);
    r := MergeDict(first.value, pool);
  }
}
