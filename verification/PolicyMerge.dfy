// Deep merging of JSON policies, as a function on own fields. What property
// access reads beyond them is the subject of PolicyInheritance.

module PolicyMerge {
  import opened Common
  import opened JsonValues

  // Two names are no ordinary fields, unless the target has such a field.
  // Reading or assigning PROTO reaches the object that the target inherits from;
  // assigning the LENGTH of an array resizes it, or throws.
  const PROTO := "__proto__"
  const LENGTH := "length"

  predicate IsSpecial(isArray: bool, key: string) { key == PROTO || (isArray && key == LENGTH) }

  // Merging under this name changes a field of the target's own.
  predicate Takes(target: Json, key: string)
    requires target.Node?
  {
    key in target.fields || !IsSpecial(target.isArray, key)
  }

  // What a merge goes into: an existing container, or a fresh object.
  function Container(fields: map<string, Json>, key: string): (c: Json)
    ensures c.Node?
  {
    if key in fields && fields[key].Node? then fields[key] else EMPTY_OBJECT
  }

  function Merged(target: Json, source: Json): (r: Json)
    requires target.Node?
    ensures r.Node? && r.isArray == target.isArray
    decreases source
  {
    if source.Leaf? then target
    else Node(target.isArray, map key | key in target.fields.Keys + source.fields.Keys && Takes(target, key) ::
                if key in source.fields then MergedField(target, source, key) else target.fields[key])
  }

  function MergedField(target: Json, source: Json, key: string): Json
    requires target.Node? && source.Node? && key in source.fields
    decreases source, 0
  {
    var v := source.fields[key];
    if IsObject(v) then Merged(Container(target.fields, key), v) else v
  }

  // The value a source assigns at a path, if it assigns one there.
  function Assigned(source: Json, path: seq<string>): Option<Json>
    decreases |path|
  {
    if path == [] || source.Leaf? || path[0] !in source.fields then None
    else
      var v := source.fields[path[0]];
      if !IsObject(v) then (if |path| == 1 then Some(v) else None)
      else Assigned(v, path[1..])
  }

  // The source says nothing at, above or below the path.
  predicate Diverges(source: Json, path: seq<string>)
    decreases |path|
  {
    path != [] &&
    (source.Leaf? || path[0] !in source.fields ||
     (IsObject(source.fields[path[0]]) && Diverges(source.fields[path[0]], path[1..])))
  }

  // The path leads to one of the source's own objects.
  predicate LeadsToObject(source: Json, path: seq<string>)
    decreases |path|
  {
    source.Node? &&
    (path == [] ||
     (path[0] in source.fields && IsObject(source.fields[path[0]]) && LeadsToObject(source.fields[path[0]], path[1..])))
  }

  // Every name on the path is one the target takes for its own.
  predicate StaysOwn(target: Json, path: seq<string>)
    requires target.Node?
    decreases |path|
  {
    path == [] || (Takes(target, path[0]) && StaysOwn(Container(target.fields, path[0]), path[1..]))
  }

  // A value the source assigns reads back from the merge, exactly when its path stays within the target.
  lemma {:induction false} AssignedIsOwnIff(target: Json, source: Json, path: seq<string>)
    requires target.Node? && Assigned(source, path).Some?
    ensures Own(Merged(target, source), path) == Assigned(source, path) <==> StaysOwn(target, path)
    ensures !StaysOwn(target, path) ==> Own(Merged(target, source), path) == None
    decreases |path|
  {
    var key := path[0];
    var v := source.fields[key];
    if Takes(target, key) {
      assert Merged(target, source).fields[key] == MergedField(target, source, key);
      if IsObject(v) {
        AssignedIsOwnIff(Container(target.fields, key), v, path[1..]);
      } else {
        assert path[1..] == [];
      }
    } else {
      assert key !in Merged(target, source).fields;
    }
  }

  // Paths the source does not speak about read as before.
  lemma {:induction false} DivergentFieldsAreKept(target: Json, source: Json, path: seq<string>)
    requires target.Node? && Diverges(source, path)
    ensures Own(Merged(target, source), path) == Own(target, path)
    decreases |path|
  {
    if source.Node? && path[0] in source.fields && Takes(target, path[0]) {
      var key := path[0];
      var v := source.fields[key];
      var base := Container(target.fields, key);
      assert Merged(target, source).fields[key] == Merged(base, v);
      DivergentFieldsAreKept(base, v, path[1..]);
    }
  }

  // Where the source has an object, the merge has a container, under the same condition.
  lemma {:induction false} ObjectsAreOwnIff(target: Json, source: Json, path: seq<string>)
    requires target.Node? && LeadsToObject(source, path)
    ensures var r := Own(Merged(target, source), path);
      && ((r.Some? && r.value.Node?) <==> StaysOwn(target, path))
      && (!StaysOwn(target, path) ==> r == None)
    decreases |path|
  {
    if path != [] {
      var key := path[0];
      if Takes(target, key) {
        assert Merged(target, source).fields[key] == MergedField(target, source, key);
        ObjectsAreOwnIff(Container(target.fields, key), source.fields[key], path[1..]);
      } else {
        assert key !in Merged(target, source).fields;
      }
    }
  }

  // Below an assigned value the merge reads what the source has there.
  lemma {:induction false} AssignedIsOwnBelow(target: Json, source: Json, path: seq<string>, below: seq<string>)
    requires target.Node? && Assigned(source, path).Some? && StaysOwn(target, path)
    ensures Own(Merged(target, source), path + below) == Own(Assigned(source, path).value, below)
    decreases |path|
  {
    var key := path[0];
    var v := source.fields[key];
    assert (path + below)[0] == key && (path + below)[1..] == path[1..] + below;
    assert Merged(target, source).fields[key] == MergedField(target, source, key);
    if IsObject(v) {
      AssignedIsOwnBelow(Container(target.fields, key), v, path[1..], below);
    } else {
      assert path[1..] + below == below;
    }
  }

  // Every path is of one of three kinds, so the lemmas above say what a merge
  // reads everywhere.
  lemma {:induction false} PathsAreClassified(source: Json, path: seq<string>)
    requires source.Node?
    ensures Diverges(source, path) || LeadsToObject(source, path) ||
            exists k :: 0 < k <= |path| && Assigned(source, path[..k]).Some?
    decreases |path|
  {
    if path != [] && path[0] in source.fields {
      var v := source.fields[path[0]];
      if IsObject(v) {
        PathsAreClassified(v, path[1..]);
        if k :| 0 < k <= |path[1..]| && Assigned(v, path[1..][..k]).Some? {
          assert path[..k + 1][1..] == path[1..][..k];
          assert Assigned(source, path[..k + 1]).Some?;
        }
      } else {
        assert Assigned(source, path[..1]).Some?;
      }
    }
  }

  // The source has something to say at the path.
  predicate Speaks(source: Json, path: seq<string>) { Assigned(source, path).Some? || LeadsToObject(source, path) }

  // ... and the merge shows it there.
  predicate Lands(target: Json, source: Json, path: seq<string>)
    requires target.Node?
  {
    var r := Own(Merged(target, source), path);
    if Assigned(source, path).Some? then r == Assigned(source, path) else r.Some? && r.value.Node?
  }

  // An object of the source carries the reserved name where the target owns no such property.
  predicate Escapes(target: Json, source: Json)
    requires target.Node?
    decreases source
  {
    source.Node? &&
    exists key | key in source.fields ::
      !Takes(target, key) || (IsObject(source.fields[key])
        && Escapes(Container(target.fields, key), source.fields[key]))
  }

  // All the source says is heard in the merge, exactly when nothing escapes the target.
  lemma {:induction false} EverythingLandsIff(target: Json, source: Json)
    requires target.Node?
    ensures (forall path | Speaks(source, path) :: Lands(target, source, path)) <==> !Escapes(target, source)
  {
    if Escapes(target, source) {
      var path := EscapingPath(target, source);
      LandsIff(target, source, path);
    } else {
      forall path | Speaks(source, path) ensures Lands(target, source, path) {
        LandsIff(target, source, path);
        KeptPath(target, source, path);
      }
    }
  }

  lemma {:induction false} LandsIff(target: Json, source: Json, path: seq<string>)
    requires target.Node? && Speaks(source, path)
    ensures Lands(target, source, path) <==> StaysOwn(target, path)
  {
    if Assigned(source, path).Some? {
      AssignedIsOwnIff(target, source, path);
    } else {
      ObjectsAreOwnIff(target, source, path);
    }
  }

  lemma {:induction false} KeptPath(target: Json, source: Json, path: seq<string>)
    requires target.Node? && Speaks(source, path) && !Escapes(target, source)
    ensures StaysOwn(target, path)
    decreases |path|
  {
    if path != [] {
      var key := path[0];
      if IsObject(source.fields[key]) {
        KeptPath(Container(target.fields, key), source.fields[key], path[1..]);
      }
    }
  }

  lemma {:induction false} EscapingPath(target: Json, source: Json) returns (path: seq<string>)
    requires target.Node? && Escapes(target, source)
    ensures Speaks(source, path) && !StaysOwn(target, path)
    decreases source
  {
    var key :| key in source.fields &&
      (!Takes(target, key) || (IsObject(source.fields[key])
        && Escapes(Container(target.fields, key), source.fields[key])));
    if !Takes(target, key) {
      path := [key];
    } else {
      var rest := EscapingPath(Container(target.fields, key), source.fields[key]);
      path := [key] + rest;
      assert path[1..] == rest;
    }
  }

  // ---------- Beyond the own fields ----------

  // How many objects a container inherits from: an array from the two that all
  // arrays and all objects inherit from.
  function Level(target: Json): nat
    requires target.Node?
  {
    if target.isArray then 2 else 1
  }

  // Assigning or merging this under PROTO changes nothing at all. With nothing
  // more to inherit from, a primitive is ignored and an object or array makes
  // the engine throw; otherwise null and arrays become what the target inherits
  // from, and an object is merged into that.
  predicate IsIgnored(v: Json, level: nat)
    decreases v
  {
    if level == 0 then v.Leaf?
    else if v.Leaf? then v != NULL
    else !v.isArray && forall key | key in v.fields :: key == PROTO && IsIgnored(v.fields[key], level - 1)
  }

  // The merge does anything beyond the target's own fields.
  predicate Disturbs(target: Json, source: Json)
    requires target.Node?
    decreases source, 1
  {
    source.Node? && exists key | key in source.fields :: DisturbsAt(target, source, key)
  }

  predicate DisturbsAt(target: Json, source: Json, key: string)
    requires target.Node? && source.Node? && key in source.fields
    decreases source, 0
  {
    var v := source.fields[key];
    if Takes(target, key) then IsObject(v) && Disturbs(Container(target.fields, key), v)
    else key == PROTO ==> !IsIgnored(v, Level(target))
  }

  // A second merge of the same source does so just when the first does.
  lemma {:induction false} DisturbanceIsStable(target: Json, source: Json)
    requires target.Node?
    ensures Disturbs(Merged(target, source), source) == Disturbs(target, source)
    decreases source
  {
    if source.Node? {
      var r := Merged(target, source);
      forall key | key in source.fields
        ensures DisturbsAt(r, source, key) == DisturbsAt(target, source, key)
      {
        if Takes(target, key) && IsObject(source.fields[key]) {
          assert r.fields[key] == MergedField(target, source, key);
          DisturbanceIsStable(Container(target.fields, key), source.fields[key]);
        }
      }
    }
  }

  // Merging the same values twice is merging them once.
  lemma {:induction false} MergeIsIdempotent(target: Json, source: Json)
    requires target.Node?
    ensures Merged(Merged(target, source), source) == Merged(target, source)
    decreases source
  {
    if source.Node? {
      var once := Merged(target, source);
      forall key | key in source.fields
        ensures MergedField(once, source, key) == MergedField(target, source, key)
      {
        if IsObject(source.fields[key]) {
          MergeIsIdempotent(Container(target.fields, key), source.fields[key]);
        }
      }
      assert Merged(once, source).fields == once.fields;
    }
  }

  // The target has everything the source would assign.
  predicate AlreadyHolds(target: Json, source: Json)
    requires target.Node?
    decreases source
  {
    source.Node? ==>
    forall key | key in source.fields && Takes(target, key) ::
      && key in target.fields
      && if IsObject(source.fields[key])
         then target.fields[key].Node? && AlreadyHolds(target.fields[key], source.fields[key])
         else target.fields[key] == source.fields[key]
  }

  // A merge changes nothing exactly when there is nothing new in it.
  lemma {:induction false} MergeIsIdleIff(target: Json, source: Json)
    requires target.Node?
    ensures Merged(target, source) == target <==> AlreadyHolds(target, source)
    decreases source
  {
    if source.Node? {
      var r := Merged(target, source);
      forall key | key in source.fields && Takes(target, key) && key in target.fields && IsObject(source.fields[key])
        && target.fields[key].Node?
        ensures r.fields[key] == target.fields[key] <==> AlreadyHolds(target.fields[key], source.fields[key])
      {
        assert r.fields[key] == MergedField(target, source, key);
        MergeIsIdleIff(target.fields[key], source.fields[key]);
      }
      if AlreadyHolds(target, source) {
        assert r.fields.Keys == target.fields.Keys;
        forall key | key in r.fields ensures r.fields[key] == target.fields[key] {
          if key in source.fields && Takes(target, key) {
            assert r.fields[key] == MergedField(target, source, key);
          }
        }
        assert r.fields == target.fields;
      } else if r == target {
        var key :| key in source.fields && Takes(target, key) &&
          !(key in target.fields &&
            if IsObject(source.fields[key])
            then target.fields[key].Node? && AlreadyHolds(target.fields[key], source.fields[key])
            else target.fields[key] == source.fields[key]);
        assert key in r.fields;
        assert r.fields[key] == MergedField(target, source, key);
      }
    }
  }

  predicate FieldsAgree(a: Json, b: Json, key: string)
    requires a.Node? && b.Node?
  {
    (key in a.fields <==> key in b.fields) && (key in a.fields ==> a.fields[key] == b.fields[key])
  }

  // The targets differ only where the source overrides.
  predicate AlikeUnder(a: Json, b: Json, source: Json)
    requires a.Node? && b.Node?
    decreases source, 1
  {
    && a.isArray == b.isArray
    && forall key | key in a.fields.Keys + b.fields.Keys + Names(source) :: AlikeAt(a, b, source, key)
  }

  function Names(source: Json): set<string> { if source.Node? then source.fields.Keys else {} }

  predicate AlikeAt(a: Json, b: Json, source: Json, key: string)
    requires a.Node? && b.Node?
    decreases source, 0
  {
    if key in Names(source) && Takes(a, key) && Takes(b, key) then
      IsObject(source.fields[key]) ==>
        AlikeUnder(Container(a.fields, key), Container(b.fields, key), source.fields[key])
    else FieldsAgree(a, b, key)
  }

  // Two targets take the same source to the same value, exactly when they are alike under it.
  lemma {:induction false} MergesAgreeIff(a: Json, b: Json, source: Json)
    requires a.Node? && b.Node?
    ensures Merged(a, source) == Merged(b, source) <==> AlikeUnder(a, b, source)
    decreases source
  {
    if a.isArray == b.isArray {
      var A, B := Merged(a, source), Merged(b, source);
      forall key | key in a.fields.Keys + b.fields.Keys + Names(source)
        ensures FieldsAgree(A, B, key) <==> AlikeAt(a, b, source, key)
      {
        if key in Names(source) && Takes(a, key) && Takes(b, key) {
          assert A.fields[key] == MergedField(a, source, key) && B.fields[key] == MergedField(b, source, key);
          if IsObject(source.fields[key]) {
            MergesAgreeIff(Container(a.fields, key), Container(b.fields, key), source.fields[key]);
          }
        }
      }
      if forall key | key in a.fields.Keys + b.fields.Keys + Names(source) :: FieldsAgree(A, B, key) {
        forall key | key in A.fields || key in B.fields ensures FieldsAgree(A, B, key) {}
        assert A.fields.Keys == B.fields.Keys;
        assert A.fields == B.fields;
      }
    }
  }
}
