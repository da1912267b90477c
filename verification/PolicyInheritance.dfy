// What a merge does beyond own fields, and what property access reads. Every
// object inherits from one object, and every array from another one that itself
// inherits from the first; a merge that meets PROTO can go into these.

module PolicyInheritance {
  import opened Common
  import opened JsonValues
  import opened PolicyMerge

  // What merges have put into the two inherited objects, built-in members
  // aside. `broken` says that the engine threw, that something was given another
  // object to inherit from, or that an array was resized: then nothing more is said.
  datatype Realm = Realm(objects: map<string, Json>, arrays: map<string, Json>, broken: bool)

  const UNTOUCHED := Realm(map[], map[], false)

  // The inherited object of rank 0 is that of objects, the one of rank 1 that of
  // arrays. What has level n inherits from the one of rank n - 1.
  type Rank = n: nat | n < 2

  function Inherited(realm: Realm, n: Rank): Json { Node(n == 1, if n == 0 then realm.objects else realm.arrays) }

  // Somewhere in an inherited object.
  datatype Place = Place(rank: Rank, path: seq<string>)

  function At(realm: Realm, at: Place): Option<Json> { Own(Inherited(realm, at.rank), at.path) }

  function LevelAt(at: Place, node: Json): (level: nat)
    requires node.Node?
    ensures level <= 2
  {
    if at.path == [] then at.rank else Level(node)
  }

  lemma OwnField(j: Json, key: string)
    requires j.Node? && key in j.fields
    ensures Own(j, [key]) == Some(j.fields[key])
  {
    assert [key][1..] == [];
    assert Own(j, [key]) == Own(j.fields[key], []);
  }

  // Where something of this level finds a field that it inherits.
  function Find(realm: Realm, level: nat, key: string): (r: Option<Place>)
    requires level <= 2
    ensures r.Some? ==> At(realm, r.value).Some?
  {
    if level == 0 then None
    else if key in Inherited(realm, level - 1).fields then
      var at := Place(level - 1, [key]);
      OwnField(Inherited(realm, level - 1), key);
      Some(at)
    else Find(realm, level - 1, key)
  }

  predicate FindsContainer(realm: Realm, level: nat, key: string)
    requires level <= 2
  {
    var at := Find(realm, level, key);
    at.Some? && At(realm, at.value).value.Node?
  }

  // ---------- Merging ----------

  function Grafted(fields: map<string, Json>, path: seq<string>, key: string, v: Json): (r: map<string, Json>)
    ensures fields.Keys <= r.Keys && (path == [] ==> r == fields[key := v])
    decreases |path|
  {
    if path == [] then fields[key := v]
    else if path[0] in fields && fields[path[0]].Node? then
      var child := fields[path[0]];
      fields[path[0] := Node(child.isArray, Grafted(child.fields, path[1..], key, v))]
    else fields
  }

  // Nothing put there ever leaves.
  predicate Grows(before: Realm, after: Realm) {
    before.objects.Keys <= after.objects.Keys && before.arrays.Keys <= after.arrays.Keys
    && (before.broken ==> after.broken)
  }

  function Written(realm: Realm, at: Place, key: string, v: Json): (r: Realm)
    ensures Grows(realm, r)
  {
    if at.rank == 0 then realm.(objects := Grafted(realm.objects, at.path, key, v))
    else realm.(arrays := Grafted(realm.arrays, at.path, key, v))
  }

  // Assigning under PROTO: with nothing to inherit from, only a primitive is
  // taken; otherwise a primitive other than null is ignored.
  function Reassigned(realm: Realm, level: nat, v: Json): (r: Realm)
    ensures Grows(realm, r)
  {
    if v.Leaf? && (level == 0 || v != NULL) then realm else realm.(broken := true)
  }

  // The order in which the keys of each object are visited.
  type Order = Json -> seq<string>

  ghost predicate IsOrder(order: Order) { forall j: Json | j.Node? :: Lists(order(j), j.fields.Keys) }

  ghost predicate Lists(keys: seq<string>, all: set<string>) {
    (forall k :: k in keys <==> k in all) && forall i, j | 0 <= i < j < |keys| :: keys[i] != keys[j]
  }

  // Merging into a place of an inherited object.
  ghost function MergedThere(realm: Realm, at: Place, s: Json, keys: seq<string>, order: Order): (r: Realm)
    requires IsOrder(order) && s.Node? && forall k | k in keys :: k in s.fields
    ensures Grows(realm, r)
    decreases s, |keys|
  {
    if keys == [] then realm
    else MergedThere(StepThere(realm, at, s, keys[0], order), at, s, keys[1..], order)
  }

  ghost function StepThere(realm: Realm, at: Place, s: Json, key: string, order: Order): (r: Realm)
    requires IsOrder(order) && s.Node? && key in s.fields
    ensures Grows(realm, r)
    decreases s, 0
  {
    var v := s.fields[key];
    var target := At(realm, at);
    if realm.broken || target.None? || target.value.Leaf? then realm
    else
      var node := target.value;
      var level := LevelAt(at, node);
      if key !in node.fields && key == PROTO then
        if IsObject(v) && level > 0 then MergedThere(realm, Place(level - 1, []), v, order(v), order)
        else Reassigned(realm, level, v)
      else if key !in node.fields && IsSpecial(node.isArray, key) then realm.(broken := true)
      else if !IsObject(v) then Written(realm, at, key, v)
      else if key in node.fields && node.fields[key].Node? then
        MergedThere(realm, Place(at.rank, at.path + [key]), v, order(v), order)
      else if key !in node.fields && FindsContainer(realm, level, key) then
        MergedThere(realm, Find(realm, level, key).value, v, order(v), order)
      else
        MergedThere(Written(realm, at, key, EMPTY_OBJECT), Place(at.rank, at.path + [key]), v, order(v), order)
  }

  // Merging into a policy.
  ghost function MergedHere(realm: Realm, t: Json, s: Json, keys: seq<string>, order: Order): (r: (Realm, Json))
    requires IsOrder(order) && t.Node? && s.Node? && forall k | k in keys :: k in s.fields
    ensures Grows(realm, r.0) && r.1.Node?
    decreases s, |keys|
  {
    if keys == [] then (realm, t)
    else
      var (realm', t') := StepHere(realm, t, s, keys[0], order);
      MergedHere(realm', t', s, keys[1..], order)
  }

  ghost function StepHere(realm: Realm, t: Json, s: Json, key: string, order: Order): (r: (Realm, Json))
    requires IsOrder(order) && t.Node? && s.Node? && key in s.fields
    ensures Grows(realm, r.0) && r.1.Node?
    decreases s, 0
  {
    var v := s.fields[key];
    if realm.broken then (realm, t)
    else if key !in t.fields && key == PROTO then
      (if IsObject(v) then MergedThere(realm, Place(Level(t) - 1, []), v, order(v), order)
       else Reassigned(realm, Level(t), v), t)
    else if key !in t.fields && IsSpecial(t.isArray, key) then (realm.(broken := true), t)
    else if !IsObject(v) then (realm, t.(fields := t.fields[key := v]))
    else if key !in t.fields && FindsContainer(realm, Level(t), key) then
      (MergedThere(realm, Find(realm, Level(t), key).value, v, order(v), order), t)
    else
      var (realm', below) := MergedHere(realm, Container(t.fields, key), v, order(v), order);
      (realm', t.(fields := t.fields[key := below]))
  }

  // ---------- Exactly when nothing but own fields is touched ----------

  lemma {:induction false} UntouchedThereIff(n: Rank, s: Json, keys: seq<string>, order: Order)
    requires IsOrder(order) && IsObject(s) && forall k | k in keys :: k in s.fields
    ensures MergedThere(UNTOUCHED, Place(n, []), s, keys, order) == UNTOUCHED <==>
      forall k | k in keys :: k == PROTO && IsIgnored(s.fields[k], n)
    decreases s, |keys|
  {
    if keys != [] {
      var next := StepThere(UNTOUCHED, Place(n, []), s, keys[0], order);
      UntouchedStepIff(n, s, keys[0], order);
      if next == UNTOUCHED {
        UntouchedThereIff(n, s, keys[1..], order);
        assert forall k :: k in keys <==> k == keys[0] || k in keys[1..];
      }
    }
  }

  lemma {:induction false} UntouchedStepIff(n: Rank, s: Json, key: string, order: Order)
    requires IsOrder(order) && IsObject(s) && key in s.fields
    ensures StepThere(UNTOUCHED, Place(n, []), s, key, order) == UNTOUCHED <==>
      key == PROTO && IsIgnored(s.fields[key], n)
    decreases s, 0
  {
    var v := s.fields[key];
    if key == PROTO {
      if IsObject(v) && n > 0 {
        UntouchedThereIff(n - 1, v, order(v), order);
      }
    } else if IsSpecial(n == 1, key) {
    } else if !IsObject(v) {
      assert key in Inherited(Written(UNTOUCHED, Place(n, []), key, v), n).fields;
    } else {
      var started := Written(UNTOUCHED, Place(n, []), key, EMPTY_OBJECT);
      assert key in Inherited(started, n).fields;
      assert Find(UNTOUCHED, 0, key) == None && Find(UNTOUCHED, 1, key) == None;
      assert !FindsContainer(UNTOUCHED, n, key);
      var nowhere: seq<string> := [];
      assert nowhere + [key] == [key];
      assert StepThere(UNTOUCHED, Place(n, nowhere), s, key, order) ==
        MergedThere(started, Place(n, [key]), v, order(v), order);
    }
  }

  // The part of a source under these keys.
  function Only(s: Json, keys: seq<string>): Json
    requires s.Node?
  {
    Node(false, map k | k in s.fields && k in keys :: s.fields[k])
  }

  // The target with this key merged.
  function WithKey(t: Json, s: Json, key: string): Json
    requires t.Node? && s.Node? && key in s.fields
  {
    if Takes(t, key) then t.(fields := t.fields[key := MergedField(t, s, key)]) else t
  }

  // One key is visited: nothing beyond own fields happens exactly when it does
  // not disturb, and the key then has its merged value.
  lemma {:induction false} OneKeyHere(t: Json, s: Json, key: string, order: Order)
    requires IsOrder(order) && t.Node? && IsObject(s) && key in s.fields
    ensures var (realm, t') := StepHere(UNTOUCHED, t, s, key, order);
      && (realm == UNTOUCHED <==> !DisturbsAt(t, s, key))
      && (realm == UNTOUCHED ==> t' == WithKey(t, s, key))
    decreases s, 0
  {
    var v := s.fields[key];
    if !Takes(t, key) {
      if key == PROTO && IsObject(v) {
        UntouchedThereIff(Level(t) - 1, v, order(v), order);
      }
    } else if IsObject(v) {
      assert Find(UNTOUCHED, 1, key) == Find(UNTOUCHED, 0, key) == None;
      assert Find(UNTOUCHED, 2, key) == None;
      MergeHereIff(Container(t.fields, key), v, order);
    }
  }

  // The same for the next key, which the first one does not affect.
  lemma {:induction false} OtherKeysAreUnaffected(t: Json, t': Json, s: Json, key: string, k: string)
    requires t.Node? && s.Node? && key in s.fields && k in s.fields && k != key
    requires t' == WithKey(t, s, key)
    ensures t'.Node? && DisturbsAt(t', s, k) == DisturbsAt(t, s, k)
    ensures Takes(t', k) == Takes(t, k) && MergedField(t', s, k) == MergedField(t, s, k)
  {
  }

  lemma {:induction false} MergeWithoutKey(t: Json, t': Json, whole: Json, part: Json, key: string)
    requires t.Node? && IsObject(whole) && IsObject(part) && key in whole.fields && t' == WithKey(t, whole, key)
    requires part.fields == whole.fields - {key}
    ensures Merged(t', part) == Merged(t, whole)
  {
    forall k | k in part.fields ensures MergedField(t', part, k) == MergedField(t, whole, k) {
      OtherKeysAreUnaffected(t, t', whole, key, k);
    }
    assert Merged(t', part).fields == Merged(t, whole).fields;
  }

  lemma {:induction false} MergeByKey(t: Json, t': Json, s: Json, keys: seq<string>)
    requires t.Node? && IsObject(s) && (forall k | k in keys :: k in s.fields)
    requires keys != [] && keys[0] !in keys[1..] && t' == WithKey(t, s, keys[0])
    ensures Merged(t', Only(s, keys[1..])) == Merged(t, Only(s, keys))
  {
    var whole, part := Only(s, keys), Only(s, keys[1..]);
    assert forall k :: k in keys <==> k == keys[0] || k in keys[1..];
    assert part.fields == whole.fields - {keys[0]};
    MergeWithoutKey(t, t', whole, part, keys[0]);
  }

  lemma {:induction false} KeysHere(t: Json, s: Json, keys: seq<string>, order: Order)
    requires IsOrder(order) && t.Node? && IsObject(s) && forall k | k in keys :: k in s.fields
    requires forall i, j | 0 <= i < j < |keys| :: keys[i] != keys[j]
    ensures var (realm, t') := MergedHere(UNTOUCHED, t, s, keys, order);
      && (realm == UNTOUCHED <==> forall k | k in keys :: !DisturbsAt(t, s, k))
      && (realm == UNTOUCHED ==> t' == Merged(t, Only(s, keys)))
    decreases s, |keys|
  {
    if keys == [] {
      assert Merged(t, Only(s, keys)).fields == t.fields;
    } else {
      var key, rest := keys[0], keys[1..];
      var (realm, t') := StepHere(UNTOUCHED, t, s, key, order);
      OneKeyHere(t, s, key, order);
      if realm == UNTOUCHED {
        forall k | k in rest ensures DisturbsAt(t', s, k) == DisturbsAt(t, s, k) {
          OtherKeysAreUnaffected(t, t', s, key, k);
        }
        KeysHere(t', s, rest, order);
        MergeByKey(t, t', s, keys);
        assert forall k :: k in keys <==> k == key || k in rest;
      }
    }
  }

  // In whatever order the keys are visited, a merge touches nothing but own
  // fields exactly when it does not disturb; and then the fields are the merged ones.
  lemma {:induction false} MergeHereIff(t: Json, s: Json, order: Order)
    requires IsOrder(order) && t.Node? && IsObject(s)
    ensures var (realm, t') := MergedHere(UNTOUCHED, t, s, order(s), order);
      && (realm == UNTOUCHED <==> !Disturbs(t, s))
      && (realm == UNTOUCHED ==> t' == Merged(t, s))
    decreases s, |order(s)| + 1
  {
    assert Lists(order(s), s.fields.Keys);
    KeysHere(t, s, order(s), order);
    assert Only(s, order(s)).fields == s.fields;
  }

  // ---------- Property access ----------

  // What reading a path of properties gives; a primitive's properties are nothing here.
  function Seen(realm: Realm, j: Json, path: seq<string>): Option<Json>
    decreases |path|, 3
  {
    if path == [] then Some(j)
    else if j.Leaf? then None
    else if path[0] in j.fields then Seen(realm, j.fields[path[0]], path[1..])
    else SeenBehind(realm, Level(j), path)
  }

  // The same, among what something of this level inherits.
  function SeenBehind(realm: Realm, level: nat, path: seq<string>): Option<Json>
    requires level <= 2 && path != []
    decreases |path|, level
  {
    if level == 0 then None
    else if path[0] == PROTO then SeenInherited(realm, level - 1, path[1..])
    else if path[0] in Inherited(realm, level - 1).fields then
      Seen(realm, Inherited(realm, level - 1).fields[path[0]], path[1..])
    else SeenBehind(realm, level - 1, path)
  }

  // Reading from an inherited object itself.
  function SeenInherited(realm: Realm, n: Rank, path: seq<string>): Option<Json>
    decreases |path|, 3
  {
    if path == [] then Some(Inherited(realm, n))
    else if path[0] != PROTO && path[0] in Inherited(realm, n).fields then
      Seen(realm, Inherited(realm, n).fields[path[0]], path[1..])
    else SeenBehind(realm, n, path)
  }

  // Everything reads as if nothing was ever put into the inherited objects.
  ghost predicate IsUnnoticed(realm: Realm) {
    !realm.broken && forall j, path :: Seen(realm, j, path) == Seen(UNTOUCHED, j, path)
  }

  // A merge shows in no object and no array but its target, exactly when it does not disturb.
  lemma MergeIsUnnoticedIff(t: Json, s: Json, order: Order)
    requires IsOrder(order) && t.Node? && IsObject(s)
    ensures IsUnnoticed(MergedHere(UNTOUCHED, t, s, order(s), order).0) <==> !Disturbs(t, s)
  {
    var (realm, _) := MergedHere(UNTOUCHED, t, s, order(s), order);
    MergeHereIff(t, s, order);
    ReservedNameShows(realm);
    ReservedNameShows(UNTOUCHED);
    if IsUnnoticed(realm) {
      assert Seen(realm, EMPTY_OBJECT, [PROTO]) == Seen(UNTOUCHED, EMPTY_OBJECT, [PROTO]);
      assert Seen(realm, Node(true, map[]), [PROTO]) == Seen(UNTOUCHED, Node(true, map[]), [PROTO]);
      assert realm.objects == map[] && realm.arrays == map[];
    }
  }

  lemma ReservedNameShows(realm: Realm)
    ensures Seen(realm, EMPTY_OBJECT, [PROTO]) == Some(Node(false, realm.objects))
    ensures Seen(realm, Node(true, map[]), [PROTO]) == Some(Node(true, realm.arrays))
  {
    assert [PROTO][1..] == [];
    assert SeenBehind(realm, 1, [PROTO]) == SeenInherited(realm, 0, []);
    assert SeenBehind(realm, 2, [PROTO]) == SeenInherited(realm, 1, []);
  }

  // Without the reserved name on the path, only own fields are read.
  lemma {:induction false} PlainPathsReadOwnFields(j: Json, path: seq<string>)
    requires PROTO !in path
    ensures Seen(UNTOUCHED, j, path) == Own(j, path)
    decreases |path|
  {
    if path != [] && j.Node? {
      assert PROTO !in path[1..];
      if path[0] in j.fields {
        PlainPathsReadOwnFields(j.fields[path[0]], path[1..]);
      } else {
        assert SeenBehind(UNTOUCHED, 1, path) == SeenBehind(UNTOUCHED, 0, path) == None;
        assert SeenBehind(UNTOUCHED, 2, path) == None;
      }
    }
  }

  // Where a merge disturbs nothing, a value it assigns reads back exactly when
  // its path stays among the target's own fields; only at its last name, and only
  // by the reserved name, can it leave them.
  lemma {:induction false} AssignedReadsBackIff(t: Json, s: Json, path: seq<string>)
    requires t.Node? && Assigned(s, path).Some? && !Disturbs(t, s)
    ensures Seen(UNTOUCHED, Merged(t, s), path) == Assigned(s, path) <==> StaysOwn(t, path)
    ensures !StaysOwn(t, path) ==> path[|path| - 1] == PROTO && Assigned(s, path).value.Leaf?
    decreases |path|
  {
    var key := path[0];
    var v := s.fields[key];
    assert !DisturbsAt(t, s, key);
    if Takes(t, key) {
      assert Merged(t, s).fields[key] == MergedField(t, s, key);
      if IsObject(v) {
        AssignedReadsBackIff(Container(t.fields, key), v, path[1..]);
      } else {
        assert path[1..] == [];
      }
    } else {
      assert key !in Merged(t, s).fields;
      IgnoredReadsNothing(Level(t), s, path);
    }
  }

  // What is ignored under the reserved name is not what reading it gives.
  lemma {:induction false} IgnoredReadsNothing(level: nat, s: Json, path: seq<string>)
    requires level <= 2 && Assigned(s, path).Some? && path[0] == PROTO && IsIgnored(s.fields[PROTO], level)
    ensures SeenBehind(UNTOUCHED, level, path) != Assigned(s, path)
    ensures path[|path| - 1] == PROTO && Assigned(s, path).value.Leaf?
    decreases |path|
  {
    var v := s.fields[PROTO];
    if IsObject(v) {
      assert path[1..][0] == PROTO;
      IgnoredReadsNothing(level - 1, v, path[1..]);
    }
  }

  // Where the source has an object, there is a container to be read, always.
  lemma {:induction false} ObjectsReadAsContainers(t: Json, s: Json, path: seq<string>)
    requires t.Node? && LeadsToObject(s, path) && !Disturbs(t, s)
    ensures var r := Seen(UNTOUCHED, Merged(t, s), path); r.Some? && r.value.Node?
    decreases |path|
  {
    if path != [] {
      var key := path[0];
      assert !DisturbsAt(t, s, key);
      if Takes(t, key) {
        assert Merged(t, s).fields[key] == MergedField(t, s, key);
        ObjectsReadAsContainers(Container(t.fields, key), s.fields[key], path[1..]);
      } else {
        assert key !in Merged(t, s).fields;
        IgnoredObjectsAreThere(Level(t), s, path);
      }
    }
  }

  lemma {:induction false} IgnoredObjectsAreThere(level: nat, s: Json, path: seq<string>)
    requires 0 < level <= 2 && path != [] && LeadsToObject(s, path) && path[0] == PROTO
    requires IsIgnored(s.fields[PROTO], level)
    ensures var r := SeenBehind(UNTOUCHED, level, path); r.Some? && r.value.Node?
    decreases |path|
  {
    if path[1..] != [] {
      assert path[1..][0] == PROTO;
      IgnoredObjectsAreThere(level - 1, s.fields[PROTO], path[1..]);
    }
  }

  // ---------- All that a source says ----------

  // Property access shows what the source says at the path.
  predicate Heard(target: Json, source: Json, path: seq<string>)
    requires target.Node?
  {
    var r := Seen(UNTOUCHED, Merged(target, source), path);
    if Assigned(source, path).Some? then r == Assigned(source, path) else r.Some? && r.value.Node?
  }

  predicate HoldsPrimitive(j: Json) { j.Leaf? || exists k | k in j.fields :: HoldsPrimitive(j.fields[k]) }

  // Some primitive of the source is assigned under a name the target does not take.
  predicate Swallows(target: Json, source: Json)
    requires target.Node?
    decreases source
  {
    source.Node? && exists key | key in source.fields ::
      if Takes(target, key) then
        IsObject(source.fields[key]) && Swallows(Container(target.fields, key), source.fields[key])
      else HoldsPrimitive(source.fields[key])
  }

  lemma {:induction false} UnheardIsSwallowed(t: Json, s: Json, path: seq<string>)
    requires t.Node? && !Disturbs(t, s) && Assigned(s, path).Some? && !StaysOwn(t, path)
    ensures Swallows(t, s)
    decreases |path|
  {
    var key := path[0];
    assert !DisturbsAt(t, s, key);
    if Takes(t, key) {
      UnheardIsSwallowed(Container(t.fields, key), s.fields[key], path[1..]);
    } else {
      IgnoredReadsNothing(Level(t), s, path);
      AssignedPrimitiveIsHeld(s.fields[key], path[1..], Assigned(s, path).value);
    }
  }

  lemma {:induction false} AssignedPrimitiveIsHeld(v: Json, path: seq<string>, value: Json)
    requires value.Leaf? && (if IsObject(v) then Assigned(v, path) == Some(value) else v == value)
    ensures HoldsPrimitive(v)
    decreases |path|
  {
    if IsObject(v) {
      AssignedPrimitiveIsHeld(v.fields[path[0]], path[1..], value);
    }
  }

  lemma {:induction false} SwallowedPath(t: Json, s: Json) returns (path: seq<string>)
    requires t.Node? && !Disturbs(t, s) && Swallows(t, s)
    ensures Assigned(s, path).Some? && !StaysOwn(t, path)
    decreases s
  {
    var key :| key in s.fields &&
      if Takes(t, key) then IsObject(s.fields[key]) && Swallows(Container(t.fields, key), s.fields[key])
      else HoldsPrimitive(s.fields[key]);
    assert !DisturbsAt(t, s, key);
    var rest;
    if Takes(t, key) {
      rest := SwallowedPath(Container(t.fields, key), s.fields[key]);
    } else {
      rest := HeldPath(s.fields[key], Level(t));
    }
    path := [key] + rest;
    assert path[1..] == rest;
  }

  lemma {:induction false} HeldPath(v: Json, level: nat) returns (path: seq<string>)
    requires HoldsPrimitive(v) && IsIgnored(v, level)
    ensures if IsObject(v) then Assigned(v, path).Some? else v.Leaf? && path == []
    decreases v
  {
    if v.Leaf? {
      path := [];
    } else {
      var k :| k in v.fields && HoldsPrimitive(v.fields[k]);
      var rest := HeldPath(v.fields[k], level - 1);
      path := [k] + rest;
      assert path[1..] == rest;
    }
  }

  // Where a merge disturbs nothing, all the source says is heard, exactly when
  // no primitive of it is swallowed.
  lemma {:induction false} EverythingIsHeardIff(t: Json, s: Json)
    requires t.Node? && !Disturbs(t, s)
    ensures (forall path | Speaks(s, path) :: Heard(t, s, path)) <==> !Swallows(t, s)
  {
    if Swallows(t, s) {
      var path := SwallowedPath(t, s);
      AssignedReadsBackIff(t, s, path);
      assert Speaks(s, path) && !Heard(t, s, path);
    } else {
      forall path | Speaks(s, path) ensures Heard(t, s, path) {
        if Assigned(s, path).Some? {
          AssignedReadsBackIff(t, s, path);
          if !StaysOwn(t, path) { UnheardIsSwallowed(t, s, path); }
        } else {
          ObjectsReadAsContainers(t, s, path);
        }
      }
    }
  }

  // ---------- Two sources with the reserved name ----------

  const ONE_BELOW := Node(false, map[PROTO := Node(false, map["x" := Leaf("1")])])
  const ONE_UNDER := Node(false, map[PROTO := Leaf("1")])

  // A primitive right under the reserved name is ignored: nothing is disturbed and it is not heard.
  lemma PrimitiveIsSwallowed()
    ensures !Disturbs(EMPTY_OBJECT, ONE_UNDER) && Swallows(EMPTY_OBJECT, ONE_UNDER)
    ensures Merged(EMPTY_OBJECT, ONE_UNDER) == EMPTY_OBJECT
  {
    assert PROTO in ONE_UNDER.fields && HoldsPrimitive(ONE_UNDER.fields[PROTO]);
    assert Merged(EMPTY_OBJECT, ONE_UNDER).fields == map[];
  }

  lemma OnlyKey(keys: seq<string>, key: string)
    requires Lists(keys, {key})
    ensures keys == [key]
  {
    assert key in keys;
    assert |keys| > 1 ==> keys[0] != keys[1];
    forall i | 0 <= i < |keys| ensures keys[i] == key {
      var k := keys[i];
      assert k in keys;
      assert k in {key};
    }
  }

  // A field below it is given to every object: it reads back under its own
  // path, as a field of the target, and as a field of any other object.
  lemma FieldIsInherited(order: Order)
    requires IsOrder(order)
    ensures var (realm, t) := MergedHere(UNTOUCHED, EMPTY_OBJECT, ONE_BELOW, order(ONE_BELOW), order);
      && realm == Realm(map["x" := Leaf("1")], map[], false) && t == EMPTY_OBJECT
      && Seen(realm, t, [PROTO, "x"]) == Seen(realm, t, ["x"]) == Some(Leaf("1"))
      && forall j | IsObject(j) && "x" !in j.fields :: Seen(realm, j, ["x"]) == Some(Leaf("1"))
  {
    var below := ONE_BELOW.fields[PROTO];
    OnlyKey(order(ONE_BELOW), PROTO);
    OnlyKey(order(below), "x");
    var realm := Written(UNTOUCHED, Place(0, []), "x", Leaf("1"));
    assert "x" != PROTO;
    assert StepThere(UNTOUCHED, Place(0, []), below, "x", order) == realm;
    assert ["x"][1..] == [] && [PROTO][1..] == [] && [PROTO, "x"][1..] == ["x"];
    assert MergedThere(UNTOUCHED, Place(0, []), below, ["x"], order) == realm;
    assert StepHere(UNTOUCHED, EMPTY_OBJECT, ONE_BELOW, PROTO, order) == (realm, EMPTY_OBJECT);
    forall j | IsObject(j) && "x" !in j.fields ensures Seen(realm, j, ["x"]) == Some(Leaf("1")) {
      assert Seen(realm, j, ["x"]) == SeenBehind(realm, 1, ["x"]) == Seen(realm, Leaf("1"), []);
    }
    assert Seen(realm, EMPTY_OBJECT, [PROTO, "x"]) == SeenInherited(realm, 0, ["x"]) == Seen(realm, Leaf("1"), []);
  }
}
