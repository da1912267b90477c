// The policy provider object: policies are objects and arrays in a heap, merged
// into in place. It realises PolicySharing, identity by identity.

module MemoryPolicyProvider {
  import opened Common
  import opened JsonValues
  import opened PolicyMerge
  import opened PolicyCopies
  import opened PolicySharing

  // What a field holds: a primitive, or a reference to an object or array.
  datatype Value = Word(text: string) | Ref(addr: Addr)

  datatype Record = Record(isArray: bool, fields: map<string, Value>)

  type Heap = map<Addr, Record>

  // The name is no ordinary field here.
  predicate IsReserved(r: Record, key: string) { IsSpecial(r.isArray, key) && key !in r.fields }

  function ValueOf(t: Tree): Value { if t.Text? then Word(t.text) else Ref(t.addr) }

  // Following references from `v` gives this tree.
  ghost predicate Shows(h: Heap, v: Value, t: Tree)
    decreases t
  {
    v == ValueOf(t) &&
    (t.Cell? ==>
       && t.addr in h
       && h[t.addr].isArray == t.isArray
       && h[t.addr].fields.Keys == t.fields.Keys
       && forall k | k in t.fields :: Shows(h, h[t.addr].fields[k], t.fields[k]))
  }

  // Everything sits at the path where it was made.
  ghost predicate RootedAt(t: Tree, p: seq<string>)
    decreases t
  {
    t.Cell? ==> t.addr.home == p && forall k | k in t.fields :: RootedAt(t.fields[k], p + [k])
  }

  // The cells of the target that a merge goes into.
  ghost function Track(t: Tree, s: Tree): set<Addr>
    decreases s
  {
    if t.Text? || s.Text? then {}
    else
      {t.addr} + set k, a |
        k in s.fields && k in t.fields && IsObj(s.fields[k]) && a in Track(t.fields[k], s.fields[k]) :: a
  }

  // ---------- Paths keep things apart ----------

  lemma ExtendsBoth(p: seq<string>, j: string, k: string, home: seq<string>)
    requires p + [j] <= home && p + [k] <= home
    ensures j == k
  {
    assert (p + [j])[|p|] == j && (p + [k])[|p|] == k;
  }

  lemma ExtendsParent(p: seq<string>, k: string, home: seq<string>)
    requires p + [k] <= home
    ensures p <= home && p != home && |p| < |home| && home[|p|] == k
  {
    assert (p + [k])[..|p|] == p && (p + [k])[|p|] == k;
  }

  lemma {:induction false} TrackIsUnder(t: Tree, s: Tree, p: seq<string>)
    requires RootedAt(t, p)
    ensures forall a | a in Track(t, s) :: p <= a.home
    decreases s
  {
    if t.Cell? && s.Cell? {
      forall k, a | k in s.fields && k in t.fields && IsObj(s.fields[k]) && a in Track(t.fields[k], s.fields[k])
        ensures p <= a.home
      {
        TrackIsUnder(t.fields[k], s.fields[k], p + [k]);
        ExtendsParent(p, k, a.home);
      }
    }
  }

  // What a merge touches below a key, it touches through that key.
  lemma {:induction false} TrackBelow(t: Tree, s: Tree, p: seq<string>, k: string, a: Addr)
    requires t.Cell? && s.Cell? && RootedAt(t, p) && a in Track(t, s) && p + [k] <= a.home
    ensures k in s.fields && k in t.fields && IsObj(s.fields[k]) && a in Track(t.fields[k], s.fields[k])
  {
    ExtendsParent(p, k, a.home);
    var j :| j in s.fields && j in t.fields && IsObj(s.fields[j]) && a in Track(t.fields[j], s.fields[j]);
    TrackIsUnder(t.fields[j], s.fields[j], p + [j]);
    ExtendsBoth(p, j, k, a.home);
  }

  // Cells under the path are as before.
  ghost predicate SameUnder(h: Heap, h': Heap, p: seq<string>) {
    forall c | c in h && p <= c.home :: c in h' && h'[c] == h[c]
  }

  lemma {:induction false} ShowsStill(h: Heap, h': Heap, v: Value, t: Tree, p: seq<string>)
    requires Shows(h, v, t) && RootedAt(t, p) && SameUnder(h, h', p)
    ensures Shows(h', v, t)
    decreases t
  {
    if t.Cell? {
      forall k | k in t.fields ensures Shows(h', h'[t.addr].fields[k], t.fields[k]) {
        forall c | c in h && p + [k] <= c.home ensures c in h' && h'[c] == h[c] {
          ExtendsParent(p, k, c.home);
        }
        ShowsStill(h, h', h[t.addr].fields[k], t.fields[k], p + [k]);
      }
    }
  }

  lemma {:induction false} ShowsIsUnique(h: Heap, v: Value, t: Tree, u: Tree)
    requires Shows(h, v, t) && Shows(h, v, u)
    ensures t == u
    decreases t
  {
    if t.Cell? {
      forall k | k in t.fields ensures t.fields[k] == u.fields[k] {
        ShowsIsUnique(h, h[t.addr].fields[k], t.fields[k], u.fields[k]);
      }
      assert t.fields == u.fields;
    }
  }

  // Under the path, only these cells changed.
  ghost predicate TouchesUnder(h: Heap, h': Heap, p: seq<string>, touched: set<Addr>) {
    forall c | c in h && p <= c.home :: c in h' && (c !in touched ==> h'[c] == h[c])
  }

  lemma {:induction false} TouchesBelow(h: Heap, h': Heap, t: Tree, s: Tree, p: seq<string>, k: string)
    requires t.Cell? && s.Cell? && RootedAt(t, p) && TouchesUnder(h, h', p, Track(t, s))
    ensures k in s.fields && k in t.fields && IsObj(s.fields[k]) ==>
      TouchesUnder(h, h', p + [k], Track(t.fields[k], s.fields[k]))
    ensures !(k in s.fields && k in t.fields && IsObj(s.fields[k])) ==> SameUnder(h, h', p + [k])
  {
    forall c | c in h && p + [k] <= c.home ensures c in h' && (c !in Track(t, s) ==> h'[c] == h[c]) {
      ExtendsParent(p, k, c.home);
    }
    forall c | c in h && p + [k] <= c.home && c in Track(t, s)
      ensures k in s.fields && k in t.fields && IsObj(s.fields[k]) && c in Track(t.fields[k], s.fields[k])
    {
      TrackBelow(t, s, p, k, c);
    }
  }

  // A merge into one tree shows in every other as its leak.
  lemma {:induction false} OthersShowTheLeak(h: Heap, h': Heap, r: Tree, t: Tree, s: Tree, p: seq<string>, now: nat)
    requires Shows(h, ValueOf(r), r) && Shows(h, ValueOf(t), t) && RootedAt(r, p) && RootedAt(t, p)
    requires TouchesUnder(h, h', p, Track(t, s))
    requires t.Cell? ==> Shows(h', ValueOf(t), MergedInto(t, s, now))
    ensures Shows(h', ValueOf(r), Leaked(r, t, s, now))
    decreases s
  {
    if r.Text? {
    } else if t.Text? || s.Text? {
      ShowsStill(h, h', ValueOf(r), r, p);
    } else if r.addr == t.addr {
      ShowsIsUnique(h, ValueOf(r), r, t);
    } else {
      var r' := Leaked(r, t, s, now);
      OtherRootIsUntouched(r, t, s, p);
      forall k | k in r.fields ensures Shows(h', h'[r.addr].fields[k], r'.fields[k]) {
        TouchesBelow(h, h', t, s, p, k);
        if k in s.fields && k in t.fields && IsObj(s.fields[k]) {
          var t' := MergedInto(t, s, now);
          assert t'.fields[k] == FieldAfter(t, s, k, now);
          OthersShowTheLeak(h, h', r.fields[k], t.fields[k], s.fields[k], p + [k], now);
        } else {
          ShowsStill(h, h', h[r.addr].fields[k], r.fields[k], p + [k]);
        }
      }
    }
  }

  lemma {:induction false} OtherRootIsUntouched(r: Tree, t: Tree, s: Tree, p: seq<string>)
    requires r.Cell? && t.Cell? && r.addr != t.addr && RootedAt(r, p) && RootedAt(t, p)
    ensures r.addr !in Track(t, s)
  {
    if r.addr in Track(t, s) {
      var k :| k in s.fields && k in t.fields && IsObj(s.fields[k]) && r.addr in Track(t.fields[k], s.fields[k]);
      TrackIsUnder(t.fields[k], s.fields[k], p + [k]);
      ExtendsParent(p, k, r.addr.home);
    }
  }

  // The arrays and primitives that the source assigns.
  ghost predicate SourceShows(h: Heap, s: Tree)
    decreases s
  {
    s.Cell? ==> forall k | k in s.fields ::
      if IsObj(s.fields[k]) then SourceShows(h, s.fields[k]) else Shows(h, ValueOf(s.fields[k]), s.fields[k])
  }

  // A merge never goes into what its own source assigns.
  lemma {:induction false} SourceStaysShown(h: Heap, h': Heap, t: Tree, s: Tree, p: seq<string>)
    requires SourceShows(h, s) && RootedAt(t, p) && RootedAt(s, p) && TouchesUnder(h, h', p, Track(t, s))
    ensures SourceShows(h', s)
    decreases s
  {
    if s.Cell? {
      forall k | k in s.fields ensures
        if IsObj(s.fields[k]) then SourceShows(h', s.fields[k]) else Shows(h', ValueOf(s.fields[k]), s.fields[k])
      {
        if t.Cell? {
          TouchesBelow(h, h', t, s, p, k);
        } else {
          forall c | c in h && p + [k] <= c.home ensures c in h' && h'[c] == h[c] { ExtendsParent(p, k, c.home); }
        }
        if IsObj(s.fields[k]) {
          var below := if t.Cell? && k in t.fields then t.fields[k] else Text("");
          SourceStaysShown(h, h', below, s.fields[k], p + [k]);
        } else {
          ShowsStill(h, h', ValueOf(s.fields[k]), s.fields[k], p + [k]);
        }
      }
    }
  }

  lemma {:induction false} SourceShownWhole(h: Heap, s: Tree)
    requires Shows(h, ValueOf(s), s)
    ensures SourceShows(h, s)
    decreases s
  {
    if s.Cell? {
      forall k | k in s.fields ensures
        if IsObj(s.fields[k]) then SourceShows(h, s.fields[k]) else Shows(h, ValueOf(s.fields[k]), s.fields[k])
      {
        assert Shows(h, h[s.addr].fields[k], s.fields[k]);
        SourceShownWhole(h, s.fields[k]);
      }
    }
  }

  lemma {:induction false} BuiltIsRooted(j: Json, home: seq<string>, maker: Maker, time: nat)
    ensures RootedAt(Built(j, home, maker, time), home)
    decreases j
  {
    if j.Node? {
      forall k | k in j.fields ensures RootedAt(Built(j.fields[k], home + [k], maker, time), home + [k]) {
        BuiltIsRooted(j.fields[k], home + [k], maker, time);
      }
    }
  }

  lemma {:induction false} MergedIsRooted(t: Tree, s: Tree, p: seq<string>, time: nat)
    requires t.Cell? && RootedAt(t, p) && RootedAt(s, p)
    ensures RootedAt(MergedInto(t, s, time), p)
    decreases s
  {
    if s.Cell? {
      var r := MergedInto(t, s, time);
      forall k | k in r.fields ensures RootedAt(r.fields[k], p + [k]) {
        if k in s.fields {
          assert r.fields[k] == FieldAfter(t, s, k, time);
          if IsObj(s.fields[k]) { MergedIsRooted(Entered(t, k, time), s.fields[k], p + [k], time); }
        }
      }
    }
  }

  lemma {:induction false} LeakedIsRooted(r: Tree, t: Tree, s: Tree, p: seq<string>, time: nat)
    requires RootedAt(r, p) && RootedAt(s, p)
    ensures RootedAt(Leaked(r, t, s, time), p)
    decreases s
  {
    if r.Text? || t.Text? || s.Text? {
    } else if r.addr == t.addr {
      MergedIsRooted(r, s, p, time);
    } else {
      var r' := Leaked(r, t, s, time);
      forall k | k in r'.fields ensures RootedAt(r'.fields[k], p + [k]) {
        if k in s.fields && k in t.fields && IsObj(s.fields[k]) {
          LeakedIsRooted(r.fields[k], t.fields[k], s.fields[k], p + [k], time);
        }
      }
    }
  }

  // ---------- A merge under way ----------

  // The keys in `todo` still hold the target's values.
  ghost predicate PartlyMerged(h: Heap, t: Tree, s: Tree, todo: set<string>, now: nat)
    requires t.Cell? && s.Cell?
  {
    && t.addr in h && h[t.addr].isArray == t.isArray
    && (forall k :: k in h[t.addr].fields <==> k in t.fields || (k in s.fields && k !in todo && TakesKey(t, k)))
    && forall k | k in h[t.addr].fields ::
         Shows(h, h[t.addr].fields[k], if k in s.fields && k !in todo then FieldAfter(t, s, k, now) else t.fields[k])
  }

  // All cells made from now on under this path lie below keys already merged.
  ghost predicate NewOnlyAt(h: Heap, p: seq<string>, keys: set<string>, now: nat) {
    forall c | c in h && c.time >= now && p < c.home :: c.home[|p|] in keys
  }

  lemma {:induction false} MergeBegins(h: Heap, t: Tree, s: Tree, now: nat)
    requires t.Cell? && s.Cell? && Shows(h, ValueOf(t), t)
    ensures PartlyMerged(h, t, s, s.fields.Keys, now)
  {
  }

  lemma {:induction false} MergeEnds(h: Heap, t: Tree, s: Tree, now: nat)
    requires t.Cell? && s.Cell? && PartlyMerged(h, t, s, {}, now)
    ensures Shows(h, ValueOf(t), MergedInto(t, s, now))
  {
    var r := MergedInto(t, s, now);
    assert h[t.addr].fields.Keys == r.fields.Keys;
    forall k | k in r.fields ensures Shows(h, h[t.addr].fields[k], r.fields[k]) {
      assert k in h[t.addr].fields;
    }
  }

  // One key is merged: its field changed, and nothing but below it.
  lemma {:induction false} KeyIsMerged(
      h: Heap, h': Heap, t: Tree, s: Tree, todo: set<string>, key: string, v: Value, now: nat)
    requires t.Cell? && s.Cell? && RootedAt(t, t.addr.home) && RootedAt(s, t.addr.home)
    requires PartlyMerged(h, t, s, todo, now) && key in todo && key in s.fields && TakesKey(t, key)
    requires t.addr in h' && h'[t.addr] == h[t.addr].(fields := h[t.addr].fields[key := v])
    requires forall c | c in h && t.addr.home < c.home && !(t.addr.home + [key] <= c.home) :: c in h' && h'[c] == h[c]
    requires Shows(h', v, FieldAfter(t, s, key, now))
    ensures PartlyMerged(h', t, s, todo - {key}, now)
  {
    var p := t.addr.home;
    forall k | k in h'[t.addr].fields && k != key
      ensures Shows(h', h'[t.addr].fields[k], if k in s.fields
        && k !in todo - {key} then FieldAfter(t, s, k, now) else t.fields[k])
    {
      var u := if k in s.fields && k !in todo then FieldAfter(t, s, k, now) else t.fields[k];
      if k in s.fields && k !in todo && IsObj(s.fields[k]) {
        MergedIsRooted(Entered(t, k, now), s.fields[k], p + [k], now);
      }
      forall c | c in h && p + [k] <= c.home ensures c in h' && h'[c] == h[c] {
        ExtendsParent(p, k, c.home);
        if p + [key] <= c.home { ExtendsBoth(p, k, key, c.home); }
      }
      ShowsStill(h, h', h[t.addr].fields[k], u, p + [k]);
    }
  }

  // What is common to the three ways of merging a key.
  ghost predicate KeyIsDue(h: Heap, t: Tree, s: Tree, todo: set<string>, key: string, now: nat) {
    && t.Cell? && s.Cell? && key in s.fields && key in todo && todo <= s.fields.Keys
    && RootedAt(t, t.addr.home) && RootedAt(s, t.addr.home) && SourceShows(h, s)
    && PartlyMerged(h, t, s, todo, now)
    && NewOnlyAt(h, t.addr.home, s.fields.Keys - todo, now)
  }

  ghost predicate KeyIsDone(h: Heap, h': Heap, t: Tree, s: Tree, todo: set<string>, key: string, now: nat)
    requires t.Cell? && s.Cell?
  {
    && PartlyMerged(h', t, s, todo - {key}, now)
    && (forall c | c in h :: c in h' && (c !in Track(t, s) ==> h'[c] == h[c]))
    && (forall c | c in h' && c !in h :: c.time == now && t.addr.home < c.home)
    && NewOnlyAt(h', t.addr.home, s.fields.Keys - (todo - {key}), now)
  }

  lemma {:induction false} ReservedKeyIsSkipped(h: Heap, t: Tree, s: Tree, todo: set<string>, key: string, now: nat)
    requires KeyIsDue(h, t, s, todo, key, now) && IsReserved(h[t.addr], key)
    ensures KeyIsDone(h, h, t, s, todo, key, now)
    ensures !TakesKey(t, key) && Erase(s.fields[key]) == Erase(s).fields[key]
    ensures DisturbsAt(Erase(t), Erase(s), key) <==>
            (key == PROTO ==> !IsIgnored(Erase(s.fields[key]), if h[t.addr].isArray then 2 else 1))
  {
    EraseOfField(s, key);
  }

  lemma {:induction false} DueKeyIsTaken(h: Heap, t: Tree, s: Tree, todo: set<string>, key: string, now: nat)
    requires KeyIsDue(h, t, s, todo, key, now) && !IsReserved(h[t.addr], key)
    ensures TakesKey(t, key)
    ensures key in h[t.addr].fields <==> key in t.fields
    ensures key in t.fields ==> Shows(h, h[t.addr].fields[key], t.fields[key])
  {
  }

  lemma {:induction false} KeyIsAssigned(h: Heap, h': Heap, t: Tree, s: Tree, todo: set<string>, key: string, now: nat)
    requires KeyIsDue(h, t, s, todo, key, now) && !IsReserved(h[t.addr], key)
    requires !IsObj(s.fields[key])
    requires h' == h[t.addr := h[t.addr].(fields := h[t.addr].fields[key := ValueOf(s.fields[key])])]
    ensures KeyIsDone(h, h', t, s, todo, key, now)
  {
    var p := t.addr.home;
    DueKeyIsTaken(h, t, s, todo, key, now);
    forall c | c in h && p + [key] <= c.home ensures c in h' && h'[c] == h[c] { ExtendsParent(p, key, c.home); }
    ShowsStill(h, h', ValueOf(s.fields[key]), s.fields[key], p + [key]);
    KeyIsMerged(h, h', t, s, todo, key, ValueOf(s.fields[key]), now);
  }

  // The heap with a new object under this key.
  function WithContainer(h: Heap, a: Addr, key: string, now: nat): Heap
    requires a in h
  {
    var made := Addr(a.home + [key], Within(a), now);
    h[made := Record(false, map[])][a := h[a].(fields := h[a].fields[key := Ref(made)])]
  }

  lemma {:induction false} MadeIsNew(h: Heap, t: Tree, s: Tree, todo: set<string>, key: string, now: nat)
    requires KeyIsDue(h, t, s, todo, key, now)
    ensures forall c | c in h && t.addr.home + [key] <= c.home :: c.time < now
    ensures Addr(t.addr.home + [key], Within(t.addr), now) !in h
  {
    forall c | c in h && t.addr.home + [key] <= c.home ensures c.time < now {
      ExtendsParent(t.addr.home, key, c.home);
    }
  }

  lemma {:induction false} ContainerIsReady(
      h: Heap, h': Heap, t: Tree, s: Tree, todo: set<string>, key: string, now: nat)
    requires KeyIsDue(h, t, s, todo, key, now) && !IsReserved(h[t.addr], key)
    requires IsObj(s.fields[key])
    requires h' == if key !in h[t.addr].fields
      || h[t.addr].fields[key].Word? then WithContainer(h, t.addr, key, now) else h
    ensures var into := Entered(t, key, now);
      && into.addr.home == t.addr.home + [key]
      && t.addr in h' && key in h'[t.addr].fields && h'[t.addr].fields[key] == Ref(into.addr)
      && Shows(h', Ref(into.addr), into) && RootedAt(into, into.addr.home) && RootedAt(s.fields[key], into.addr.home)
      && SourceShows(h', s.fields[key])
      && NewOnlyAt(h', into.addr.home, {}, now)
      && h'[t.addr] == h[t.addr].(fields := h[t.addr].fields[key := Ref(into.addr)])
      && (forall c | c in h && c != t.addr :: c in h' && h'[c] == h[c])
      && (forall c | c in h' && c !in h :: c.time == now && c == into.addr)
  {
    var p := t.addr.home;
    var into := Entered(t, key, now);
    assert key in t.fields ==> RootedAt(t.fields[key], p + [key]);
    DueKeyIsTaken(h, t, s, todo, key, now);
    MadeIsNew(h, t, s, todo, key, now);
    forall c | c in h && p + [key] <= c.home ensures c in h' && h'[c] == h[c] { ExtendsParent(p, key, c.home); }
    SourceStaysShown(h, h', Text(""), s.fields[key], p + [key]);
    if key in t.fields && t.fields[key].Cell? {
      assert h[t.addr].fields[key := Ref(into.addr)] == h[t.addr].fields;
    }
    forall c | c in h' && c.time >= now && p + [key] < c.home ensures false {
      if c in h { ExtendsParent(p, key, c.home); }
    }
  }

  // The merge below the key leaves the target's own cell alone.
  lemma {:induction false} RestIsUntouched(
      h: Heap, ready: Heap, h': Heap, t: Tree, s: Tree, key: string, into: Tree, now: nat)
    requires t.Cell? && s.Cell? && key in s.fields && t.addr in ready && into.Cell?
    requires into.addr.home == t.addr.home + [key] && RootedAt(into, into.addr.home)
    requires forall c | c in h && c != t.addr :: c in ready && ready[c] == h[c]
    requires forall c | c in ready && c !in h :: c.time == now && c == into.addr
    requires forall c | c in ready :: c in h' && (c !in Track(into, s.fields[key]) ==> h'[c] == ready[c])
    requires forall c | c in h' && c !in ready :: c.time == now && into.addr.home < c.home
    ensures t.addr in h' && h'[t.addr] == ready[t.addr]
    ensures forall c | c in h && c != t.addr :: c in h' && (c !in Track(into, s.fields[key]) ==> h'[c] == h[c])
    ensures forall c | c in h' && c !in h :: c.time == now && into.addr.home <= c.home
  {
    TrackIsUnder(into, s.fields[key], into.addr.home);
  }

  lemma TrackOfEmpty(t: Tree, s: Tree)
    requires t.Cell? && s.Cell? && t.fields == map[]
    ensures Track(t, s) == {t.addr}
  {
  }

  lemma {:induction false} ContainerIsMerged(
      h: Heap, h': Heap, t: Tree, s: Tree, todo: set<string>, key: string, now: nat)
    requires KeyIsDue(h, t, s, todo, key, now) && !IsReserved(h[t.addr], key)
    requires IsObj(s.fields[key])
    requires var into := Entered(t, key, now);
      && t.addr in h' && h'[t.addr] == h[t.addr].(fields := h[t.addr].fields[key := Ref(into.addr)])
      && Shows(h', Ref(into.addr), MergedInto(into, s.fields[key], now))
      && (forall c | c in h && c != t.addr :: c in h' && (c !in Track(into, s.fields[key]) ==> h'[c] == h[c]))
      && (forall c | c in h' && c !in h :: c.time == now && into.addr.home <= c.home)
    ensures KeyIsDone(h, h', t, s, todo, key, now)
  {
    var p := t.addr.home;
    var into := Entered(t, key, now);
    DueKeyIsTaken(h, t, s, todo, key, now);
    MadeIsNew(h, t, s, todo, key, now);
    TrackIsUnder(into, s.fields[key], p + [key]);
    forall c | c in h && c in Track(into, s.fields[key]) ensures c in Track(t, s) {
      if !(key in t.fields && t.fields[key].Cell?) {
        TrackOfEmpty(into, s.fields[key]);
        assert false;
      }
    }
    KeyIsMerged(h, h', t, s, todo, key, Ref(into.addr), now);
    forall c | c in h' && c !in h ensures p < c.home && c.home[|p|] == key {
      ExtendsParent(p, key, c.home);
    }
  }

  lemma {:induction false} DisturbanceUnderKey(t: Tree, s: Tree, key: string, now: nat)
    requires t.Cell? && s.Cell? && key in s.fields && IsObj(s.fields[key]) && TakesKey(t, key)
    ensures Disturbs(Erase(Entered(t, key, now)), Erase(s.fields[key])) == DisturbsAt(Erase(t), Erase(s), key)
  {
    EraseOfEntered(t, key, now);
    EraseOfField(s, key);
  }

  // The merge does something beyond own fields under one of these keys.
  ghost predicate DisturbsUnder(t: Tree, s: Tree, keys: set<string>)
    requires t.Cell? && s.Cell? && keys <= s.fields.Keys
  {
    exists k | k in keys :: DisturbsAt(Erase(t), Erase(s), k)
  }

  lemma NothingDisturbsYet(t: Tree, s: Tree)
    requires t.Cell? && s.Cell?
    ensures !DisturbsUnder(t, s, s.fields.Keys - s.fields.Keys)
  {
  }

  lemma OneMoreKey(t: Tree, s: Tree, todo: set<string>, key: string)
    requires t.Cell? && s.Cell? && todo <= s.fields.Keys && key in todo
    ensures DisturbsUnder(t, s, s.fields.Keys - (todo - {key})) <==>
      DisturbsUnder(t, s, s.fields.Keys - todo) || DisturbsAt(Erase(t), Erase(s), key)
  {
    var done, more := s.fields.Keys - todo, s.fields.Keys - (todo - {key});
    forall k ensures k in more <==> k in done || k == key {}
    if DisturbsUnder(t, s, done) {
      var k :| k in done && DisturbsAt(Erase(t), Erase(s), k);
      assert k in more;
    }
  }

  lemma AllKeysDone(t: Tree, s: Tree)
    requires t.Cell? && s.Cell?
    ensures DisturbsUnder(t, s, s.fields.Keys - {}) <==> Disturbs(Erase(t), Erase(s))
  {
    assert s.fields.Keys - {} == Erase(s).fields.Keys;
  }

  // ---------- Laying out a value ----------

  // Old cells are as before; new ones lie below the keys laid out so far.
  ghost predicate Grown(start: Heap, h: Heap, home: seq<string>, maker: Maker, done: set<string>, now: nat) {
    && (forall c | c in start :: c in h && h[c] == start[c])
    && (forall c | c in h && c !in start ::
          c.time == now && c.maker == maker && home < c.home && c.home[|home|] in done)
  }

  ghost predicate FieldsShow(h: Heap, j: Json, home: seq<string>, maker: Maker, fields: map<string, Value>, now: nat)
    requires j.Node?
  {
    forall k | k in fields :: k in j.fields && Shows(h, fields[k], Built(j.fields[k], home + [k], maker, now))
  }

  lemma {:induction false} NothingBelow(
      start: Heap, h: Heap, home: seq<string>, maker: Maker, done: set<string>, key: string, now: nat)
    requires forall c | c in start && home <= c.home && c.maker == maker :: c.time < now
    requires Grown(start, h, home, maker, done, now) && key !in done
    ensures forall c | c in h && home + [key] <= c.home && c.maker == maker :: c.time < now
  {
    forall c | c in h && home + [key] <= c.home && c.maker == maker ensures c.time < now {
      ExtendsParent(home, key, c.home);
    }
  }

  lemma {:induction false} ShowsLater(h: Heap, h': Heap, v: Value, t: Tree)
    requires Shows(h, v, t) && forall c | c in h :: c in h' && h'[c] == h[c]
    ensures Shows(h', v, t)
    decreases t
  {
    if t.Cell? {
      forall k | k in t.fields ensures Shows(h', h'[t.addr].fields[k], t.fields[k]) {
        ShowsLater(h, h', h[t.addr].fields[k], t.fields[k]);
      }
    }
  }

  lemma {:induction false} FieldIsLaid(
      start: Heap, h: Heap, h': Heap, j: Json, home: seq<string>, maker: Maker, fields: map<string, Value>,
      key: string, v: Value, now: nat)
    requires j.Node? && key in j.fields && FieldsShow(h, j, home, maker, fields, now)
    requires Grown(start, h, home, maker, fields.Keys, now)
    requires Shows(h', v, Built(j.fields[key], home + [key], maker, now))
    requires forall c | c in h :: c in h' && h'[c] == h[c]
    requires forall c | c in h' && c !in h :: c.time == now && c.maker == maker && home + [key] <= c.home
    ensures FieldsShow(h', j, home, maker, fields[key := v], now)
    ensures Grown(start, h', home, maker, fields[key := v].Keys, now)
  {
    forall k | k in fields ensures Shows(h', fields[k], Built(j.fields[k], home + [k], maker, now)) {
      ShowsLater(h, h', fields[k], Built(j.fields[k], home + [k], maker, now));
    }
    forall c | c in h' && c !in h ensures home < c.home && c.home[|home|] == key {
      ExtendsParent(home, key, c.home);
    }
  }

  lemma {:induction false} AllIsLaid(
      start: Heap, h: Heap, h': Heap, j: Json, home: seq<string>, maker: Maker, fields: map<string, Value>, now: nat)
    requires j.Node? && fields.Keys == j.fields.Keys && FieldsShow(h, j, home, maker, fields, now)
    requires Grown(start, h, home, maker, fields.Keys, now)
    requires forall c | c in start && home <= c.home && c.maker == maker :: c.time < now
    requires h' == h[Addr(home, maker, now) := Record(j.isArray, fields)]
    ensures Shows(h', Ref(Addr(home, maker, now)), Built(j, home, maker, now))
    ensures forall c | c in start :: c in h' && h'[c] == start[c]
    ensures forall c | c in h' && c !in start :: c.time == now && c.maker == maker && home <= c.home
  {
    var addr := Addr(home, maker, now);
    assert addr !in h;
    forall k | k in fields ensures Shows(h', fields[k], Built(j.fields[k], home + [k], maker, now)) {
      ShowsLater(h, h', fields[k], Built(j.fields[k], home + [k], maker, now));
    }
  }

  // ---------- Copying a value ----------

  ghost function CopiedField(t: Tree, key: string): Json
    requires t.Cell?
  {
    if key in t.fields then Copy(Erase(t.fields[key])) else NULL
  }

  lemma CopyIsWritten(t: Tree, j: Json)
    requires t.Cell? && j.Node? && j.isArray == t.isArray
    requires j.fields.Keys == WrittenKeys(t.isArray, t.fields.Keys)
    requires forall k | k in j.fields :: j.fields[k] == CopiedField(t, k)
    ensures j == Copy(Erase(t))
  {
    assert j.fields == Copy(Erase(t)).fields;
  }

  // ---------- The store in the heap ----------

  ghost predicate ShowsStore(h: Heap, st: SharedStore) {
    forall o | Has(st, o) :: Shows(h, ValueOf(EntryAt(st, o)), EntryAt(st, o)) && RootedAt(EntryAt(st, o), [])
  }

  function Initial(initial: Json): (st: SharedStore)
    requires initial.Node?
    ensures IsStore(st)
  {
    BuiltIsDated(initial, [], Copied(None), 0);
    SharedStore(Built(initial, [], Copied(None), 0), map[], [], map[], false, 1)
  }

  function WithEntries(st: SharedStore, accounts: seq<(string, Json)>): (r: SharedStore)
    requires IsStore(st) && forall i | 0 <= i < |accounts| :: accounts[i].1.Node?
    ensures IsStore(r)
  {
    if accounts == [] then st
    else
      var n := |accounts| - 1;
      WithEntry(WithEntries(st, accounts[..n]), accounts[n].0, Copy(accounts[n].1))
  }

  // The provider's own references lead to the entries.
  ghost predicate RootsAre(defaultPolicy: Addr, accountPolicies: map<string, Addr>, st: SharedStore) {
    && ValueOf(st.defaultPolicy) == Ref(defaultPolicy)
    && accountPolicies.Keys == st.accounts.Keys
    && forall k | k in st.accounts :: ValueOf(st.accounts[k]) == Ref(accountPolicies[k])
  }

  // The heap and the references into it hold this store.
  ghost predicate Realises(h: Heap, defaultPolicy: Addr, accountPolicies: map<string, Addr>, st: SharedStore) {
    && IsStore(st)
    && (forall c | c in h :: c.time < st.clock)
    && ShowsStore(h, st)
    && RootsAre(defaultPolicy, accountPolicies, st)
  }

  lemma {:induction false} InitialIsShown(h: Heap, initial: Json)
    requires initial.Node?
    requires var t := Built(initial, [], Copied(None), 0); Shows(h, ValueOf(t), t)
    requires forall c | c in h :: c.time == 0
    ensures Realises(h, Addr([], Copied(None), 0), map[], Initial(initial))
  {
    BuiltIsRooted(initial, [], Copied(None), 0);
  }

  lemma {:induction false} RootsStay(d: Addr, accounts: map<string, Addr>, st: SharedStore, o: Option<string>, s: Tree)
    requires IsStore(st) && Has(st, o) && Dated(s, st.clock) && RootsAre(d, accounts, st)
    ensures RootsAre(d, accounts, MergedAt(st, o, s))
  {
    var r := MergedAt(st, o, s);
    assert Has(st, None) && EntryAt(r, None) == r.defaultPolicy && EntryAt(st, None) == st.defaultPolicy;
    forall k | k in r.accounts ensures ValueOf(r.accounts[k]) == Ref(accounts[k]) {
      assert Has(st, Some(k)) && EntryAt(r, Some(k)) == r.accounts[k] && EntryAt(st, Some(k)) == st.accounts[k];
    }
  }

  lemma {:induction false} RootsGrow(d: Addr, accounts: map<string, Addr>, st: SharedStore, key: string, j: Json)
    requires IsStore(st) && j.Node? && RootsAre(d, accounts, st)
    ensures RootsAre(d, accounts[key := Addr([], Copied(Some(key)), st.clock)], WithEntry(st, key, j))
  {
  }

  lemma OneMoreEntry(st: SharedStore, key: string, j: Json)
    requires IsStore(st) && j.Node? && AllApart(st, true) && !st.disturbed
    ensures AllApart(WithEntry(st, key, j), true) && !WithEntry(st, key, j).disturbed
  {
    WithEntryStaysApart(st, key, j, true);
  }

  // A new provider's policies hold nothing in common.
  lemma {:induction false} NewProviderSharesNothing(initial: Json, accounts: seq<(string, Json)>)
    requires initial.Node? && forall i | 0 <= i < |accounts| :: accounts[i].1.Node?
    ensures AllApart(WithEntries(Initial(initial), accounts), true)
    ensures !WithEntries(Initial(initial), accounts).disturbed
  {
    if accounts == [] {
      forall o | Has(Initial(initial), o) ensures o == None {}
    } else {
      var n := |accounts| - 1;
      NewProviderSharesNothing(initial, accounts[..n]);
      OneMoreEntry(WithEntries(Initial(initial), accounts[..n]), accounts[n].0, Copy(accounts[n].1));
    }
  }

  lemma {:induction false} StoreShowsLater(h: Heap, h': Heap, st: SharedStore)
    requires ShowsStore(h, st) && forall c | c in h :: c in h' && h'[c] == h[c]
    ensures ShowsStore(h', st)
  {
    forall o | Has(st, o) ensures Shows(h', ValueOf(EntryAt(st, o)), EntryAt(st, o)) {
      ShowsLater(h, h', ValueOf(EntryAt(st, o)), EntryAt(st, o));
    }
  }

  lemma {:induction false} EntryIsInstalled(
      h: Heap, h': Heap, d: Addr, accounts: map<string, Addr>, st: SharedStore, key: string, j: Json)
    requires Realises(h, d, accounts, st) && j.Node?
    requires forall c | c in h :: c in h' && h'[c] == h[c]
    requires forall c | c in h' && c !in h :: c.time == st.clock
    requires var t := Built(j, [], Copied(Some(key)), st.clock); Shows(h', ValueOf(t), t)
    ensures Realises(h', d, accounts[key := Addr([], Copied(Some(key)), st.clock)], WithEntry(st, key, j))
  {
    var r := WithEntry(st, key, j);
    StoreShowsLater(h, h', st);
    BuiltIsRooted(j, [], Copied(Some(key)), st.clock);
    forall o | Has(r, o) && o != Some(key) ensures Has(st, o) && EntryAt(r, o) == EntryAt(st, o) {}
    RootsGrow(d, accounts, st, key, j);
  }

  // After a merge into one entry, every entry shows what the trees say.
  lemma {:induction false} MergeShowsEverywhere(h: Heap, h': Heap, st: SharedStore, o: Option<string>, s: Tree)
    requires IsStore(st) && Has(st, o) && Dated(s, st.clock) && ShowsStore(h, st) && RootedAt(s, [])
    requires Shows(h', ValueOf(EntryAt(st, o)), MergedInto(EntryAt(st, o), s, st.clock))
    requires forall c | c in h :: c in h' && (c !in Track(EntryAt(st, o), s) ==> h'[c] == h[c])
    ensures ShowsStore(h', MergedAt(st, o, s))
  {
    var r, t := MergedAt(st, o, s), EntryAt(st, o);
    forall p | Has(r, p) ensures Shows(h', ValueOf(EntryAt(r, p)), EntryAt(r, p)) && RootedAt(EntryAt(r, p), []) {
      assert Has(st, p) && EntryAt(r, p) == After1(st, o, s, EntryAt(st, p), p == o);
      MergedIsRooted(EntryAt(st, p), s, [], st.clock);
      LeakedIsRooted(EntryAt(st, p), t, s, [], st.clock);
      OthersShowTheLeak(h, h', EntryAt(st, p), t, s, [], st.clock);
    }
  }

  lemma {:induction false} MergeIsRealised(
      h: Heap, h': Heap, d: Addr, accounts: map<string, Addr>, st: SharedStore, o: Option<string>, s: Tree)
    requires Realises(h, d, accounts, st) && Has(st, o) && Dated(s, st.clock)
    requires SourceShows(h, s) && RootedAt(s, [])
    requires Shows(h', ValueOf(EntryAt(st, o)), MergedInto(EntryAt(st, o), s, st.clock))
    requires forall c | c in h :: c in h' && (c !in Track(EntryAt(st, o), s) ==> h'[c] == h[c])
    requires forall c | c in h' && c !in h :: c.time == st.clock
    ensures Realises(h', d, accounts, MergedAt(st, o, s)) && SourceShows(h', s)
  {
    MergeShowsEverywhere(h, h', st, o, s);
    SourceStaysShown(h, h', EntryAt(st, o), s, []);
    RootsStay(d, accounts, st, o, s);
    forall c | c in h' ensures c.time < st.clock + 1 {
      assert c in h || c.time == st.clock;
    }
  }

  lemma {:induction false} EntryIsReady(
      h: Heap, d: Addr, accounts: map<string, Addr>, st: SharedStore, o: Option<string>)
    requires Realises(h, d, accounts, st) && Has(st, o)
    ensures var t := EntryAt(st, o);
      t.Cell? && Shows(h, Ref(t.addr), t) && RootedAt(t, t.addr.home) && t.addr.home == []
    ensures NewOnlyAt(h, [], {}, st.clock)
    ensures EntryAt(st, o).addr == if o.None? then d else accounts[o.value]
  {
    assert RootedAt(EntryAt(st, o), []);
  }

  // ---------- The provider object ----------

  class MemoryPolicyProvider {
    var cells: Heap
    var defaultPolicy: Addr
    var accountPolicies: map<string, Addr>
    var order: seq<string>
    var aliases: map<string, string>
    // A merge has done something beyond own fields.
    var disturbed: bool
    var clock: nat
    // The same store, as trees.
    ghost var view: SharedStore

    // Merging in place: the walk over the source's keys, in any order.
    method DeepMerge(a: Addr, s: Tree, ghost t: Tree)
      requires t.Cell? && t.addr == a && s.Cell?
      requires Shows(cells, Ref(a), t) && RootedAt(t, a.home) && RootedAt(s, a.home) && SourceShows(cells, s)
      requires NewOnlyAt(cells, a.home, {}, clock)
      modifies this`cells, this`disturbed
      ensures Shows(cells, Ref(a), MergedInto(t, s, clock))
      ensures forall c | c in old(cells) :: c in cells && (c !in Track(t, s) ==> cells[c] == old(cells)[c])
      ensures forall c | c in cells && c !in old(cells) :: c.time == clock && a.home < c.home
      ensures disturbed == (old(disturbed) || Disturbs(Erase(t), Erase(s)))
      decreases s
    {
      var keys := s.fields.Keys;
      ghost var was := disturbed;
      ghost var start := cells;
      MergeBegins(cells, t, s, clock);
      NothingDisturbsYet(t, s);
      while keys != {}
        invariant keys <= s.fields.Keys
        invariant PartlyMerged(cells, t, s, keys, clock)
        invariant forall c | c in start :: c in cells && (c !in Track(t, s) ==> cells[c] == start[c])
        invariant forall c | c in cells && c !in start :: c.time == clock && a.home < c.home
        invariant NewOnlyAt(cells, a.home, s.fields.Keys - keys, clock)
        invariant disturbed == (was || DisturbsUnder(t, s, s.fields.Keys - keys))
        decreases |keys|
      {
        var key := PickOne(keys);
        SourceStaysShown(start, cells, t, s, a.home);
        MergeKey(a, key, s, t, keys);
        OneMoreKey(t, s, keys, key);
        keys := keys - {key};
      }
      MergeEnds(cells, t, s, clock);
      AllKeysDone(t, s);
    }

    // The body of the walk, for one key.
    method MergeKey(a: Addr, key: string, s: Tree, ghost t: Tree, ghost todo: set<string>)
      requires KeyIsDue(cells, t, s, todo, key, clock) && t.addr == a
      modifies this`cells, this`disturbed
      ensures KeyIsDone(old(cells), cells, t, s, todo, key, clock)
      ensures disturbed == (old(disturbed) || DisturbsAt(Erase(t), Erase(s), key))
      decreases s, 1
    {
      var val := s.fields[key];
      ghost var h := cells;
      if IsReserved(cells[a], key) {
        disturbed := disturbed || (key == PROTO ==> !IsIgnored(Erase(val), if cells[a].isArray then 2 else 1));
        ReservedKeyIsSkipped(h, t, s, todo, key, clock);
      } else if IsObj(val) {
        MergeObject(a, key, s, t, todo);
      } else {
        cells := cells[a := cells[a].(fields := cells[a].fields[key := ValueOf(val)])];
        KeyIsAssigned(h, cells, t, s, todo, key, clock);
      }
    }

    method MergeObject(a: Addr, key: string, s: Tree, ghost t: Tree, ghost todo: set<string>)
      requires KeyIsDue(cells, t, s, todo, key, clock) && t.addr == a
      requires !IsReserved(cells[a], key) && IsObj(s.fields[key])
      modifies this`cells, this`disturbed
      ensures KeyIsDone(old(cells), cells, t, s, todo, key, clock)
      ensures disturbed == (old(disturbed) || DisturbsAt(Erase(t), Erase(s), key))
      decreases s, 0
    {
      ghost var h, into := cells, Entered(t, key, clock);
      DueKeyIsTaken(h, t, s, todo, key, clock);
      if key !in cells[a].fields || cells[a].fields[key].Word? {
        cells := WithContainer(cells, a, key, clock);
      }
      ContainerIsReady(h, cells, t, s, todo, key, clock);
      ghost var ready := cells;
      DeepMerge(cells[a].fields[key].addr, s.fields[key], into);
      RestIsUntouched(h, ready, cells, t, s, key, into, clock);
      ContainerIsMerged(h, cells, t, s, todo, key, clock);
      DisturbanceUnderKey(t, s, key, clock);
    }

    // ---------- Making and copying values ----------

    // A JSON value is laid out in new cells.
    method Allocate(j: Json, home: seq<string>, maker: Maker) returns (v: Value)
      requires forall c | c in cells && home <= c.home && c.maker == maker :: c.time < clock
      modifies this`cells
      ensures v == ValueOf(Built(j, home, maker, clock)) && Shows(cells, v, Built(j, home, maker, clock))
      ensures forall c | c in old(cells) :: c in cells && cells[c] == old(cells)[c]
      ensures forall c | c in cells && c !in old(cells) :: c.time == clock && c.maker == maker && home <= c.home
      decreases j
    {
      if j.Leaf? {
        return Word(j.text);
      }
      ghost var start := cells;
      var addr := Addr(home, maker, clock);
      var fields: map<string, Value> := map[];
      var keys := j.fields.Keys;
      while keys != {}
        invariant keys <= j.fields.Keys && fields.Keys == j.fields.Keys - keys
        invariant FieldsShow(cells, j, home, maker, fields, clock)
        invariant Grown(start, cells, home, maker, fields.Keys, clock)
        decreases |keys|
      {
        var key := PickOne(keys);
        NothingBelow(start, cells, home, maker, fields.Keys, key, clock);
        ghost var h := cells;
        var v := Allocate(j.fields[key], home + [key], maker);
        FieldIsLaid(start, h, cells, j, home, maker, fields, key, v, clock);
        fields := fields[key := v];
        keys := keys - {key};
      }
      ghost var h := cells;
      cells := cells[addr := Record(j.isArray, fields)];
      AllIsLaid(start, h, cells, j, home, maker, fields, clock);
      v := Ref(addr);
    }

    // A value in the heap, written as JSON text and parsed again.
    method Stringify(v: Value, ghost t: Tree) returns (j: Json)
      requires Shows(cells, v, t)
      ensures j == Copy(Erase(t))
      decreases t, 1
    {
      match v {
        case Word(x) =>
          j := Leaf(x);
        case Ref(a) =>
          var fields: map<string, Json> := map[];
          var written := WrittenKeys(cells[a].isArray, cells[a].fields.Keys);
          var keys := written;
          while keys != {}
            invariant keys <= written && fields.Keys == written - keys
            invariant forall k | k in fields :: fields[k] == CopiedField(t, k)
            decreases |keys|
          {
            var key := PickOne(keys);
            var field := StringifyField(a, key, t);
            fields := fields[key := field];
            keys := keys - {key};
          }
          j := Node(cells[a].isArray, fields);
          CopyIsWritten(t, j);
      }
    }

    // One field of it; a hole is written as null.
    method StringifyField(a: Addr, key: string, ghost t: Tree) returns (j: Json)
      requires t.Cell? && Shows(cells, Ref(a), t)
      ensures j == CopiedField(t, key)
      decreases t, 0
    {
      j := NULL;
      if key in cells[a].fields {
        j := Stringify(cells[a].fields[key], t.fields[key]);
      }
    }

    // ---------- The store ----------

    ghost predicate Valid()
      reads this
    {
      && view.clock == clock && view.order == order && view.aliases == aliases && view.disturbed == disturbed
      && Realises(cells, defaultPolicy, accountPolicies, view)
    }

    // The default starts as a copy of the given one, as do the given accounts' policies.
    constructor (initial: Json, accounts: seq<(string, Json)>)
      requires initial.Node? && forall i | 0 <= i < |accounts| :: accounts[i].1.Node?
      ensures Valid() && view == WithEntries(Initial(Copy(initial)), accounts)
    {
      cells, accountPolicies, order, aliases, disturbed, clock := map[], map[], [], map[], false, 0;
      defaultPolicy := Addr([], Copied(None), 0);
      view := Initial(Copy(initial));
      new;
      var v := Allocate(Copy(initial), [], Copied(None));
      clock := 1;
      InitialIsShown(cells, Copy(initial));
      InstallAll(accounts);
    }

    method InstallAll(accounts: seq<(string, Json)>)
      requires Valid() && forall i | 0 <= i < |accounts| :: accounts[i].1.Node?
      modifies this`cells, this`accountPolicies, this`order, this`clock, this`view
      ensures Valid() && view == WithEntries(old(view), accounts)
    {
      ghost var start := view;
      for i := 0 to |accounts|
        invariant Valid() && view == WithEntries(start, accounts[..i])
      {
        Install(accounts[i].0, Copy(accounts[i].1));
        assert accounts[..i + 1][..i] == accounts[..i];
      }
      assert accounts[..|accounts|] == accounts;
    }

    method AddAlias(aliasId: string, canonicalId: string)
      requires Valid()
      modifies this`aliases, this`view
      ensures Valid() && view == AfterInPlace(old(view), Alias(aliasId, canonicalId))
    {
      if aliasId != "" && canonicalId != "" {
        aliases := aliases[aliasId := canonicalId];
        ghost var was := view;
        view := WithAlias(view, aliasId, canonicalId);
        forall o | Has(view, o) ensures Has(was, o) && EntryAt(view, o) == EntryAt(was, o) {}
      }
    }

    // The policy a name reads: the entry of the name it stands for, then its
    // own, then the default. The caller gets the object itself.
    method GetPolicy(accountId: Option<string>) returns (p: Addr)
      requires Valid()
      ensures var entry := if accountId.None? then None else EntryOf(view.accounts.Keys, view.aliases, accountId.value);
        && Has(view, entry)
        && Shows(cells, Ref(p), EntryAt(view, entry))
      ensures
        if accountId.None? then p == defaultPolicy
        else
          var name := accountId.value;
          var alias := if name in aliases && aliases[name] != "" then aliases[name] else name;
          if alias in accountPolicies then p == accountPolicies[alias]
          else if name in accountPolicies then p == accountPolicies[name]
          else p == defaultPolicy
    {
      if accountId.Some? {
        var resolvedId := Resolve(aliases, accountId.value);
        if resolvedId in accountPolicies {
          assert Has(view, Some(resolvedId));
          return accountPolicies[resolvedId];
        }
        if accountId.value in accountPolicies {
          assert Has(view, Some(accountId.value));
          return accountPolicies[accountId.value];
        }
      }
      assert Has(view, None);
      p := defaultPolicy;
    }

    method SetPolicy(accountId: string, policy: Json)
      requires Valid() && policy.Node?
      modifies this`cells, this`accountPolicies, this`order, this`clock, this`view
      ensures Valid() && view == AfterInPlace(old(view), Set(accountId, policy))
    {
      if accountId == "" {
        return;
      }
      Install(Resolve(aliases, accountId), Copy(policy));
    }

    method Install(key: string, policy: Json)
      requires Valid() && policy.Node?
      modifies this`cells, this`accountPolicies, this`order, this`clock, this`view
      ensures Valid() && view == WithEntry(old(view), key, policy)
    {
      ghost var h := cells;
      var v := Allocate(policy, [], Copied(Some(key)));
      EntryIsInstalled(h, cells, defaultPolicy, accountPolicies, view, key, policy);
      accountPolicies := accountPolicies[key := v.addr];
      if key !in order {
        order := order + [key];
      }
      view, clock := WithEntry(view, key, policy), clock + 1;
      assert Realises(cells, defaultPolicy, accountPolicies, view);
    }

    // The payload of an update, laid out as parsing it would.
    method Receive(category: Option<string>, values: Json) returns (s: Tree)
      requires Valid()
      modifies this`cells, this`clock, this`view
      ensures Valid() && (view, s) == Received(old(view), category, values)
      ensures SourceShows(cells, s) && RootedAt(s, [])
    {
      ghost var h, was := cells, view;
      s := Built(PayloadOf(category, values), [], Payload, clock);
      var _ := Allocate(PayloadOf(category, values), [], Payload);
      BuiltIsRooted(PayloadOf(category, values), [], Payload, clock);
      SourceShownWhole(cells, s);
      clock := clock + 1;
      view := Received(view, category, values).0;
      StoreShowsLater(h, cells, was);
      forall o | Has(view, o) ensures Has(was, o) && EntryAt(view, o) == EntryAt(was, o) {}
    }

    method MergeCells(ghost o: Option<string>, root: Addr, s: Tree)
      requires Valid() && Has(view, o) && root == if o.None? then defaultPolicy else accountPolicies[o.value]
      requires IsObj(s) && SourceShows(cells, s) && RootedAt(s, []) && Dated(s, clock)
      modifies this`cells, this`disturbed
      ensures Realises(cells, defaultPolicy, accountPolicies, MergedAt(view, o, s)) && SourceShows(cells, s)
      ensures disturbed == MergedAt(view, o, s).disturbed
    {
      ghost var h := cells;
      EntryIsReady(cells, defaultPolicy, accountPolicies, view, o);
      DeepMerge(root, s, EntryAt(view, o));
      MergeIsRealised(h, cells, defaultPolicy, accountPolicies, view, o, s);
    }

    // One policy takes the source in place.
    method MergeEntry(ghost o: Option<string>, root: Addr, s: Tree)
      requires Valid() && Has(view, o) && root == if o.None? then defaultPolicy else accountPolicies[o.value]
      requires IsObj(s) && SourceShows(cells, s) && RootedAt(s, []) && Dated(s, clock)
      modifies this`cells, this`disturbed, this`clock, this`view
      ensures Valid() && view == MergedAt(old(view), o, s)
      ensures SourceShows(cells, s)
    {
      MergeCells(o, root, s);
      ghost var r := MergedAt(view, o, s);
      assert r.clock == clock + 1 && r.order == order && r.aliases == aliases && r.disturbed == disturbed;
      view, clock := r, clock + 1;
      assert Realises(cells, defaultPolicy, accountPolicies, view);
    }

    method UpdatePolicy(target: Option<string>, category: Option<string>, values: Json)
      requires Valid()
      modifies this
      ensures Valid() && view == AfterInPlace(old(view), Update(target, category, values))
    {
      if values.Leaf? {
        return;
      }
      if GoesToAll(target) {
        var s := Receive(category, values);
        UpdateEveryone(s);
      } else {
        var resolvedId := Resolve(aliases, target.value);
        if resolvedId !in accountPolicies {
          assert Has(view, None) && EntryAt(view, None) == view.defaultPolicy;
          var copy := Stringify(Ref(defaultPolicy), view.defaultPolicy);
          Install(resolvedId, copy);
        }
        var s := Receive(category, values);
        assert Has(view, Some(resolvedId)) && EntryAt(view, Some(resolvedId)) == view.accounts[resolvedId];
        MergeEntry(Some(resolvedId), accountPolicies[resolvedId], s);
      }
    }

    // The default first, then each account in the order of the entries.
    method UpdateEveryone(s: Tree)
      requires Valid()
      requires IsObj(s) && SourceShows(cells, s) && RootedAt(s, []) && Dated(s, clock)
      modifies this`cells, this`disturbed, this`clock, this`view
      ensures Valid() && view == MergedAtAll(old(view), Owners(old(view)), s)
    {
      ghost var start, owners := view, AccountOwners(view.order);
      assert Has(view, None) && EntryAt(view, None) == view.defaultPolicy;
      assert Owners(view)[1..] == owners;
      MergeEntry(None, defaultPolicy, s);
      DatedLonger(s, start.clock, clock);
      assert owners[0..] == owners;
      for i := 0 to |order|
        invariant Valid() && order == start.order && view.accounts.Keys == start.accounts.Keys && start.clock < clock
        invariant SourceShows(cells, s) && Dated(s, clock)
        invariant forall o | o in owners[i..] :: Has(view, o)
        invariant MergedAtAll(view, owners[i..], s) == MergedAtAll(start, Owners(start), s)
      {
        UpdateOwner(i, s);
      }
    }

    // The body of that walk.
    method UpdateOwner(i: nat, s: Tree)
      requires Valid() && i < |order|
      requires IsObj(s) && SourceShows(cells, s) && RootedAt(s, []) && Dated(s, clock)
      requires forall o | o in AccountOwners(order)[i..] :: Has(view, o)
      modifies this`cells, this`disturbed, this`clock, this`view
      ensures Valid() && view.accounts.Keys == old(view).accounts.Keys && old(clock) < clock
      ensures SourceShows(cells, s) && Dated(s, clock)
      ensures forall o | o in AccountOwners(order)[i + 1..] :: Has(view, o)
      ensures MergedAtAll(view, AccountOwners(order)[i + 1..], s) ==
        MergedAtAll(old(view), AccountOwners(order)[i..], s)
    {
      ghost var owners := AccountOwners(order)[i..];
      assert owners[0] == Some(order[i]) && owners[1..] == AccountOwners(order)[i + 1..];
      assert Has(view, owners[0]);
      MergeEntry(Some(order[i]), accountPolicies[order[i]], s);
      DatedLonger(s, old(clock), clock);
    }
  }
}
