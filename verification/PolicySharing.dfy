// Policies as the code keeps them: objects that are merged into in place. An
// update of everyone assigns one and the same array to every policy, so a later
// merge into that array through one policy shows in all. Here every object and
// array carries its identity, and the store is compared with PolicyCopies.

module PolicySharing {
  import opened Common
  import opened JsonValues
  import opened PolicyMerge
  import opened PolicyCopies
  import opened PolicyInheritance

  // Who made an object or array: a copy of a policy for its owner, the payload
  // of an update, or a merge that found nothing to merge into within a cell.
  datatype Maker = Copied(owner: Option<string>) | Payload | Within(cell: Addr)

  // The identity of an object or array: the path at which it was made, its
  // maker and the time. No two are made alike.
  datatype Addr = Addr(home: seq<string>, maker: Maker, time: nat)

  // A JSON value with the identities of its objects and arrays.
  datatype Tree = Text(text: string) | Cell(addr: Addr, isArray: bool, fields: map<string, Tree>)

  predicate IsObj(t: Tree) { t.Cell? && !t.isArray }

  // The value without the identities.
  function Erase(t: Tree): (j: Json)
    ensures t.Cell? ==> j.Node? && j.isArray == t.isArray && j.fields.Keys == t.fields.Keys
  {
    match t
    case Text(x) => Leaf(x)
    case Cell(_, isArray, fields) => Node(isArray, map k | k in fields :: Erase(fields[k]))
  }

  // A value made anew.
  function Built(j: Json, home: seq<string>, maker: Maker, time: nat): (t: Tree)
    ensures Erase(t) == j
    decreases j
  {
    match j
    case Leaf(x) => Text(x)
    case Node(isArray, fields) =>
      var t := Cell(Addr(home, maker, time), isArray, map k | k in fields :: Built(fields[k], home + [k], maker, time));
      assert Erase(t).fields == fields;
      t
  }

  predicate TakesKey(t: Tree, key: string)
    requires t.Cell?
  {
    key in t.fields || !IsSpecial(t.isArray, key)
  }

  // What a merge goes into: the container that is there, or a new object.
  function Entered(t: Tree, key: string, time: nat): (r: Tree)
    requires t.Cell?
    ensures r.Cell?
  {
    if key in t.fields && t.fields[key].Cell? then t.fields[key]
    else Cell(Addr(t.addr.home + [key], Within(t.addr), time), false, map[])
  }

  // The target after the merge: the same object, its own containers kept, and
  // the source's arrays taken over as they are.
  function MergedInto(t: Tree, s: Tree, time: nat): (r: Tree)
    requires t.Cell?
    ensures r.Cell? && r.addr == t.addr && r.isArray == t.isArray
    decreases s
  {
    if s.Text? then t
    else Cell(t.addr, t.isArray, map key | key in t.fields.Keys + s.fields.Keys && TakesKey(t, key) ::
                if key in s.fields then FieldAfter(t, s, key, time) else t.fields[key])
  }

  function FieldAfter(t: Tree, s: Tree, key: string, time: nat): Tree
    requires t.Cell? && s.Cell? && key in s.fields
    decreases s, 0
  {
    var v := s.fields[key];
    if IsObj(v) then MergedInto(Entered(t, key, time), v, time) else v
  }

  // What another policy shows after `s` was merged into `t`: the same change
  // wherever it holds the very object or array that the merge went into.
  function Leaked(r: Tree, t: Tree, s: Tree, time: nat): (r': Tree)
    ensures r.Cell? ==> r'.Cell? && r'.addr == r.addr && r'.isArray == r.isArray
    decreases s
  {
    if r.Text? || t.Text? || s.Text? then r
    else if r.addr == t.addr then MergedInto(r, s, time)
    else Cell(r.addr, r.isArray, map k | k in r.fields ::
                if k in s.fields && k in t.fields && IsObj(s.fields[k])
                then Leaked(r.fields[k], t.fields[k], s.fields[k], time) else r.fields[k])
  }

  // ---------- One merge, with identities erased ----------

  lemma EraseOfField(t: Tree, k: string)
    requires t.Cell? && k in t.fields
    ensures Erase(t).fields[k] == Erase(t.fields[k])
  {
  }

  lemma EraseOfEntered(t: Tree, k: string, time: nat)
    requires t.Cell?
    ensures Erase(Entered(t, k, time)) == Container(Erase(t).fields, k)
  {
    if !(k in t.fields && t.fields[k].Cell?) {
      assert Erase(Entered(t, k, time)).fields == map[];
    }
  }

  lemma {:induction false} EraseOfMerge(t: Tree, s: Tree, time: nat)
    requires t.Cell?
    ensures Erase(MergedInto(t, s, time)) == Merged(Erase(t), Erase(s))
    decreases s
  {
    if s.Cell? {
      var T, S := Erase(t), Erase(s);
      var r := MergedInto(t, s, time);
      forall k | k in s.fields && TakesKey(t, k) ensures Erase(r.fields[k]) == MergedField(T, S, k) {
        assert r.fields[k] == FieldAfter(t, s, k, time);
        if IsObj(s.fields[k]) {
          EraseOfMerge(Entered(t, k, time), s.fields[k], time);
          EraseOfEntered(t, k, time);
        }
      }
      assert Erase(r).fields == Merged(T, S).fields;
    }
  }

  // Another policy reads as before exactly when every object of the source
  // either goes into something the other does not hold, or brings it nothing new.
  predicate Spared(r: Tree, t: Tree, s: Tree)
    decreases s
  {
    r.Text? || t.Text? || s.Text? ||
    if r.addr == t.addr then AlreadyHolds(Erase(r), Erase(s))
    else forall k | k in r.fields && k in t.fields && k in s.fields && IsObj(s.fields[k]) ::
      Spared(r.fields[k], t.fields[k], s.fields[k])
  }

  lemma {:induction false} LeakIsInvisibleIff(r: Tree, t: Tree, s: Tree, time: nat)
    ensures Erase(Leaked(r, t, s, time)) == Erase(r) <==> Spared(r, t, s)
    decreases s
  {
    if r.Text? || t.Text? || s.Text? {
    } else if r.addr == t.addr {
      EraseOfMerge(r, s, time);
      MergeIsIdleIff(Erase(r), Erase(s));
    } else {
      var r' := Leaked(r, t, s, time);
      forall k | k in r.fields && k in t.fields && k in s.fields && IsObj(s.fields[k])
        ensures Erase(r'.fields[k]) == Erase(r.fields[k]) <==> Spared(r.fields[k], t.fields[k], s.fields[k])
      {
        LeakIsInvisibleIff(r.fields[k], t.fields[k], s.fields[k], time);
      }
      assert Erase(r').fields.Keys == Erase(r).fields.Keys;
      if Spared(r, t, s) {
        assert Erase(r').fields == Erase(r).fields;
      } else {
        var k :| k in r.fields && k in t.fields && k in s.fields && IsObj(s.fields[k])
          && !Spared(r.fields[k], t.fields[k], s.fields[k]);
        EraseOfField(r', k);
        EraseOfField(r, k);
      }
    }
  }

  // A policy that already has all the source assigns is spared.
  lemma {:induction false} HoldingIsSpared(r: Tree, t: Tree, s: Tree)
    requires r.Cell? && AlreadyHolds(Erase(r), Erase(s))
    ensures Spared(r, t, s)
    decreases s
  {
    if t.Cell? && s.Cell? && r.addr != t.addr {
      forall k | k in r.fields && k in t.fields && k in s.fields && IsObj(s.fields[k])
        ensures Spared(r.fields[k], t.fields[k], s.fields[k])
      {
        assert Erase(s).fields[k] == Erase(s.fields[k]) && Erase(r).fields[k] == Erase(r.fields[k]);
        assert TakesKey(r, k) && Takes(Erase(r), k);
        if r.fields[k].Cell? {
          HoldingIsSpared(r.fields[k], t.fields[k], s.fields[k]);
        }
      }
    }
  }

  lemma LeakedField(r: Tree, t: Tree, s: Tree, time: nat, k: string)
    requires r.Cell? && t.Cell? && s.Cell? && r.addr != t.addr
    ensures var R, R' := Erase(r), Erase(Leaked(r, t, s, time));
      && R'.fields.Keys == R.fields.Keys
      && (k in r.fields && k in t.fields && k in s.fields && IsObj(s.fields[k]) ==>
            R'.fields[k] == Erase(Leaked(r.fields[k], t.fields[k], s.fields[k], time)))
      && (k in r.fields && !(k in t.fields && k in s.fields && IsObj(s.fields[k])) ==> R'.fields[k] == R.fields[k])
      && (k in s.fields ==> Erase(s).fields[k] == Erase(s.fields[k]))
      && (k in r.fields ==> R.fields[k] == Erase(r.fields[k]))
  {
  }

  // A policy's own merge overrides whatever part of it has leaked in before.
  lemma {:induction false} MergeAfterLeak(r: Tree, t: Tree, s: Tree, time: nat)
    requires r.Cell?
    ensures Merged(Erase(Leaked(r, t, s, time)), Erase(s)) == Merged(Erase(r), Erase(s))
    decreases s
  {
    if r.Text? || t.Text? || s.Text? {
    } else if r.addr == t.addr {
      EraseOfMerge(r, s, time);
      MergeIsIdempotent(Erase(r), Erase(s));
    } else {
      var r' := Leaked(r, t, s, time);
      var R, R', S := Erase(r), Erase(r'), Erase(s);
      forall k | k in s.fields && TakesKey(r, k) ensures MergedField(R', S, k) == MergedField(R, S, k) {
        LeakedField(r, t, s, time, k);
        if k in r.fields && k in t.fields && IsObj(s.fields[k]) && r.fields[k].Cell? {
          MergeAfterLeak(r.fields[k], t.fields[k], s.fields[k], time);
        }
      }
      SameFieldsSameMerge(R', R, S);
    }
  }

  lemma {:induction false} SameFieldsSameMerge(a: Json, b: Json, s: Json)
    requires a.Node? && b.Node? && s.Node? && a.isArray == b.isArray && a.fields.Keys == b.fields.Keys
    requires forall k | k in s.fields && Takes(a, k) :: MergedField(a, s, k) == MergedField(b, s, k)
    requires forall k | k in a.fields && k !in s.fields :: a.fields[k] == b.fields[k]
    ensures Merged(a, s) == Merged(b, s)
  {
    assert Merged(a, s).fields == Merged(b, s).fields;
  }

  // Whether a merge does anything beyond own fields does not depend on leaks.
  lemma {:induction false} LeakKeepsDisturbance(r: Tree, t: Tree, s: Tree, time: nat)
    requires r.Cell?
    ensures Disturbs(Erase(Leaked(r, t, s, time)), Erase(s)) == Disturbs(Erase(r), Erase(s))
    decreases s
  {
    if r.Text? || t.Text? || s.Text? {
    } else if r.addr == t.addr {
      EraseOfMerge(r, s, time);
      DisturbanceIsStable(Erase(r), Erase(s));
    } else {
      var R, R', S := Erase(r), Erase(Leaked(r, t, s, time)), Erase(s);
      forall k | k in S.fields && IsObject(S.fields[k]) ensures DisturbsAt(R', S, k) == DisturbsAt(R, S, k) {
        LeakedField(r, t, s, time, k);
        if k in r.fields && k in t.fields && r.fields[k].Cell? {
          LeakKeepsDisturbance(r.fields[k], t.fields[k], s.fields[k], time);
        }
      }
    }
  }

  // ---------- The store ----------

  // `order` is the order in which the accounts got their entries; `disturbed`
  // says that an update has done something beyond own fields.
  datatype SharedStore = SharedStore(
    defaultPolicy: Tree,
    accounts: map<string, Tree>,
    order: seq<string>,
    aliases: map<string, string>,
    disturbed: bool,
    clock: nat)

  // The entry of an owner; None owns the default.
  predicate Has(st: SharedStore, o: Option<string>) { o.Some? ==> o.value in st.accounts }

  function EntryAt(st: SharedStore, o: Option<string>): Tree
    requires Has(st, o)
  {
    if o.None? then st.defaultPolicy else st.accounts[o.value]
  }

  // All of it was made before this time.
  predicate Dated(t: Tree, time: nat) {
    t.Cell? ==> t.addr.time < time && forall k | k in t.fields :: Dated(t.fields[k], time)
  }

  ghost predicate IsStore(st: SharedStore) {
    && (forall o | Has(st, o) :: EntryAt(st, o).Cell? && Dated(EntryAt(st, o), st.clock))
    && (forall k :: k in st.accounts <==> k in st.order)
  }

  // The store as a store of copies.
  function Copies(st: SharedStore): Store {
    Store(Erase(st.defaultPolicy), map k | k in st.accounts :: Erase(st.accounts[k]), st.aliases)
  }

  lemma {:induction false} DatedLonger(t: Tree, early: nat, late: nat)
    requires Dated(t, early) && early <= late
    ensures Dated(t, late)
  {
    if t.Cell? {
      forall k | k in t.fields ensures Dated(t.fields[k], late) { DatedLonger(t.fields[k], early, late); }
    }
  }

  lemma {:induction false} BuiltIsDated(j: Json, home: seq<string>, maker: Maker, time: nat)
    ensures Dated(Built(j, home, maker, time), time + 1)
    decreases j
  {
    if j.Node? {
      forall k | k in j.fields ensures Dated(Built(j.fields[k], home + [k], maker, time), time + 1) {
        BuiltIsDated(j.fields[k], home + [k], maker, time);
      }
    }
  }

  lemma {:induction false} MergedIsDated(t: Tree, s: Tree, time: nat)
    requires t.Cell? && Dated(t, time + 1) && Dated(s, time + 1)
    ensures Dated(MergedInto(t, s, time), time + 1)
    decreases s
  {
    if s.Cell? {
      var r := MergedInto(t, s, time);
      forall k | k in r.fields ensures Dated(r.fields[k], time + 1) {
        if k in s.fields {
          assert r.fields[k] == FieldAfter(t, s, k, time);
          if IsObj(s.fields[k]) { MergedIsDated(Entered(t, k, time), s.fields[k], time); }
        }
      }
    }
  }

  lemma {:induction false} LeakedIsDated(r: Tree, t: Tree, s: Tree, time: nat)
    requires Dated(r, time + 1) && Dated(s, time + 1)
    ensures Dated(Leaked(r, t, s, time), time + 1)
    decreases s
  {
    if r.Text? || t.Text? || s.Text? {
    } else if r.addr == t.addr {
      MergedIsDated(r, s, time);
    } else {
      var r' := Leaked(r, t, s, time);
      forall k | k in r'.fields ensures Dated(r'.fields[k], time + 1) {
        if k in s.fields && k in t.fields && IsObj(s.fields[k]) {
          LeakedIsDated(r.fields[k], t.fields[k], s.fields[k], time);
        }
      }
    }
  }

  // One merge in place: the entry takes the source, the others show what they share.
  function After1(st: SharedStore, o: Option<string>, s: Tree, r: Tree, own: bool): Tree
    requires Has(st, o) && r.Cell?
  {
    if own then MergedInto(r, s, st.clock) else Leaked(r, EntryAt(st, o), s, st.clock)
  }

  function EntriesAfter(st: SharedStore, o: Option<string>, s: Tree): (r: SharedStore)
    requires IsStore(st) && Has(st, o)
    ensures forall p | Has(st, p) :: Has(r, p) && EntryAt(r, p) == After1(st, o, s, EntryAt(st, p), p == o)
  {
    assert Has(st, None) && forall k | k in st.accounts :: Has(st, Some(k)) && EntryAt(st, Some(k)) == st.accounts[k];
    st.(defaultPolicy := After1(st, o, s, st.defaultPolicy, o == None),
        accounts := map k | k in st.accounts :: After1(st, o, s, st.accounts[k], o == Some(k)),
        disturbed := st.disturbed || Disturbs(Erase(EntryAt(st, o)), Erase(s)),
        clock := st.clock + 1)
  }

  lemma MergeStaysDated(st: SharedStore, o: Option<string>, s: Tree)
    requires IsStore(st) && Has(st, o) && Dated(s, st.clock)
    ensures forall p | Has(st, p) :: Dated(After1(st, o, s, EntryAt(st, p), p == o), st.clock + 1)
  {
    DatedLonger(s, st.clock, st.clock + 1);
    forall p | Has(st, p) ensures Dated(After1(st, o, s, EntryAt(st, p), p == o), st.clock + 1) {
      DatedLonger(EntryAt(st, p), st.clock, st.clock + 1);
      MergedIsDated(EntryAt(st, p), s, st.clock);
      LeakedIsDated(EntryAt(st, p), EntryAt(st, o), s, st.clock);
    }
  }

  function MergedAt(st: SharedStore, o: Option<string>, s: Tree): (r: SharedStore)
    requires IsStore(st) && Has(st, o) && Dated(s, st.clock)
    ensures IsStore(r) && r.clock == st.clock + 1
    ensures r.accounts.Keys == st.accounts.Keys && r.order == st.order && r.aliases == st.aliases
    ensures r.disturbed == (st.disturbed || Disturbs(Erase(EntryAt(st, o)), Erase(s)))
    ensures forall p | Has(st, p) :: EntryAt(r, p) == After1(st, o, s, EntryAt(st, p), p == o)
  {
    MergeStaysDated(st, o, s);
    EntriesAfter(st, o, s)
  }

  // The same source merged into one entry after the other.
  function MergedAtAll(st: SharedStore, owners: seq<Option<string>>, s: Tree): (r: SharedStore)
    requires IsStore(st) && Dated(s, st.clock) && forall o | o in owners :: Has(st, o)
    ensures IsStore(r)
    ensures r.accounts.Keys == st.accounts.Keys && r.order == st.order && r.aliases == st.aliases
    decreases |owners|
  {
    if owners == [] then st
    else
      DatedLonger(s, st.clock, st.clock + 1);
      var next := MergedAt(st, owners[0], s);
      assert forall o | o in owners[1..] :: o in owners && Has(st, o) && Has(next, o);
      MergedAtAll(next, owners[1..], s)
  }

  function AccountOwners(order: seq<string>): (r: seq<Option<string>>)
    ensures |r| == |order| && forall i | 0 <= i < |order| :: r[i] == Some(order[i])
    ensures forall o :: o in r <==> o.Some? && o.value in order
  {
    if order == [] then [] else [Some(order[0])] + AccountOwners(order[1..])
  }

  // The default first, then the accounts in the order of their entries.
  function Owners(st: SharedStore): (r: seq<Option<string>>)
    requires IsStore(st)
    ensures forall o :: o in r <==> Has(st, o)
  {
    [None] + AccountOwners(st.order)
  }

  // An entry made of its own, at the end of the order if it is new.
  function WithEntry(st: SharedStore, key: string, j: Json): (r: SharedStore)
    requires IsStore(st) && j.Node?
    ensures IsStore(r)
  {
    var t := Built(j, [], Copied(Some(key)), st.clock);
    var r := st.(accounts := st.accounts[key := t],
                 order := if key in st.order then st.order else st.order + [key],
                 clock := st.clock + 1);
    BuiltIsDated(j, [], Copied(Some(key)), st.clock);
    assert forall o | Has(r, o) && o != Some(key) :: Has(st, o) && EntryAt(r, o) == EntryAt(st, o);
    forall o | Has(r, o) ensures EntryAt(r, o).Cell? && Dated(EntryAt(r, o), r.clock) {
      if o != Some(key) { DatedLonger(EntryAt(st, o), st.clock, r.clock); }
    }
    r
  }

  // The first own update of an account copies the default.
  function Opened(st: SharedStore, key: string): (r: SharedStore)
    requires IsStore(st)
    ensures IsStore(r) && key in r.accounts
  {
    assert Has(st, None) && EntryAt(st, None) == st.defaultPolicy;
    if key in st.accounts then st else WithEntry(st, key, Copy(Erase(st.defaultPolicy)))
  }

  // The payload of an update arrives as objects and arrays of its own.
  function Received(st: SharedStore, category: Option<string>, values: Json): (r: (SharedStore, Tree))
    requires IsStore(st)
    ensures IsStore(r.0) && Dated(r.1, r.0.clock) && Erase(r.1) == PayloadOf(category, values)
    ensures r.0 == st.(clock := st.clock + 1) && IsObj(r.1)
  {
    var s := Built(PayloadOf(category, values), [], Payload, st.clock);
    var r := st.(clock := st.clock + 1);
    BuiltIsDated(PayloadOf(category, values), [], Payload, st.clock);
    forall o | Has(r, o) ensures EntryAt(r, o).Cell? && Dated(EntryAt(r, o), r.clock) {
      assert Has(st, o);
      DatedLonger(EntryAt(st, o), st.clock, r.clock);
    }
    (r, s)
  }

  function AfterInPlace(st: SharedStore, c: Change): (r: SharedStore)
    requires IsStore(st) && IsLegal(c)
    ensures IsStore(r)
  {
    match c
    case Update(target, category, values) =>
      if values.Leaf? then st
      else if GoesToAll(target) then
        var (st, s) := Received(st, category, values);
        MergedAtAll(st, Owners(st), s)
      else
        var key := Resolve(st.aliases, target.value);
        var (st, s) := Received(Opened(st, key), category, values);
        MergedAt(st, Some(key), s)
    case Set(id, policy) => if id == "" then st else WithEntry(st, Resolve(st.aliases, id), Copy(policy))
    case Alias(a, b) => if a == "" || b == "" then st else WithAlias(st, a, b)
  }

  function WithAlias(st: SharedStore, a: string, b: string): (r: SharedStore)
    requires IsStore(st)
    ensures IsStore(r)
  {
    var r := st.(aliases := st.aliases[a := b]);
    assert forall o | Has(r, o) :: Has(st, o) && EntryAt(r, o) == EntryAt(st, o);
    r
  }

  function RunInPlace(st: SharedStore, changes: seq<Change>): (r: SharedStore)
    requires IsStore(st) && forall c | c in changes :: IsLegal(c)
    ensures IsStore(r)
  {
    if changes == [] then st else AfterInPlace(RunInPlace(st, changes[..|changes| - 1]), changes[|changes| - 1])
  }

  // ---------- When the copies tell the truth ----------

  // Nobody else notices a merge into this entry, and it does nothing beyond own fields.
  ghost predicate IsPrivate(st: SharedStore, o: Option<string>, s: Tree)
    requires IsStore(st) && Has(st, o)
  {
    && !Disturbs(Erase(EntryAt(st, o)), Erase(s))
    && forall p | Has(st, p) && p != o :: Spared(EntryAt(st, p), EntryAt(st, o), s)
  }

  // What the change must not do: merge an object into something another entry
  // holds too, bringing it something new, or do anything beyond own fields.
  ghost predicate IsHarmless(st: SharedStore, c: Change)
    requires IsStore(st) && IsLegal(c)
  {
    c.Update? && c.values.Node? ==>
      if GoesToAll(c.target) then
        forall o | Has(st, o) :: !Disturbs(Erase(EntryAt(st, o)), PayloadOf(c.category, c.values))
      else
        var key := Resolve(st.aliases, c.target.value);
        var (st', s) := Received(Opened(st, key), c.category, c.values);
        IsPrivate(st', Some(key), s)
  }

  lemma CopiesOfEntry(st: SharedStore, o: Option<string>)
    requires Has(st, o)
    ensures o.None? ==> Copies(st).defaultPolicy == Erase(EntryAt(st, o))
    ensures o.Some? ==> o.value in Copies(st).accounts && Copies(st).accounts[o.value] == Erase(EntryAt(st, o))
  {
  }

  // Two stores of copies are the same when they have the same entries.
  lemma SameCopies(st: SharedStore, c: Store)
    requires st.aliases == c.aliases && st.accounts.Keys == c.accounts.Keys
    requires forall o | Has(st, o) :: Erase(EntryAt(st, o)) == if o.None? then c.defaultPolicy else c.accounts[o.value]
    ensures Copies(st) == c
  {
    assert Has(st, None);
    forall k | k in st.accounts ensures Copies(st).accounts[k] == c.accounts[k] {
      assert Has(st, Some(k)) && EntryAt(st, Some(k)) == st.accounts[k];
    }
    assert Copies(st).accounts == c.accounts;
  }

  // A merge into one entry leaves all others reading as before exactly when it is private.
  lemma {:induction false} OneMergeIsPrivateIff(st: SharedStore, o: Option<string>, s: Tree)
    requires IsStore(st) && Has(st, o) && Dated(s, st.clock)
    ensures var r := MergedAt(st, o, s);
      && Erase(EntryAt(r, o)) == Merged(Erase(EntryAt(st, o)), Erase(s))
      && (forall p | Has(st, p) && p != o ::
            Erase(EntryAt(r, p)) == Erase(EntryAt(st, p)) <==> Spared(EntryAt(st, p), EntryAt(st, o), s))
  {
    EraseOfMerge(EntryAt(st, o), s, st.clock);
    forall p | Has(st, p) && p != o
      ensures Erase(Leaked(EntryAt(st, p), EntryAt(st, o), s, st.clock)) == Erase(EntryAt(st, p)) <==>
              Spared(EntryAt(st, p), EntryAt(st, o), s)
    {
      LeakIsInvisibleIff(EntryAt(st, p), EntryAt(st, o), s, st.clock);
    }
  }

  // Merging into everyone, one after the other and in place, gives every entry
  // its own merge, whatever they share.
  lemma {:induction false} EveryoneGetsTheMerge(
      st: SharedStore, owners: seq<Option<string>>, s: Tree, p: Option<string>)
    requires IsStore(st) && Dated(s, st.clock) && (forall o | o in owners :: Has(st, o)) && Has(st, p)
    requires p in owners || AlreadyHolds(Erase(EntryAt(st, p)), Erase(s))
    ensures Erase(EntryAt(MergedAtAll(st, owners, s), p)) == Merged(Erase(EntryAt(st, p)), Erase(s))
    decreases |owners|
  {
    var P, S := Erase(EntryAt(st, p)), Erase(s);
    MergeIsIdleIff(P, S);
    if owners != [] {
      var o := owners[0];
      var next := MergedAt(st, o, s);
      DatedLonger(s, st.clock, st.clock + 1);
      forall q | q in owners[1..] ensures Has(st, q) && Has(next, q) { assert q in owners; }
      if p == o {
        EraseOfMerge(EntryAt(st, p), s, st.clock);
        MergeIsIdempotent(P, S);
        MergeIsIdleIff(Merged(P, S), S);
      } else {
        MergeAfterLeak(EntryAt(st, p), EntryAt(st, o), s, st.clock);
        if p !in owners {
          HoldingIsSpared(EntryAt(st, p), EntryAt(st, o), s);
          LeakIsInvisibleIff(EntryAt(st, p), EntryAt(st, o), s, st.clock);
        } else {
          assert p in owners[1..];
        }
      }
      EveryoneGetsTheMerge(next, owners[1..], s, p);
    }
  }

  lemma {:induction false} MergeKeepsDisturbance(st: SharedStore, o: Option<string>, s: Tree, p: Option<string>)
    requires IsStore(st) && Has(st, o) && Has(st, p) && Dated(s, st.clock)
    ensures Disturbs(Erase(EntryAt(MergedAt(st, o, s), p)), Erase(s)) == Disturbs(Erase(EntryAt(st, p)), Erase(s))
  {
    EraseOfMerge(EntryAt(st, p), s, st.clock);
    DisturbanceIsStable(Erase(EntryAt(st, p)), Erase(s));
    LeakKeepsDisturbance(EntryAt(st, p), EntryAt(st, o), s, st.clock);
  }

  lemma {:induction false} EveryoneDisturbs(st: SharedStore, owners: seq<Option<string>>, s: Tree)
    requires IsStore(st) && Dated(s, st.clock) && forall o | o in owners :: Has(st, o)
    ensures MergedAtAll(st, owners, s).disturbed <==>
      st.disturbed || exists o :: o in owners && Disturbs(Erase(EntryAt(st, o)), Erase(s))
    decreases |owners|
  {
    if owners != [] {
      var next := MergedAt(st, owners[0], s);
      DatedLonger(s, st.clock, st.clock + 1);
      forall q | q in owners[1..] ensures Has(st, q) && Has(next, q) { assert q in owners; }
      EveryoneDisturbs(next, owners[1..], s);
      forall o | Has(st, o)
        ensures Disturbs(Erase(EntryAt(next, o)), Erase(s)) == Disturbs(Erase(EntryAt(st, o)), Erase(s))
      {
        MergeKeepsDisturbance(st, owners[0], s, o);
      }
      assert forall o :: o in owners <==> o == owners[0] || o in owners[1..];
    }
  }

  // The store of copies predicts what everyone reads after this change.
  ghost predicate Agrees(st: SharedStore, c: Change)
    requires IsStore(st) && IsLegal(c)
  {
    CopiesAreStore(st);
    && Copies(AfterInPlace(st, c)) == After(Copies(st), c)
    && AfterInPlace(st, c).disturbed == st.disturbed
  }

  lemma CopiesAreStore(st: SharedStore)
    requires IsStore(st)
    ensures WellFormed(Copies(st))
  {
    assert Has(st, None);
    forall k | k in st.accounts ensures Erase(st.accounts[k]).Node? {
      assert Has(st, Some(k)) && EntryAt(st, Some(k)) == st.accounts[k];
    }
  }

  lemma {:induction false} EveryonesCopiesAgree(st: SharedStore, c: Change)
    requires IsStore(st) && c.Update? && c.values.Node? && GoesToAll(c.target)
    ensures WellFormed(Copies(st)) && Copies(AfterInPlace(st, c)) == After(Copies(st), c)
  {
    CopiesAreStore(st);
    var (st', s) := Received(st, c.category, c.values);
    var end, c' := AfterInPlace(st, c), After(Copies(st), c);
    forall o | Has(end, o) ensures Erase(EntryAt(end, o)) ==
      if o.None? then c'.defaultPolicy else c'.accounts[o.value] {
      assert Has(st, o) && Has(st', o) && EntryAt(st', o) == EntryAt(st, o);
      EveryoneGetsTheMerge(st', Owners(st'), s, o);
      CopiesOfEntry(st, o);
    }
    SameCopies(end, c');
  }

  lemma {:induction false} UpdateOfAllAgreesIff(st: SharedStore, c: Change)
    requires IsStore(st) && c.Update? && c.values.Node? && GoesToAll(c.target) && !st.disturbed
    ensures Agrees(st, c) <==> IsHarmless(st, c)
  {
    EveryonesCopiesAgree(st, c);
    var (st', s) := Received(st, c.category, c.values);
    EveryoneDisturbs(st', Owners(st'), s);
    forall o | Has(st, o) ensures o in Owners(st') && EntryAt(st', o) == EntryAt(st, o) {}
    assert forall o | o in Owners(st') :: Has(st, o);
  }

  lemma {:induction false} OpeningAgrees(st: SharedStore, key: string, j: Json)
    requires IsStore(st) && j.Node?
    ensures Copies(WithEntry(st, key, j)) == Copies(st).(accounts := Copies(st).accounts[key := j])
    ensures WithEntry(st, key, j).disturbed == st.disturbed
  {
    var r := WithEntry(st, key, j);
    forall k | k in r.accounts && k != key ensures Copies(r).accounts[k] == Copies(st).accounts[k] {}
    assert Copies(r).accounts == Copies(st).accounts[key := j];
  }

  // One merge in place is one merge in the store of copies, exactly when it is private.
  lemma {:induction false} MergeAgreesIff(st: SharedStore, key: string, s: Tree, merged: Json)
    requires IsStore(st) && Has(st, Some(key)) && Dated(s, st.clock) && !st.disturbed
    requires merged == Merged(Erase(EntryAt(st, Some(key))), Erase(s))
    ensures var r := MergedAt(st, Some(key), s);
      Copies(r) == Copies(st).(accounts := Copies(st).accounts[key := merged]) && !r.disturbed <==>
      IsPrivate(st, Some(key), s)
  {
    if IsPrivate(st, Some(key), s) {
      PrivateMergeAgrees(st, key, s, merged);
    } else {
      var r := MergedAt(st, Some(key), s);
      OneMergeIsPrivateIff(st, Some(key), s);
      if Copies(r) == Copies(st).(accounts := Copies(st).accounts[key := merged]) {
        forall p | Has(st, p) && p != Some(key) ensures Erase(EntryAt(r, p)) == Erase(EntryAt(st, p)) {
          CopiesOfEntry(st, p);
          CopiesOfEntry(r, p);
        }
      }
    }
  }

  lemma {:induction false} PrivateMergeAgrees(st: SharedStore, key: string, s: Tree, merged: Json)
    requires IsStore(st) && Has(st, Some(key)) && Dated(s, st.clock)
    requires merged == Merged(Erase(EntryAt(st, Some(key))), Erase(s)) && IsPrivate(st, Some(key), s)
    ensures Copies(MergedAt(st, Some(key), s)) == Copies(st).(accounts := Copies(st).accounts[key := merged])
  {
    var r := MergedAt(st, Some(key), s);
    var c' := Copies(st).(accounts := Copies(st).accounts[key := merged]);
    OneMergeIsPrivateIff(st, Some(key), s);
    forall o | Has(r, o) ensures Erase(EntryAt(r, o)) == if o.None? then c'.defaultPolicy else c'.accounts[o.value] {
      CopiesOfEntry(st, o);
    }
    SameCopies(r, c');
  }

  // What the targeted update does in the store of copies, given the opened entry.
  lemma {:induction false} TargetIsReady(st: SharedStore, c: Change, key: string, ready: SharedStore)
    requires IsStore(st) && c.Update? && c.values.Node? && !GoesToAll(c.target)
    requires key == Resolve(st.aliases, c.target.value) && ready == Opened(st, key)
    ensures WellFormed(Copies(st)) && Has(ready, Some(key)) && ready.disturbed == st.disturbed
    ensures After(Copies(st), c) == Copies(ready).(accounts :=
      Copies(ready).accounts[key := Merged(Erase(EntryAt(ready, Some(key))), PayloadOf(c.category, c.values))])
  {
    CopiesAreStore(st);
    OpeningAgrees(st, key, Copy(Erase(st.defaultPolicy)));
    CopiesOfEntry(ready, Some(key));
    assert Copies(ready).accounts[key] == OpenedCopy(Copies(st), key);
    var merged := Merged(Copies(ready).accounts[key], PayloadOf(c.category, c.values));
    assert After(Copies(st), c) == Copies(st).(accounts := Copies(st).accounts[key := merged]);
    assert Copies(ready).accounts[key := merged] == Copies(st).accounts[key := merged];
  }

  lemma {:induction false} TargetedUpdateAgreesIff(st: SharedStore, c: Change)
    requires IsStore(st) && c.Update? && c.values.Node? && !GoesToAll(c.target) && !st.disturbed
    ensures Agrees(st, c) <==> IsHarmless(st, c)
  {
    var key := Resolve(st.aliases, c.target.value);
    var ready := Opened(st, key);
    TargetIsReady(st, c, key, ready);
    var (st', s) := Received(ready, c.category, c.values);
    assert Copies(st') == Copies(ready) && EntryAt(st', Some(key)) == EntryAt(ready, Some(key));
    MergeAgreesIff(st', key, s, Merged(Erase(EntryAt(st', Some(key))), Erase(s)));
  }

  lemma {:induction false} StepAgreesIff(st: SharedStore, c: Change)
    requires IsStore(st) && IsLegal(c) && !st.disturbed
    ensures Agrees(st, c) <==> IsHarmless(st, c)
  {
    CopiesAreStore(st);
    match c {
      case Update(target, _, values) =>
        if values.Node? && GoesToAll(target) {
          UpdateOfAllAgreesIff(st, c);
        } else if values.Node? {
          TargetedUpdateAgreesIff(st, c);
        }
      case Set(id, policy) =>
        if id != "" { OpeningAgrees(st, Resolve(st.aliases, id), Copy(policy)); }
      case Alias(_, _) =>
    }
  }

  // The copies predict every read, at every point of the history.
  ghost predicate CopiesPredict(st: SharedStore, changes: seq<Change>)
    requires IsStore(st) && forall c | c in changes :: IsLegal(c)
  {
    CopiesAreStore(st);
    changes != [] ==>
      && CopiesPredict(st, changes[..|changes| - 1])
      && Copies(RunInPlace(st, changes)) == Run(Copies(st), changes)
      && RunInPlace(st, changes).disturbed == st.disturbed
  }

  ghost predicate AllHarmless(st: SharedStore, changes: seq<Change>)
    requires IsStore(st) && forall c | c in changes :: IsLegal(c)
  {
    changes != [] ==>
      && AllHarmless(st, changes[..|changes| - 1])
      && IsHarmless(RunInPlace(st, changes[..|changes| - 1]), changes[|changes| - 1])
  }

  lemma {:induction false} LastPrediction(st: SharedStore, changes: seq<Change>)
    requires IsStore(st) && !st.disturbed && (forall c | c in changes :: IsLegal(c)) && CopiesPredict(st, changes)
    ensures WellFormed(Copies(st))
    ensures Copies(RunInPlace(st, changes)) == Run(Copies(st), changes) && !RunInPlace(st, changes).disturbed
  {
    CopiesAreStore(st);
  }

  // Over any history the policies behave as separate copies exactly as long as
  // every update is harmless.
  lemma {:induction false} CopiesPredictIff(st: SharedStore, changes: seq<Change>)
    requires IsStore(st) && !st.disturbed && forall c | c in changes :: IsLegal(c)
    ensures CopiesPredict(st, changes) <==> AllHarmless(st, changes)
    decreases |changes|
  {
    if changes != [] {
      var earlier, last := changes[..|changes| - 1], changes[|changes| - 1];
      CopiesPredictIff(st, earlier);
      if CopiesPredict(st, earlier) {
        LastPrediction(st, earlier);
        StepAgreesIff(RunInPlace(st, earlier), last);
      }
    }
  }

  // An update of one account leaves the default and all other entries reading
  // as before, and does nothing beyond own fields, exactly when it is harmless.
  lemma {:induction false} TargetedUpdateIsIsolatedIff(st: SharedStore, c: Change)
    requires IsStore(st) && IsLegal(c) && !st.disturbed
    requires c.Update? && c.values.Node? && !GoesToAll(c.target)
    ensures var own := Some(Resolve(st.aliases, c.target.value));
      var after := AfterInPlace(st, c);
      && Has(after, own)
      && ((forall p | Has(st, p) && p != own :: Has(after, p) && Erase(EntryAt(after, p)) == Erase(EntryAt(st, p)))
          && !after.disturbed
          <==> IsHarmless(st, c))
  {
    var key := Resolve(st.aliases, c.target.value);
    TargetIsReady(st, c, key, Opened(st, key));
    var (st', s) := Received(Opened(st, key), c.category, c.values);
    OneMergeIsPrivateIff(st', Some(key), s);
    forall p | Has(st', p) && p != Some(key) ensures Has(st, p) && EntryAt(st', p) == EntryAt(st, p) {}
    forall p | Has(st, p) ensures Has(st', p) {}
  }

  // At every point of the history the account shows what a policy of its own,
  // had from the start, would have come to.
  ghost predicate ShowsReplay(st: SharedStore, changes: seq<Change>, key: string)
    requires IsStore(st) && forall c | c in changes :: IsLegal(c)
  {
    CopiesAreStore(st);
    changes != [] ==>
      && ShowsReplay(st, changes[..|changes| - 1], key)
      && var after := RunInPlace(st, changes);
         Erase(EntryAt(after, if key in after.accounts then Some(key) else None)) == Replay(Copies(st), changes, key)
  }

  // Under harmless histories that is so exactly when the account's first copy
  // of the default loses nothing.
  lemma {:induction false} InPlaceReadsReplayIff(st: SharedStore, changes: seq<Change>, key: string)
    requires IsStore(st) && !st.disturbed && (forall c | c in changes :: IsLegal(c)) && AllHarmless(st, changes)
    ensures WellFormed(Copies(st))
    ensures ShowsReplay(st, changes, key) <==> NothingIsLost(Copies(st), changes, key)
  {
    CopiesPredictIff(st, changes);
    CopiesAreStore(st);
    PredictedReplay(st, changes, key);
    LazyCopyEqualsReplayIff(Copies(st), changes, key);
  }

  lemma {:induction false} PredictedReplay(st: SharedStore, changes: seq<Change>, key: string)
    requires IsStore(st) && !st.disturbed && (forall c | c in changes :: IsLegal(c)) && CopiesPredict(st, changes)
    ensures WellFormed(Copies(st)) && ShowsReplay(st, changes, key) == ReadsReplay(Copies(st), changes, key)
    decreases |changes|
  {
    CopiesAreStore(st);
    if changes != [] {
      PredictedReplay(st, changes[..|changes| - 1], key);
      LastPrediction(st, changes);
      var after := RunInPlace(st, changes);
      CopiesOfEntry(after, if key in after.accounts then Some(key) else None);
    }
  }

  // ---------- What can be shared ----------

  // Two policies hold nothing in common but arrays, and those alike; if
  // `strict`, they hold nothing in common.
  predicate Apart(r: Tree, t: Tree, strict: bool)
    decreases r
  {
    r.Cell? && t.Cell? ==>
      if r.addr == t.addr then !strict && r == t && r.isArray
      else forall k | k in r.fields && k in t.fields :: Apart(r.fields[k], t.fields[k], strict)
  }

  // The same for the values a source would assign.
  predicate SourceApart(s: Tree, r: Tree, strict: bool)
    decreases s
  {
    s.Cell? && r.Cell? ==> forall k | k in s.fields && k in r.fields ::
      if IsObj(s.fields[k]) then SourceApart(s.fields[k], r.fields[k], strict)
        else Apart(s.fields[k], r.fields[k], strict)
  }

  // All of it was made at this time or later.
  predicate Recent(t: Tree, time: nat) {
    t.Cell? ==> t.addr.time >= time && forall k | k in t.fields :: Recent(t.fields[k], time)
  }

  predicate NoArrays(j: Json) { j.Node? ==> !j.isArray && forall k | k in j.fields :: NoArrays(j.fields[k]) }

  lemma {:induction false} ApartIsSymmetric(r: Tree, t: Tree, strict: bool)
    requires Apart(r, t, strict)
    ensures Apart(t, r, strict)
    decreases r
  {
    if r.Cell? && t.Cell? && r.addr != t.addr {
      forall k | k in r.fields && k in t.fields ensures Apart(t.fields[k], r.fields[k], strict) {
        ApartIsSymmetric(r.fields[k], t.fields[k], strict);
      }
    }
  }

  lemma {:induction false} NewIsApart(t: Tree, r: Tree, time: nat, strict: bool)
    requires Recent(t, time) && Dated(r, time)
    ensures Apart(t, r, strict)
    decreases t
  {
    if r.Cell? && t.Cell? {
      forall k | k in r.fields && k in t.fields ensures Apart(t.fields[k], r.fields[k], strict) {
        NewIsApart(t.fields[k], r.fields[k], time, strict);
      }
    }
  }

  lemma {:induction false} NewSourceIsApart(s: Tree, r: Tree, time: nat, strict: bool)
    requires Recent(s, time) && Dated(r, time)
    ensures SourceApart(s, r, strict)
    decreases s
  {
    if r.Cell? && s.Cell? {
      forall k | k in s.fields && k in r.fields
        ensures SourceApart(s.fields[k], r.fields[k], strict) && Apart(s.fields[k], r.fields[k], strict)
      {
        NewSourceIsApart(s.fields[k], r.fields[k], time, strict);
        NewIsApart(s.fields[k], r.fields[k], time, strict);
      }
    }
  }

  lemma {:induction false} BuiltIsRecent(j: Json, home: seq<string>, maker: Maker, time: nat)
    ensures Recent(Built(j, home, maker, time), time)
    decreases j
  {
    if j.Node? {
      forall k | k in j.fields ensures Recent(Built(j.fields[k], home + [k], maker, time), time) {
        BuiltIsRecent(j.fields[k], home + [k], maker, time);
      }
    }
  }

  // Nothing leaks out of an object made just now.
  lemma {:induction false} NewLeaksNothing(r: Tree, t: Tree, s: Tree, time: nat)
    requires Dated(r, time) && Recent(t, time) && (t.Cell? ==> t.fields == map[])
    ensures Leaked(r, t, s, time) == r
  {
    if r.Cell? && t.Cell? && s.Cell? {
      assert Leaked(r, t, s, time).fields == r.fields;
    }
  }

  lemma {:induction false} MergeStaysApart(t: Tree, r: Tree, s: Tree, time: nat, strict: bool)
    requires t.Cell? && Apart(t, r, strict) && SourceApart(s, r, strict) && Dated(r, time)
    ensures Apart(MergedInto(t, s, time), Leaked(r, t, s, time), strict)
    decreases s
  {
    if r.Text? || s.Text? || r.addr == t.addr {
    } else {
      var t', r' := MergedInto(t, s, time), Leaked(r, t, s, time);
      forall k | k in t'.fields && k in r'.fields ensures Apart(t'.fields[k], r'.fields[k], strict) {
        assert k in s.fields ==> t'.fields[k] == FieldAfter(t, s, k, time);
        if k in s.fields && IsObj(s.fields[k]) {
          var into := Entered(t, k, time);
          if k in t.fields && t.fields[k].Cell? {
            assert r'.fields[k] == Leaked(r.fields[k], into, s.fields[k], time);
          } else {
            assert k in t.fields ==> Leaked(r.fields[k], t.fields[k], s.fields[k], time) == r.fields[k];
            NewLeaksNothing(r.fields[k], into, s.fields[k], time);
          }
          MergeStaysApart(into, r.fields[k], s.fields[k], time, strict);
        }
      }
    }
  }

  lemma {:induction false} LeaksStayApart(r: Tree, q: Tree, t: Tree, s: Tree, time: nat, strict: bool)
    requires Apart(r, q, strict) && Apart(t, r, strict) && Apart(t, q, strict)
    requires SourceApart(s, r, strict) && SourceApart(s, q, strict) && Dated(r, time) && Dated(q, time)
    ensures Apart(Leaked(r, t, s, time), Leaked(q, t, s, time), strict)
    decreases s
  {
    if r.Text? || q.Text? || t.Text? || s.Text? || r.addr == q.addr {
    } else if r.addr == t.addr {
      MergeStaysApart(r, q, s, time, strict);
    } else if q.addr == t.addr {
      ApartIsSymmetric(r, q, strict);
      MergeStaysApart(q, r, s, time, strict);
      ApartIsSymmetric(MergedInto(q, s, time), Leaked(r, t, s, time), strict);
    } else {
      forall k | k in r.fields && k in q.fields
        ensures Apart(Leaked(r, t, s, time).fields[k], Leaked(q, t, s, time).fields[k], strict)
      {
        if k in s.fields && k in t.fields && IsObj(s.fields[k]) {
          LeaksStayApart(r.fields[k], q.fields[k], t.fields[k], s.fields[k], time, strict);
        }
      }
    }
  }

  lemma {:induction false} MergeTakesSource(t: Tree, s: Tree, time: nat, strict: bool)
    requires t.Cell? && SourceApart(s, t, strict) && (strict ==> NoArrays(Erase(s)))
    ensures SourceApart(s, MergedInto(t, s, time), strict)
    decreases s
  {
    if s.Cell? {
      var t' := MergedInto(t, s, time);
      forall k | k in s.fields && k in t'.fields ensures
        if IsObj(s.fields[k]) then SourceApart(s.fields[k], t'.fields[k], strict)
          else Apart(s.fields[k], t'.fields[k], strict)
      {
        EraseOfField(s, k);
        assert t'.fields[k] == FieldAfter(t, s, k, time);
        if IsObj(s.fields[k]) {
          MergeTakesSource(Entered(t, k, time), s.fields[k], time, strict);
        }
      }
    }
  }

  lemma {:induction false} LeakTakesSource(r: Tree, t: Tree, s: Tree, time: nat, strict: bool)
    requires SourceApart(s, r, strict) && (strict ==> NoArrays(Erase(s)))
    ensures SourceApart(s, Leaked(r, t, s, time), strict)
    decreases s
  {
    if r.Text? || t.Text? || s.Text? {
    } else if r.addr == t.addr {
      MergeTakesSource(r, s, time, strict);
    } else {
      var r' := Leaked(r, t, s, time);
      forall k | k in s.fields && k in r'.fields ensures
        if IsObj(s.fields[k]) then SourceApart(s.fields[k], r'.fields[k], strict)
          else Apart(s.fields[k], r'.fields[k], strict)
      {
        EraseOfField(s, k);
        if IsObj(s.fields[k]) && k in t.fields {
          LeakTakesSource(r.fields[k], t.fields[k], s.fields[k], time, strict);
        }
      }
    }
  }

  ghost predicate AllApart(st: SharedStore, strict: bool) {
    forall p, q | Has(st, p) && Has(st, q) && p != q :: Apart(EntryAt(st, p), EntryAt(st, q), strict)
  }

  ghost predicate AllSourceApart(st: SharedStore, s: Tree, strict: bool) {
    forall p | Has(st, p) :: SourceApart(s, EntryAt(st, p), strict)
  }

  lemma {:induction false} MergedAtStaysApart(st: SharedStore, o: Option<string>, s: Tree, strict: bool)
    requires IsStore(st) && Has(st, o) && Dated(s, st.clock)
    requires AllApart(st, strict) && AllSourceApart(st, s, strict)
    ensures AllApart(MergedAt(st, o, s), strict)
    ensures (strict ==> NoArrays(Erase(s))) ==> AllSourceApart(MergedAt(st, o, s), s, strict)
  {
    var r, n := MergedAt(st, o, s), st.clock;
    var t := EntryAt(st, o);
    forall p | Has(r, p) ensures Has(st, p) && EntryAt(r, p) == After1(st, o, s, EntryAt(st, p), p == o) {}
    forall p, q | Has(r, p) && Has(r, q) && p != q ensures Apart(EntryAt(r, p), EntryAt(r, q), strict) {
      var P, Q := EntryAt(st, p), EntryAt(st, q);
      if p == o {
        MergeStaysApart(P, Q, s, n, strict);
      } else if q == o {
        MergeStaysApart(Q, P, s, n, strict);
        ApartIsSymmetric(EntryAt(r, q), EntryAt(r, p), strict);
      } else {
        LeaksStayApart(P, Q, t, s, n, strict);
      }
    }
    if strict ==> NoArrays(Erase(s)) {
      forall p | Has(r, p) ensures SourceApart(s, EntryAt(r, p), strict) {
        MergeTakesSource(EntryAt(st, p), s, n, strict);
        LeakTakesSource(EntryAt(st, p), t, s, n, strict);
      }
    }
  }

  lemma {:induction false} MergedAtAllStaysApart(st: SharedStore, owners: seq<Option<string>>, s: Tree, strict: bool)
    requires IsStore(st) && Dated(s, st.clock) && (forall o | o in owners :: Has(st, o))
    requires AllApart(st, strict) && AllSourceApart(st, s, strict) && (strict ==> NoArrays(Erase(s)))
    ensures AllApart(MergedAtAll(st, owners, s), strict)
    decreases |owners|
  {
    if owners != [] {
      var next := MergedAt(st, owners[0], s);
      DatedLonger(s, st.clock, st.clock + 1);
      forall q | q in owners[1..] ensures Has(st, q) && Has(next, q) { assert q in owners; }
      MergedAtStaysApart(st, owners[0], s, strict);
      MergedAtAllStaysApart(next, owners[1..], s, strict);
    }
  }

  lemma {:induction false} WithEntryStaysApart(st: SharedStore, key: string, j: Json, strict: bool)
    requires IsStore(st) && j.Node? && AllApart(st, strict)
    ensures AllApart(WithEntry(st, key, j), strict)
  {
    var r := WithEntry(st, key, j);
    forall p | Has(r, p) && p != Some(key) ensures Has(st, p) && EntryAt(r, p) == EntryAt(st, p) {}
    BuiltIsRecent(j, [], Copied(Some(key)), st.clock);
    forall p, q | Has(r, p) && Has(r, q) && p != q ensures Apart(EntryAt(r, p), EntryAt(r, q), strict) {
      if p == Some(key) {
        NewIsApart(EntryAt(r, p), EntryAt(r, q), st.clock, strict);
      } else if q == Some(key) {
        NewIsApart(EntryAt(r, q), EntryAt(r, p), st.clock, strict);
        ApartIsSymmetric(EntryAt(r, q), EntryAt(r, p), strict);
      }
    }
  }

  lemma {:induction false} ReceivedIsApart(st: SharedStore, category: Option<string>, values: Json, strict: bool)
    requires IsStore(st) && AllApart(st, strict)
    ensures var (st', s) := Received(st, category, values);
      AllApart(st', strict) && AllSourceApart(st', s, strict)
  {
    var (st', s) := Received(st, category, values);
    BuiltIsRecent(PayloadOf(category, values), [], Payload, st.clock);
    forall p | Has(st', p) ensures Has(st, p) && EntryAt(st', p) == EntryAt(st, p) {}
    forall p | Has(st', p) ensures SourceApart(s, EntryAt(st', p), strict) {
      NewSourceIsApart(s, EntryAt(st, p), st.clock, strict);
    }
  }

  // An update of everyone assigns no array.
  predicate SharesNoArray(c: Change) { c.Update? && GoesToAll(c.target) ==> NoArrays(PayloadOf(c.category, c.values)) }

  lemma {:induction false} StepStaysApart(st: SharedStore, c: Change, strict: bool)
    requires IsStore(st) && IsLegal(c) && AllApart(st, strict) && (strict ==> SharesNoArray(c))
    ensures AllApart(AfterInPlace(st, c), strict)
  {
    match c {
      case Update(target, category, values) =>
        if values.Node? && GoesToAll(target) {
          var (st', s) := Received(st, category, values);
          ReceivedIsApart(st, category, values, strict);
          MergedAtAllStaysApart(st', Owners(st'), s, strict);
        } else if values.Node? {
          var key := Resolve(st.aliases, target.value);
          if key !in st.accounts {
            assert Has(st, None) && EntryAt(st, None) == st.defaultPolicy;
            WithEntryStaysApart(st, key, Copy(Erase(st.defaultPolicy)), strict);
          }
          var (st', s) := Received(Opened(st, key), category, values);
          ReceivedIsApart(Opened(st, key), category, values, strict);
          MergedAtStaysApart(st', Some(key), s, strict);
        }
      case Set(id, policy) =>
        if id != "" { WithEntryStaysApart(st, Resolve(st.aliases, id), Copy(policy), strict); }
      case Alias(a, b) =>
        if a != "" && b != "" {
          var r := WithAlias(st, a, b);
          forall p | Has(r, p) ensures Has(st, p) && EntryAt(r, p) == EntryAt(st, p) {}
        }
    }
  }

  // Over every history, the only things two policies can hold in common are
  // arrays; and nothing at all if no update of everyone assigns an array.
  lemma {:induction false} OnlyArraysAreShared(st: SharedStore, changes: seq<Change>, strict: bool)
    requires IsStore(st) && (forall c | c in changes :: IsLegal(c)) && AllApart(st, strict)
    requires strict ==> forall c | c in changes :: SharesNoArray(c)
    ensures AllApart(RunInPlace(st, changes), strict)
    decreases |changes|
  {
    if changes != [] {
      var earlier := changes[..|changes| - 1];
      OnlyArraysAreShared(st, earlier, strict);
      StepStaysApart(RunInPlace(st, earlier), changes[|changes| - 1], strict);
    }
  }

  lemma {:induction false} ApartIsSpared(r: Tree, t: Tree, s: Tree)
    requires Apart(r, t, true)
    ensures Spared(r, t, s)
    decreases s
  {
    if r.Cell? && t.Cell? && s.Cell? {
      forall k | k in r.fields && k in t.fields && k in s.fields && IsObj(s.fields[k])
        ensures Spared(r.fields[k], t.fields[k], s.fields[k])
      {
        ApartIsSpared(r.fields[k], t.fields[k], s.fields[k]);
      }
    }
  }

  // No object of the value carries one of the two special names.
  predicate IsUnreserved(j: Json) {
    j.Node? ==>
      && PROTO !in j.fields && LENGTH !in j.fields
      && forall k | k in j.fields && IsObject(j.fields[k]) :: IsUnreserved(j.fields[k])
  }

  lemma {:induction false} UnreservedDisturbsNothing(target: Json, source: Json)
    requires target.Node? && IsUnreserved(source)
    ensures !Disturbs(target, source)
    decreases source
  {
    if Disturbs(target, source) {
      var key :| key in source.fields && DisturbsAt(target, source, key);
      UnreservedDisturbsNothing(Container(target.fields, key), source.fields[key]);
    }
  }

  predicate IsPlainUpdate(c: Change) {
    SharesNoArray(c) && (c.Update? ==> IsUnreserved(PayloadOf(c.category, c.values)))
  }

  lemma {:induction false} PlainUpdateIsHarmless(st: SharedStore, c: Change)
    requires IsStore(st) && IsLegal(c) && AllApart(st, true) && IsPlainUpdate(c)
    ensures IsHarmless(st, c)
  {
    if c.Update? && c.values.Node? {
      var S := PayloadOf(c.category, c.values);
      if GoesToAll(c.target) {
        forall o | Has(st, o) ensures !Disturbs(Erase(EntryAt(st, o)), S) {
          UnreservedDisturbsNothing(Erase(EntryAt(st, o)), S);
        }
      } else {
        var key := Resolve(st.aliases, c.target.value);
        if key !in st.accounts {
          assert Has(st, None) && EntryAt(st, None) == st.defaultPolicy;
          WithEntryStaysApart(st, key, Copy(Erase(st.defaultPolicy)), true);
        }
        var (st', s) := Received(Opened(st, key), c.category, c.values);
        ReceivedIsApart(Opened(st, key), c.category, c.values, true);
        UnreservedDisturbsNothing(Erase(EntryAt(st', Some(key))), S);
        forall p | Has(st', p) && p != Some(key) ensures Spared(EntryAt(st', p), EntryAt(st', Some(key)), s) {
          ApartIsSpared(EntryAt(st', p), EntryAt(st', Some(key)), s);
        }
      }
    }
  }

  // A history whose updates of everyone assign no arrays, and whose updates
  // avoid the special names, is one of separate copies throughout; and an account
  // reads like a policy of its own exactly when its first copy loses nothing.
  lemma {:induction false} PlainHistoriesAreCopies(st: SharedStore, changes: seq<Change>)
    requires IsStore(st) && !st.disturbed && AllApart(st, true)
    requires forall c | c in changes :: IsLegal(c) && IsPlainUpdate(c)
    ensures CopiesPredict(st, changes) && WellFormed(Copies(st))
    ensures forall key :: ShowsReplay(st, changes, key) <==> NothingIsLost(Copies(st), changes, key)
  {
    PlainIsHarmlessThroughout(st, changes);
    CopiesPredictIff(st, changes);
    CopiesAreStore(st);
    forall key ensures ShowsReplay(st, changes, key) <==> NothingIsLost(Copies(st), changes, key) {
      InPlaceReadsReplayIff(st, changes, key);
    }
  }

  lemma {:induction false} PlainIsHarmlessThroughout(st: SharedStore, changes: seq<Change>)
    requires IsStore(st) && AllApart(st, true)
    requires forall c | c in changes :: IsLegal(c) && IsPlainUpdate(c)
    ensures AllHarmless(st, changes)
    decreases |changes|
  {
    if changes != [] {
      var earlier := changes[..|changes| - 1];
      PlainIsHarmlessThroughout(st, earlier);
      OnlyArraysAreShared(st, earlier, true);
      PlainUpdateIsHarmless(RunInPlace(st, earlier), changes[|changes| - 1]);
    }
  }

  // The first update of an account goes into a fresh copy: it never leaks.
  lemma {:induction false} FirstUpdateNeverLeaks(st: SharedStore, key: string, p: Option<string>, s: Tree)
    requires IsStore(st) && key !in st.accounts && Has(st, p)
    ensures var ready := Opened(st, key);
      Spared(EntryAt(ready, p), EntryAt(ready, Some(key)), s)
  {
    assert Has(st, None) && EntryAt(st, None) == st.defaultPolicy;
    BuiltIsRecent(Copy(Erase(st.defaultPolicy)), [], Copied(Some(key)), st.clock);
    var ready := Opened(st, key);
    NewIsApart(EntryAt(ready, Some(key)), EntryAt(ready, p), st.clock, true);
    ApartIsSymmetric(EntryAt(ready, Some(key)), EntryAt(ready, p), true);
    ApartIsSpared(EntryAt(ready, p), EntryAt(ready, Some(key)), s);
  }

  // After an update of everyone, the default and every entry own all it says,
  // exactly where nothing of it escapes them; and if nothing was disturbed,
  // property access shows all it says, exactly where no primitive was swallowed.
  lemma ClusterUpdateReachesEveryone(st: SharedStore, c: Change, o: Option<string>)
    requires IsStore(st) && c.Update? && c.values.Node? && GoesToAll(c.target) && Has(st, o)
    ensures var S, before, after := PayloadOf(c.category, c.values), Erase(EntryAt(st, o)), AfterInPlace(st, c);
      && Has(after, o)
      && Erase(EntryAt(after, o)) == Merged(before, S)
      && ((forall path | Speaks(S, path) :: Lands(before, S, path)) <==> !Escapes(before, S))
      && (!after.disturbed ==>
            ((forall path | Speaks(S, path) :: Heard(before, S, path)) <==> !Swallows(before, S)))
  {
    var (st', s) := Received(st, c.category, c.values);
    assert Has(st', o) && EntryAt(st', o) == EntryAt(st, o);
    EveryoneGetsTheMerge(st', Owners(st'), s, o);
    EverythingLandsIff(Erase(EntryAt(st, o)), PayloadOf(c.category, c.values));
    EveryoneDisturbs(st', Owners(st'), s);
    if !AfterInPlace(st, c).disturbed {
      EverythingIsHeardIff(Erase(EntryAt(st, o)), PayloadOf(c.category, c.values));
    }
  }

  // ---------- An update that leaks ----------

  const LIST_OF_ONE := Node(false, map["L" := Node(true, map["0" := Leaf("1")])])
  const FIRST_IS_TWO := Node(false, map["L" := Node(false, map["0" := Leaf("2")])])

  lemma TakingAList(t: Tree, s: Tree, list: Tree, time: nat)
    requires t.Cell? && !t.isArray && t.fields == map[]
    requires IsObj(s) && s.fields == map["L" := list] && list.Cell? && list.isArray
    ensures MergedInto(t, s, time) == Cell(t.addr, false, map["L" := list])
  {
    assert "L"[0] != PROTO[0];
    assert MergedInto(t, s, time).fields["L"] == list;
  }

  lemma AListLeaksNothing(r: Tree, t: Tree, s: Tree, list: Tree, time: nat)
    requires r.Cell? && t.Cell? && r.addr != t.addr
    requires IsObj(s) && s.fields == map["L" := list] && list.Cell? && list.isArray
    ensures Leaked(r, t, s, time) == r
  {
    assert Leaked(r, t, s, time).fields == r.fields;
  }

  lemma ListIntoOne(st: SharedStore, o: Option<string>, s: Tree, list: Tree)
    requires IsStore(st) && Has(st, o) && Dated(s, st.clock)
    requires IsObj(EntryAt(st, o)) && EntryAt(st, o).fields == map[]
    requires forall p | Has(st, p) && p != o :: EntryAt(st, p).addr != EntryAt(st, o).addr
    requires IsObj(s) && s.fields == map["L" := list] && list.Cell? && list.isArray
    ensures var r := MergedAt(st, o, s);
      && EntryAt(r, o) == Cell(EntryAt(st, o).addr, false, map["L" := list])
      && forall p | Has(st, p) && p != o :: EntryAt(r, p) == EntryAt(st, p)
  {
    TakingAList(EntryAt(st, o), s, list, st.clock);
    forall p | Has(st, p) && p != o ensures EntryAt(MergedAt(st, o, s), p) == EntryAt(st, p) {
      AListLeaksNothing(EntryAt(st, p), EntryAt(st, o), s, list, st.clock);
    }
  }

  lemma ListForEveryone(st: SharedStore, s: Tree, list: Tree)
    requires IsStore(st) && Dated(s, st.clock) && st.accounts.Keys == {"a"} && st.order == ["a"]
    requires IsObj(st.defaultPolicy) && st.defaultPolicy.fields == map[]
    requires IsObj(st.accounts["a"]) && st.accounts["a"].fields == map[]
    requires st.defaultPolicy.addr != st.accounts["a"].addr
    requires IsObj(s) && s.fields == map["L" := list] && list.Cell? && list.isArray
    ensures var end := MergedAtAll(st, Owners(st), s);
      && "a" in end.accounts
      && end.defaultPolicy == Cell(st.defaultPolicy.addr, false, map["L" := list])
      && end.accounts["a"] == Cell(st.accounts["a"].addr, false, map["L" := list])
  {
    assert ["a"][1..] == [] && AccountOwners(["a"]) == [Some("a")];
    assert Owners(st) == [None, Some("a")];
    assert [None, Some("a")][1..] == [Some("a")] && [Some("a")][1..] == [];
    ListIntoOne(st, None, s, list);
    ListIntoTheLast(st, MergedAt(st, None, s), s, list);
  }

  lemma ListIntoTheLast(st: SharedStore, next: SharedStore, s: Tree, list: Tree)
    requires IsStore(st) && IsStore(next) && Dated(s, st.clock) && next.clock == st.clock + 1
    requires Has(next, Some("a")) && Has(st, Some("a")) && next.accounts.Keys == {"a"}
    requires IsObj(EntryAt(st, Some("a"))) && EntryAt(st, Some("a")).fields == map[]
    requires EntryAt(next, Some("a")) == EntryAt(st, Some("a"))
    requires EntryAt(next, None).Cell? && EntryAt(next, None).addr != EntryAt(st, Some("a")).addr
    requires IsObj(s) && s.fields == map["L" := list] && list.Cell? && list.isArray
    ensures Dated(s, next.clock)
    ensures var end := MergedAtAll(next, [Some("a")], s);
      && "a" in end.accounts && end.defaultPolicy == EntryAt(next, None)
      && end.accounts["a"] == Cell(EntryAt(st, Some("a")).addr, false, map["L" := list])
  {
    DatedLonger(s, st.clock, next.clock);
    ListIntoOne(next, Some("a"), s, list);
    var end := MergedAt(next, Some("a"), s);
    assert [Some("a")][1..] == [];
    DatedLonger(s, next.clock, end.clock);
    assert MergedAtAll(next, [Some("a")], s) == MergedAtAll(end, [], s) == end;
    assert Has(next, None);
    assert EntryAt(end, None) == end.defaultPolicy && EntryAt(end, Some("a")) == end.accounts["a"];
  }

  // Telling one holder of the list what its first element is tells the other.
  lemma TellingOneTellsTheOther(r: Tree, t: Tree, s: Tree, list: Tree, time: nat)
    requires IsObj(r) && IsObj(t) && r.addr != t.addr && r.fields == t.fields == map["L" := list]
    requires list.Cell? && list.isArray && list.fields == map["0" := Text("1")]
    requires Erase(s) == FIRST_IS_TWO
    ensures Own(Erase(r), ["L", "0"]) == Some(Leaf("1"))
    ensures Own(Erase(Leaked(r, t, s, time)), ["L", "0"]) == Some(Leaf("2"))
    ensures !Spared(r, t, s)
  {
    var y := s.fields["L"];
    assert IsObj(s) && Erase(y) == Erase(s).fields["L"];
    assert IsObj(y) && Erase(y).fields["0"] == Erase(y.fields["0"]);
    assert y.fields["0"] == Text("2");
    var r' := Leaked(r, t, s, time);
    assert r.fields["L"] == t.fields["L"] == list;
    assert Leaked(list, list, y, time) == MergedInto(list, y, time);
    assert r'.fields["L"] == MergedInto(list, y, time);
    assert "0"[0] != PROTO[0];
    assert MergedInto(list, y, time).fields["0"] == Text("2");
    assert ["L", "0"][1..] == ["0"] && ["0"][1..] == [];
    EraseOfField(r', "L");
    EraseOfField(r, "L");
    EraseOfField(list, "0");
    EraseOfField(r'.fields["L"], "0");
    assert Own(Erase(r), ["L", "0"]) == Own(Erase(list), ["0"]);
    assert Own(Erase(r'), ["L", "0"]) == Own(Erase(r'.fields["L"]), ["0"]);
    LeakIsInvisibleIff(r, t, s, time);
  }

  const TWO_EMPTY := SharedStore(
    Built(EMPTY_OBJECT, [], Copied(None), 0),
    map["a" := Built(EMPTY_OBJECT, [], Copied(Some("a")), 0)], ["a"], map[], false, 1)

  lemma TwoEmptyIsStore()
    ensures IsStore(TWO_EMPTY)
    ensures IsObj(TWO_EMPTY.defaultPolicy) && TWO_EMPTY.defaultPolicy.fields == map[]
    ensures IsObj(TWO_EMPTY.accounts["a"]) && TWO_EMPTY.accounts["a"].fields == map[]
    ensures TWO_EMPTY.defaultPolicy.addr != TWO_EMPTY.accounts["a"].addr
  {
    assert Copied(None) != Copied(Some("a"));
  }

  // The store once both hold the list.
  ghost predicate BothHold(st: SharedStore, list: Tree) {
    && IsStore(st) && "a" in st.accounts && st.aliases == map[]
    && IsObj(st.defaultPolicy) && IsObj(st.accounts["a"]) && st.defaultPolicy.addr != st.accounts["a"].addr
    && st.defaultPolicy.fields == st.accounts["a"].fields == map["L" := list]
    && list.Cell? && list.isArray && list.fields == map["0" := Text("1")]
  }

  lemma ListIsReceived(st: SharedStore) returns (list: Tree)
    requires st == TWO_EMPTY && IsStore(st)
    ensures BothHold(AfterInPlace(st, Update(Some("ALL"), None, LIST_OF_ONE)), list)
  {
    TwoEmptyIsStore();
    var (st', s) := Received(st, None, LIST_OF_ONE);
    list := s.fields["L"];
    assert list.Cell? && list.isArray;
    assert list.fields == map["0" := Text("1")];
    assert s.fields == map["L" := list];
    ListForEveryone(st', s, list);
  }

  lemma ListLeaks(st: SharedStore, list: Tree, told: Change)
    requires BothHold(st, list) && told == Update(Some("a"), None, FIRST_IS_TWO)
    ensures Own(Erase(st.defaultPolicy), ["L", "0"]) == Some(Leaf("1"))
    ensures Own(Erase(AfterInPlace(st, told).defaultPolicy), ["L", "0"]) == Some(Leaf("2"))
    ensures !IsHarmless(st, told)
  {
    assert Resolve(st.aliases, "a") == "a" && !GoesToAll(Some("a"));
    assert Opened(st, "a") == st;
    var (st', s) := Received(st, None, FIRST_IS_TWO);
    assert Has(st', None) && Has(st', Some("a"));
    TellingOneTellsTheOther(EntryAt(st', None), EntryAt(st', Some("a")), s, list, st'.clock);
    assert EntryAt(MergedAt(st', Some("a"), s), None) ==
      Leaked(EntryAt(st', None), EntryAt(st', Some("a")), s, st'.clock);
  }

  // Everyone is given the list [1]; then one account alone is told that its
  // first element is 2. The default reads 2 as well.
  lemma SharedArrayLeaks()
    ensures IsStore(TWO_EMPTY)
    ensures var listed := AfterInPlace(TWO_EMPTY, Update(Some("ALL"), None, LIST_OF_ONE));
      var told := Update(Some("a"), None, FIRST_IS_TWO);
      && Own(Erase(listed.defaultPolicy), ["L", "0"]) == Some(Leaf("1"))
      && Own(Erase(AfterInPlace(listed, told).defaultPolicy), ["L", "0"]) == Some(Leaf("2"))
      && !IsHarmless(listed, told)
  {
    TwoEmptyIsStore();
    var list := ListIsReceived(TWO_EMPTY);
    var listed := AfterInPlace(TWO_EMPTY, Update(Some("ALL"), None, LIST_OF_ONE));
    ListLeaks(listed, list, Update(Some("a"), None, FIRST_IS_TWO));
  }
}
