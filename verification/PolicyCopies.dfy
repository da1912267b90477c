// The reference policy store: one default policy, per-account policies copied
// from it through JSON text on their first own update, and aliases between names. Every policy
// here is a value of its own; what the code shares in place is the subject of
// PolicySharing.

module PolicyCopies {
  import opened Common
  import opened JsonValues
  import opened PolicyMerge

  datatype Store = Store(defaultPolicy: Json, accounts: map<string, Json>, aliases: map<string, string>)

  // A change of the store. An update without target, with an empty one, or
  // with "ALL" or "*", goes to everyone.
  datatype Change =
    | Update(target: Option<string>, category: Option<string>, values: Json)
    | Set(id: string, policy: Json)
    | Alias(aliasId: string, canonicalId: string)

  predicate WellFormed(st: Store) {
    st.defaultPolicy.Node? && forall k | k in st.accounts :: st.accounts[k].Node?
  }

  predicate IsLegal(c: Change) { c.Set? ==> c.policy.Node? }

  predicate GoesToAll(target: Option<string>) {
    target.None? || target.value == "" || target.value == "ALL" || target.value == "*"
  }

  function Resolve(aliases: map<string, string>, id: string): string {
    if id in aliases && aliases[id] != "" then aliases[id] else id
  }

  // What an update merges into a policy: the values, or a section holding them.
  function PayloadOf(category: Option<string>, values: Json): (s: Json)
    ensures IsObject(s)
  {
    var section := Node(false, if values.Node? then values.fields else map[]);
    if category.Some? && category.value != "" then Node(false, map[category.value := section]) else section
  }

  // An update with a category reaches that section and no other.
  lemma SectionsAreSeparate(p: Json, category: string, values: Json, path: seq<string>)
    requires p.Node? && values.Node? && category != "" && category != PROTO && category != LENGTH && path != []
    ensures var r := Merged(p, PayloadOf(Some(category), values));
      && (path[0] != category ==> Own(r, path) == Own(p, path))
      && (category in r.fields && r.fields[category] ==
            Merged(Container(p.fields, category), Node(false, values.fields)))
  {
    var s := PayloadOf(Some(category), values);
    if path[0] != category {
      DivergentFieldsAreKept(p, s, path);
    }
    assert Merged(p, s).fields[category] == MergedField(p, s, category);
  }

  function Stored(st: Store, key: string): (p: Json)
    requires WellFormed(st)
    ensures p.Node?
  {
    if key in st.accounts then st.accounts[key] else st.defaultPolicy
  }

  // The entry an own update goes into: the first one copies the default.
  function OpenedCopy(st: Store, key: string): (p: Json)
    requires WellFormed(st)
    ensures p.Node?
  {
    if key in st.accounts then st.accounts[key] else Copy(st.defaultPolicy)
  }

  function AfterUpdate(st: Store, u: Change): (r: Store)
    requires WellFormed(st) && u.Update?
    ensures WellFormed(r)
  {
    var s := PayloadOf(u.category, u.values);
    if u.values.Leaf? then st
    else if GoesToAll(u.target) then
      st.(defaultPolicy := Merged(st.defaultPolicy, s),
          accounts := map k | k in st.accounts :: Merged(st.accounts[k], s))
    else
      var key := Resolve(st.aliases, u.target.value);
      st.(accounts := st.accounts[key := Merged(OpenedCopy(st, key), s)])
  }

  function After(st: Store, c: Change): (r: Store)
    requires WellFormed(st) && IsLegal(c)
    ensures WellFormed(r)
  {
    match c
    case Update(_, _, _) => AfterUpdate(st, c)
    case Set(id, policy) =>
      if id == "" then st else st.(accounts := st.accounts[Resolve(st.aliases, id) := Copy(policy)])
    case Alias(a, b) =>
      if a == "" || b == "" then st else st.(aliases := st.aliases[a := b])
  }

  function Run(st: Store, changes: seq<Change>): (r: Store)
    requires WellFormed(st) && forall c | c in changes :: IsLegal(c)
    ensures WellFormed(r)
  {
    if changes == [] then st else After(Run(st, changes[..|changes| - 1]), changes[|changes| - 1])
  }

  // The entry a name reads, among the entries there are; None for the default.
  function EntryOf(accounts: set<string>, aliases: map<string, string>, id: string): Option<string> {
    var resolved := Resolve(aliases, id);
    if resolved in accounts then Some(resolved) else if id in accounts then Some(id) else None
  }

  // No target, an empty one, "ALL" and "*" mean everyone; empty names mean nobody.
  lemma TargetsMean(st: Store, target: Option<string>, values: Json, key: string)
    requires WellFormed(st) && values.Node? && key in st.accounts
    ensures target.None? || target.value in {"", "ALL", "*"} ==>
      var after, s := After(st, Update(target, None, values)), PayloadOf(None, values);
      && after.defaultPolicy == Merged(st.defaultPolicy, s)
      && key in after.accounts && after.accounts[key] == Merged(st.accounts[key], s)
    ensures target.Some? && target.value !in {"", "ALL", "*"} ==>
      After(st, Update(target, None, values)).defaultPolicy == st.defaultPolicy
    ensures After(st, Alias("", key)) == st == After(st, Alias(key, "")) == After(st, Set("", values))
  {
  }

  // A policy that is set becomes the entry as parsing its text gives it.
  lemma SetPolicyIsParsed(st: Store, id: string, policy: Json)
    requires WellFormed(st) && policy.Node? && id != ""
    ensures var key, after := Resolve(st.aliases, id), After(st, Set(id, policy));
      && key in after.accounts && IsDense(after.accounts[key])
      && (IsDense(policy) ==> after.accounts[key] == policy)
  {
    CopyIsDense(policy);
    CopyKeepsIff(policy);
  }

  // ---------- The simple account of one entry ----------

  function AliasesAfter(aliases: map<string, string>, changes: seq<Change>): map<string, string> {
    if changes == [] then aliases
    else
      var before := AliasesAfter(aliases, changes[..|changes| - 1]);
      match changes[|changes| - 1]
      case Alias(a, b) => if a == "" || b == "" then before else before[a := b]
      case _ => before
  }

  // What one change means for the owner of `key`, as if every key had always
  // had a policy of its own.
  function Effect(p: Json, aliases: map<string, string>, c: Change, key: string): (r: Json)
    requires p.Node? && IsLegal(c)
    ensures r.Node?
  {
    match c
    case Update(target, category, values) =>
      if values.Node? && (GoesToAll(target) || Resolve(aliases, target.value) == key)
      then Merged(p, PayloadOf(category, values)) else p
    case Set(id, policy) => if id != "" && Resolve(aliases, id) == key then Copy(policy) else p
    case Alias(_, _) => p
  }

  function Replay(st: Store, changes: seq<Change>, key: string): (p: Json)
    requires WellFormed(st) && forall c | c in changes :: IsLegal(c)
    ensures p.Node?
  {
    if changes == [] then Stored(st, key)
    else
      var earlier := changes[..|changes| - 1];
      Effect(Replay(st, earlier, key), AliasesAfter(st.aliases, earlier), changes[|changes| - 1], key)
  }

  // The change gives the key its first entry, as a copy of the default.
  predicate CopiesDefault(st: Store, c: Change, key: string) {
    c.Update? && c.values.Node? && !GoesToAll(c.target) && Resolve(st.aliases, c.target.value) == key &&
    key !in st.accounts
  }

  // What such a copy loses of the default, the update itself overrides.
  predicate LosesNothing(st: Store, c: Change, key: string)
    requires WellFormed(st)
  {
    CopiesDefault(st, c, key) ==>
      AlikeUnder(Copy(st.defaultPolicy), st.defaultPolicy, PayloadOf(c.category, c.values))
  }

  lemma StoredAfterChangeIff(st: Store, c: Change, key: string)
    requires WellFormed(st) && IsLegal(c)
    ensures Stored(After(st, c), key) == Effect(Stored(st, key), st.aliases, c, key) <==> LosesNothing(st, c, key)
  {
    if CopiesDefault(st, c, key) {
      MergesAgreeIff(Copy(st.defaultPolicy), st.defaultPolicy, PayloadOf(c.category, c.values));
    }
  }

  lemma {:induction false} AliasesOfRun(st: Store, changes: seq<Change>)
    requires WellFormed(st) && forall c | c in changes :: IsLegal(c)
    ensures Run(st, changes).aliases == AliasesAfter(st.aliases, changes)
  {
    if changes != [] {
      AliasesOfRun(st, changes[..|changes| - 1]);
    }
  }

  // At every point of the history the owner of the key reads what a policy of
  // its own, had from the start, would read.
  predicate ReadsReplay(st: Store, changes: seq<Change>, key: string)
    requires WellFormed(st) && forall c | c in changes :: IsLegal(c)
  {
    changes != [] ==>
      && ReadsReplay(st, changes[..|changes| - 1], key)
      && Stored(Run(st, changes), key) == Replay(st, changes, key)
  }

  predicate NothingIsLost(st: Store, changes: seq<Change>, key: string)
    requires WellFormed(st) && forall c | c in changes :: IsLegal(c)
  {
    changes != [] ==>
      && NothingIsLost(st, changes[..|changes| - 1], key)
      && LosesNothing(Run(st, changes[..|changes| - 1]), changes[|changes| - 1], key)
  }

  // Copying the default lazily, on the first own update, is the same as having
  // had a policy of one's own from the start, exactly when that copy loses nothing.
  lemma {:induction false} LazyCopyEqualsReplayIff(st: Store, changes: seq<Change>, key: string)
    requires WellFormed(st) && forall c | c in changes :: IsLegal(c)
    ensures ReadsReplay(st, changes, key) <==> NothingIsLost(st, changes, key)
  {
    if changes != [] {
      var earlier := changes[..|changes| - 1];
      LazyCopyEqualsReplayIff(st, earlier, key);
      AliasesOfRun(st, earlier);
      StoredAfterChangeIff(Run(st, earlier), changes[|changes| - 1], key);
      assert ReadsReplay(st, earlier, key) ==> Stored(Run(st, earlier), key) == Replay(st, earlier, key);
    }
  }

  // No copy loses anything of a default whose arrays are plain lists.
  lemma DenseDefaultLosesNothing(st: Store, c: Change, key: string)
    requires WellFormed(st) && IsDense(st.defaultPolicy)
    ensures LosesNothing(st, c, key)
  {
    CopyKeepsIff(st.defaultPolicy);
    MergesAgreeIff(st.defaultPolicy, st.defaultPolicy, PayloadOf(if c.Update? then c.category else None,
      if c.Update? then c.values else NULL));
  }

  // Some object of the source goes into an array.
  predicate MeetsArray(target: Json, source: Json)
    requires target.Node?
    decreases source
  {
    source.Node? && exists key | key in source.fields ::
      && Takes(target, key) && IsObject(source.fields[key]) && key in target.fields && target.fields[key].Node?
      && (target.fields[key].isArray || MeetsArray(target.fields[key], source.fields[key]))
  }

  lemma {:induction false} MeetingNoArrayStaysDense(target: Json, source: Json)
    requires IsObject(target) && IsDense(target) && IsDense(source) && !MeetsArray(target, source)
    ensures IsDense(Merged(target, source))
    decreases source
  {
    if source.Node? {
      var r := Merged(target, source);
      forall key | key in r.fields ensures IsDense(r.fields[key]) {
        if key in source.fields && Takes(target, key) {
          assert r.fields[key] == MergedField(target, source, key);
          if IsObject(source.fields[key]) {
            MeetingNoArrayStaysDense(Container(target.fields, key), source.fields[key]);
          }
        }
      }
    }
  }

  // Updates of everyone assign lists as a whole.
  predicate KeepsLists(st: Store, c: Change)
    requires WellFormed(st)
  {
    c.Update? && GoesToAll(c.target) ==>
      var s := PayloadOf(c.category, c.values);
      IsDense(s) && !MeetsArray(st.defaultPolicy, s)
  }

  predicate AllKeepLists(st: Store, changes: seq<Change>)
    requires WellFormed(st) && forall c | c in changes :: IsLegal(c)
  {
    changes != [] ==>
      && AllKeepLists(st, changes[..|changes| - 1])
      && KeepsLists(Run(st, changes[..|changes| - 1]), changes[|changes| - 1])
  }

  // As long as no update of everyone reaches into a list of the default, every
  // account reads what a policy of its own would.
  lemma {:induction false} WholeListsLoseNothing(st: Store, changes: seq<Change>, key: string)
    requires WellFormed(st) && forall c | c in changes :: IsLegal(c)
    requires IsObject(st.defaultPolicy) && IsDense(st.defaultPolicy) && AllKeepLists(st, changes)
    ensures IsObject(Run(st, changes).defaultPolicy) && IsDense(Run(st, changes).defaultPolicy)
    ensures NothingIsLost(st, changes, key)
  {
    if changes != [] {
      var earlier, last := changes[..|changes| - 1], changes[|changes| - 1];
      WholeListsLoseNothing(st, earlier, key);
      var before := Run(st, earlier);
      DenseDefaultLosesNothing(before, last, key);
      if last.Update? && GoesToAll(last.target) {
        MeetingNoArrayStaysDense(before.defaultPolicy, PayloadOf(last.category, last.values));
      }
    }
  }

  const LISTING := Store(Node(false, map["L" := Node(true, map["0" := Leaf("1")])]), map[], map[])
  const OWN_WORD := Node(false, map["b" := Leaf("3")])

  // The default once its list was told this.
  function Listed(member: string): Json {
    Node(false, map["L" := Node(true, map["0" := Leaf("1"), member := Leaf("2")])])
  }

  // Everyone is told something about the list; then one account is told something else.
  function ToldOf(member: string): seq<Change> {
    [Update(Some("ALL"), None, Node(false, map["L" := Node(false, map[member := Leaf("2")])])),
     Update(Some("a"), None, OWN_WORD)]
  }

  lemma ToldOfList(member: string)
    requires member != LENGTH && member != PROTO
    ensures var all := ToldOf(member)[0];
      After(LISTING, all) == Store(Listed(member), map[], map[])
      && Effect(LISTING.defaultPolicy, map[], all, "a") == Listed(member)
  {
    var list, told := Node(true, map["0" := Leaf("1")]), Node(false, map[member := Leaf("2")]);
    assert Merged(list, told).fields == map["0" := Leaf("1"), member := Leaf("2")];
    assert "L" != PROTO && "L" != LENGTH;
    var s := PayloadOf(None, Node(false, map["L" := told]));
    assert s.fields == map["L" := told];
    assert Merged(LISTING.defaultPolicy, s).fields["L"] == Merged(list, told);
    assert Merged(LISTING.defaultPolicy, s).fields == Listed(member).fields;
  }

  lemma ToldOfRun(member: string)
    requires member != LENGTH && member != PROTO
    ensures Run(LISTING, ToldOf(member)) ==
      Store(Listed(member), map["a" := Merged(Copy(Listed(member)), OWN_WORD)], map[])
    ensures Replay(LISTING, ToldOf(member), "a") == Merged(Listed(member), OWN_WORD)
  {
    var changes := ToldOf(member);
    ToldOfList(member);
    assert changes[..1] == [changes[0]] && changes[..1][..0] == [];
    assert Run(LISTING, changes[..1]) == After(LISTING, changes[0]);
    assert AliasesAfter(map[], changes[..1][..0]) == map[] && AliasesAfter(map[], changes[..1]) == map[];
    assert Replay(LISTING, changes[..1], "a") == Listed(member);
    assert PayloadOf(None, OWN_WORD) == OWN_WORD;
    assert !GoesToAll(Some("a"));
  }

  lemma WordLeavesTheList(p: Json, member: string)
    requires p.Node?
    ensures Own(Merged(p, OWN_WORD), ["L", member]) == Own(p, ["L", member])
  {
    assert "L" !in OWN_WORD.fields;
    DivergentFieldsAreKept(p, OWN_WORD, ["L", member]);
  }

  lemma ListedOwns(member: string, other: string)
    ensures Own(Listed(member), ["L", other]) ==
      if other == member then Some(Leaf("2"))
      else if other == "0" then Some(Leaf("1")) else None
  {
    assert ["L", other][1..] == [other] && [other][1..] == [];
    var list := Listed(member).fields["L"];
    assert Own(Listed(member), ["L", other]) == Own(list, [other]);
    assert other in list.fields ==> Own(list, [other]) == Own(list.fields[other], []);
  }

  // The default's list has the member, a policy of one's own would have it, and
  // the account's copy has lost it.
  lemma CopyLosesMember()
    ensures var after := Run(LISTING, ToldOf("foo"));
      && Own(after.defaultPolicy, ["L", "foo"]) == Some(Leaf("2"))
      && Own(Replay(LISTING, ToldOf("foo"), "a"), ["L", "foo"]) == Some(Leaf("2"))
      && Own(Stored(after, "a"), ["L", "foo"]) == None
  {
    ToldOfRun("foo");
    ListedOwns("foo", "foo");
    WordLeavesTheList(Listed("foo"), "foo");
    WordLeavesTheList(Copy(Listed("foo")), "foo");
    assert ["L", "foo"][1..] == ["foo"] && ["L", "foo"][1..][0] == "foo";
    assert "foo"[0] == 'f' && !IsIndex("foo");
    CopyOwnsIff(Listed("foo"), ["L", "foo"]);
  }

  lemma HoleBecomesNull(list: Json)
    requires list.Node? && list.isArray && "2" in list.fields && "1" !in list.fields
    ensures "1" in Copy(list).fields && Copy(list).fields["1"] == NULL
  {
    NumberOfAppend("", '2');
    assert "" + ['2'] == "2" && IsIndex("2") && Number("2") == 2;
    assert Name(1) == "1";
    assert "1" in Positions(list.fields.Keys);
  }

  lemma HoleOfListed(p: Json, list: Json)
    requires p == Listed("2") && list == p.fields["L"]
    ensures list.Node? && list.isArray && "2" in list.fields && "1" !in list.fields
    ensures Copy(p).fields["L"] == Copy(list)
    ensures Own(p, ["L", "1"]) == None
  {
    ListedOwns("2", "1");
  }

  lemma OwnBelow(p: Json, key: string, below: string)
    requires p.Node? && key in p.fields && p.fields[key].Node? && below in p.fields[key].fields
    ensures Own(p, [key, below]) == Some(p.fields[key].fields[below])
  {
    assert [key, below][1..] == [below] && [below][1..] == [];
    assert Own(p, [key, below]) == Own(p.fields[key], [below]) == Own(p.fields[key].fields[below], []);
  }

  // A hole that everyone's list got is null in the account's copy.
  lemma CopyFillsHole()
    ensures var after := Run(LISTING, ToldOf("2"));
      && Own(after.defaultPolicy, ["L", "1"]) == None
      && Own(Replay(LISTING, ToldOf("2"), "a"), ["L", "1"]) == None
      && Own(Stored(after, "a"), ["L", "1"]) == Some(NULL)
  {
    var p := Listed("2");
    var list := p.fields["L"];
    ToldOfRun("2");
    HoleOfListed(p, list);
    HoleBecomesNull(list);
    OwnBelow(Copy(p), "L", "1");
    WordLeavesTheList(p, "1");
    WordLeavesTheList(Copy(p), "1");
  }

  predicate Concerns(aliases: map<string, string>, c: Change, key: string) {
    match c
    case Update(target, _, _) => GoesToAll(target) || Resolve(aliases, target.value) == key
    case Set(id, _) => id != "" && Resolve(aliases, id) == key
    case Alias(_, _) => false
  }

  // Changes that only concern other keys never show in this one.
  lemma {:induction false} OthersAreInvisible(st: Store, changes: seq<Change>, key: string)
    requires WellFormed(st) && forall c | c in changes :: IsLegal(c)
    requires forall i | 0 <= i < |changes| :: !Concerns(AliasesAfter(st.aliases, changes[..i]), changes[i], key)
    ensures Stored(Run(st, changes), key) == Stored(st, key)
  {
    if changes != [] {
      var n := |changes| - 1;
      var earlier := changes[..n];
      assert !Concerns(AliasesAfter(st.aliases, changes[..n]), changes[n], key);
      forall i | 0 <= i < n ensures !Concerns(AliasesAfter(st.aliases, earlier[..i]), earlier[i], key) {
        assert earlier[..i] == changes[..i];
      }
      OthersAreInvisible(st, earlier, key);
      AliasesOfRun(st, earlier);
      StoredAfterChangeIff(Run(st, earlier), changes[n], key);
    }
  }

  // ---------- Two names for one account ----------

  // The change gives this key an entry of its own, if it has none yet.
  predicate Opens(aliases: map<string, string>, c: Change, key: string) {
    match c
    case Update(target, _, values) => values.Node? && !GoesToAll(target) && Resolve(aliases, target.value) == key
    case Set(id, _) => id != "" && Resolve(aliases, id) == key
    case Alias(_, _) => false
  }

  // Some change of the history gave this key an entry, or it had one.
  predicate WasOpened(st: Store, changes: seq<Change>, key: string) {
    if changes == [] then key in st.accounts
    else
      var earlier := changes[..|changes| - 1];
      WasOpened(st, earlier, key) || Opens(AliasesAfter(st.aliases, earlier), changes[|changes| - 1], key)
  }

  lemma OpeningAddsKey(st: Store, c: Change, key: string)
    requires WellFormed(st) && IsLegal(c)
    ensures key in After(st, c).accounts <==> key in st.accounts || Opens(st.aliases, c, key)
  {
  }

  lemma {:induction false} EntryExistsIffOpened(st: Store, changes: seq<Change>, key: string)
    requires WellFormed(st) && forall c | c in changes :: IsLegal(c)
    ensures key in Run(st, changes).accounts <==> WasOpened(st, changes, key)
  {
    if changes != [] {
      var earlier := changes[..|changes| - 1];
      EntryExistsIffOpened(st, earlier, key);
      AliasesOfRun(st, earlier);
      OpeningAddsKey(Run(st, earlier), changes[|changes| - 1], key);
    }
  }

  // After any history, two names aliased to each other read one entry exactly
  // as long as the history did not open an entry under each of them.
  lemma MutualAliasesShareIff(st: Store, changes: seq<Change>, a: string, b: string)
    requires WellFormed(st) && forall c | c in changes :: IsLegal(c)
    requires a != b
    requires Resolve(AliasesAfter(st.aliases, changes), a) == b && Resolve(AliasesAfter(st.aliases, changes), b) == a
    ensures var after := Run(st, changes);
      EntryOf(after.accounts.Keys, after.aliases, a) == EntryOf(after.accounts.Keys, after.aliases, b) <==>
      !(WasOpened(st, changes, a) && WasOpened(st, changes, b))
  {
    EntryExistsIffOpened(st, changes, a);
    EntryExistsIffOpened(st, changes, b);
    AliasesOfRun(st, changes);
  }

  function Policy(st: Store, id: Option<string>): (p: Json)
    requires WellFormed(st)
    ensures p.Node?
  {
    var entry := if id.None? then None else EntryOf(st.accounts.Keys, st.aliases, id.value);
    if entry.None? then st.defaultPolicy else st.accounts[entry.value]
  }

  // A name with an alias reads the entry of what it stands for, once there is one;
  // a name without reads its own; any other reads the default.
  lemma AliasReadsCanonical(st: Store, a: string, b: string)
    requires WellFormed(st) && a != "" && b != ""
    ensures b in st.accounts ==> Policy(After(st, Alias(a, b)), Some(a)) == st.accounts[b]
    ensures b !in st.accounts && a in st.accounts ==> Policy(After(st, Alias(a, b)), Some(a)) == st.accounts[a]
    ensures b !in st.accounts && a !in st.accounts ==> Policy(After(st, Alias(a, b)), Some(a)) == st.defaultPolicy
    ensures a !in st.aliases && a in st.accounts ==> Policy(st, Some(a)) == st.accounts[a]
  {
  }

  // Both names of an account updated in turn: each name then misses the other's update.
  lemma MutualAliasesCanSplit()
    ensures
      var st := Store(EMPTY_OBJECT, map[], map["slave" := "user", "user" := "slave"]);
      var u1 := Update(Some("slave"), None, Node(false, map["A" := Leaf("1")]));
      var u2 := Update(Some("user"), None, Node(false, map["B" := Leaf("2")]));
      var after := After(After(st, u1), u2);
      && Own(Policy(after, Some("slave")), ["A"]) == Some(Leaf("1"))
      && Own(Policy(after, Some("slave")), ["B"]) == None
      && Own(Policy(after, Some("user")), ["B"]) == Some(Leaf("2"))
      && Own(Policy(after, Some("user")), ["A"]) == None
  {
  }
}
