// JSON values as the policies hold them, and what copying one through its JSON
// text makes of it: an array keeps its elements only, and its holes become null.

module JsonValues {
  import opened Common

  // Null, numbers, strings and booleans are leaves, given by their JSON text.
  // An array is a node keyed by index; it can have holes and named members too,
  // and its length is no field.
  datatype Json = Leaf(text: string) | Node(isArray: bool, fields: map<string, Json>)

  const NULL := Leaf("null")
  const EMPTY_OBJECT := Node(false, map[])

  predicate IsObject(j: Json) { j.Node? && !j.isArray }

  // ---------- Array indices ----------

  function Digit(d: nat): (c: char)
    requires d < 10
    ensures '0' <= c <= '9' && DigitValue(c) == d && (c == '0' <==> d == 0)
  {
    (48 + d) as char
  }

  function DigitValue(c: char): nat
    requires '0' <= c <= '9'
  {
    c as int - 48
  }

  // The property name of an index.
  function Name(i: nat): (name: string)
    ensures name != ""
  {
    if i < 10 then [Digit(i)] else Name(i / 10) + [Digit(i % 10)]
  }

  predicate AreDigits(key: string) { forall i | 0 <= i < |key| :: '0' <= key[i] <= '9' }

  predicate IsDecimal(key: string) { key != "" && (key[0] == '0' ==> |key| == 1) && AreDigits(key) }

  function Number(digits: string): nat
    requires AreDigits(digits)
  {
    if digits == "" then 0
    else 10 * Number(digits[..|digits| - 1]) + DigitValue(digits[|digits| - 1])
  }

  // Names that array elements have; all others are ordinary members.
  predicate IsIndex(key: string) { IsDecimal(key) && Number(key) < 0xFFFF_FFFF }

  lemma {:induction false} NumberOfAppend(digits: string, d: char)
    requires AreDigits(digits) && '0' <= d <= '9'
    ensures AreDigits(digits + [d]) && Number(digits + [d]) == 10 * Number(digits) + DigitValue(d)
  {
    assert (digits + [d])[..|digits|] == digits;
  }

  lemma {:induction false} NameIsDecimal(i: nat)
    ensures IsDecimal(Name(i)) && Number(Name(i)) == i && (Name(i)[0] == '0' <==> i == 0)
  {
    if i < 10 {
      NumberOfAppend("", Digit(i));
      assert Name(i) == "" + [Digit(i)];
    } else {
      NameIsDecimal(i / 10);
      NumberOfAppend(Name(i / 10), Digit(i % 10));
    }
  }

  lemma TensAndOnes(tens: nat, ones: nat)
    requires ones < 10
    ensures (10 * tens + ones) / 10 == tens && (10 * tens + ones) % 10 == ones
  {
  }

  lemma {:induction false} DecimalIsName(key: string)
    requires IsDecimal(key)
    ensures Name(Number(key)) == key && (key[0] != '0' ==> Number(key) > 0)
  {
    var front, last := key[..|key| - 1], key[|key| - 1];
    assert key == front + [last] && AreDigits(front);
    NumberOfAppend(front, last);
    var d := DigitValue(last);
    assert [Digit(d)] == [last];
    if front == "" {
      assert Number(front) == 0;
    } else {
      assert front[0] == key[0];
      DecimalIsName(front);
      TensAndOnes(Number(front), d);
    }
  }

  // The names of all indices up to the last one used.
  function Positions(keys: set<string>): set<string> {
    set k, i | k in keys && IsIndex(k) && 0 <= i <= Number(k) :: Name(i)
  }

  lemma UsedIndexIsPosition(keys: set<string>, p: string)
    requires p in keys && IsIndex(p)
    ensures p in Positions(keys)
  {
    DecimalIsName(p);
  }

  lemma PositionIsIndex(keys: set<string>, p: string) returns (k: string)
    requires p in Positions(keys)
    ensures IsIndex(p) && k in keys && IsIndex(k) && Number(p) <= Number(k)
  {
    var l, i :| l in keys && IsIndex(l) && 0 <= i <= Number(l) && p == Name(i);
    NameIsDecimal(i);
    k := l;
  }

  lemma PositionsAreDense(keys: set<string>)
    ensures Positions(Positions(keys)) == Positions(keys)
  {
    forall p | p in Positions(keys) ensures p in Positions(Positions(keys)) {
      var _ := PositionIsIndex(keys, p);
      UsedIndexIsPosition(Positions(keys), p);
    }
    forall p | p in Positions(Positions(keys)) ensures p in Positions(keys) {
      var q := PositionIsIndex(Positions(keys), p);
      var k := PositionIsIndex(keys, q);
      DecimalIsName(p);
      assert Number(p) <= Number(k);
    }
  }

  // ---------- Copying ----------

  // What is written out of a node: all fields of an object, the elements of an
  // array up to the last one.
  function WrittenKeys(isArray: bool, keys: set<string>): set<string> { if isArray then Positions(keys) else keys }

  // What parsing the JSON text of a value gives.
  function Copy(j: Json): (c: Json)
    ensures j.Leaf? ==> c == j
    ensures j.Node? ==> c.Node? && c.isArray == j.isArray && c.fields.Keys == WrittenKeys(j.isArray, j.fields.Keys)
  {
    match j
    case Leaf(_) => j
    case Node(isArray, fields) =>
      Node(isArray, map p | p in WrittenKeys(isArray, fields.Keys) :: if p in fields then Copy(fields[p]) else NULL)
  }

  // Its arrays have elements only, without holes; as every parsed value's do.
  predicate IsDense(j: Json) {
    j.Node? ==>
      && WrittenKeys(j.isArray, j.fields.Keys) == j.fields.Keys
      && forall k | k in j.fields :: IsDense(j.fields[k])
  }

  lemma {:induction false} CopyKeepsIff(j: Json)
    ensures Copy(j) == j <==> IsDense(j)
  {
    if j.Node? {
      forall k | k in j.fields ensures Copy(j.fields[k]) == j.fields[k] <==> IsDense(j.fields[k]) {
        CopyKeepsIff(j.fields[k]);
      }
      FieldsAreKeptIff(j, Copy(j), WrittenKeys(j.isArray, j.fields.Keys));
    }
  }

  // The same, for the fields of one node.
  lemma FieldsAreKeptIff(j: Json, c: Json, written: set<string>)
    requires j.Node? && c.Node? && c.isArray == j.isArray && c.fields.Keys == written
    requires forall p | p in written :: c.fields[p] == if p in j.fields then Copy(j.fields[p]) else NULL
    ensures c == j <==> written == j.fields.Keys && forall k | k in j.fields :: Copy(j.fields[k]) == j.fields[k]
  {
    if written == j.fields.Keys && forall k | k in j.fields :: Copy(j.fields[k]) == j.fields[k] {
      assert c.fields == j.fields;
    }
  }

  lemma {:induction false} CopyIsDense(j: Json)
    ensures IsDense(Copy(j))
  {
    if j.Node? {
      PositionsAreDense(j.fields.Keys);
      forall k | k in Copy(j).fields ensures IsDense(Copy(j).fields[k]) {
        if k in j.fields { CopyIsDense(j.fields[k]); }
      }
    }
  }

  // ---------- Own fields ----------

  // The value at a path of own fields.
  function Own(j: Json, path: seq<string>): Option<Json>
    decreases |path|
  {
    if path == [] then Some(j)
    else if j.Leaf? || path[0] !in j.fields then None
    else Own(j.fields[path[0]], path[1..])
  }

  // What survives a copy: a path that goes through arrays by index only.
  predicate ByIndex(j: Json, path: seq<string>)
    decreases |path|
  {
    path == [] || (j.Node? && path[0] in j.fields && (j.isArray ==> IsIndex(path[0]))
      && ByIndex(j.fields[path[0]], path[1..]))
  }

  // Nothing else does, but for the nulls in place of holes.
  lemma {:induction false} CopyOwnsIff(j: Json, path: seq<string>)
    requires Own(j, path).Some?
    ensures ByIndex(j, path) ==> Own(Copy(j), path) == Some(Copy(Own(j, path).value))
    ensures !ByIndex(j, path) ==> Own(Copy(j), path) == None
    decreases |path|
  {
    if path != [] {
      var key := path[0];
      CopyOwnsIff(j.fields[key], path[1..]);
      if j.isArray {
        if IsIndex(key) {
          UsedIndexIsPosition(j.fields.Keys, key);
        } else if key in Positions(j.fields.Keys) {
          var _ := PositionIsIndex(j.fields.Keys, key);
        }
      }
    }
  }
}
