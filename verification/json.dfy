/** JSON values as the client sees them after `JSON.parse`, and the few
    language operations the client applies to them: truthiness, property
    reads, `Object.values`, object spread and property assignment. */
module Json {
  import opened Wrappers
  import opened Seqs
  import opened JsNumber

  /** A parsed JSON value. Numbers are idealised as reals; an object keeps
      its members in source order, and the parser has already resolved
      duplicate keys, so the keys of a parsed object are distinct. */
  datatype Json =
    | JNull
    | JBool(b: bool)
    | JNum(n: real)
    | JStr(s: string)
    | JArr(items: seq<Json>)
    | JObj(members: seq<(string, Json)>)

  /** ToBoolean (section 7.1.2 of ECMA-262) restricted to JSON values. */
  predicate Truthy(v: Json)
  {
    match v
    case JNull => false
    case JBool(b) => b
    case JNum(n) => n != 0.0
    case JStr(s) => s != ""
    case _ => true
  }

  /** `typeof v === 'object'`: null, arrays and objects. */
  predicate TypeofObject(v: Json)
  {
    v.JNull? || v.JArr? || v.JObj?
  }

  function Keys(members: seq<(string, Json)>): (r: seq<string>)
    ensures |r| == |members|
    ensures forall i {:trigger r[i]} :: 0 <= i < |members| ==> r[i] == members[i].0
  {
    if |members| == 0 then [] else [members[0].0] + Keys(members[1..])
  }

  function Values(members: seq<(string, Json)>): (r: seq<Json>)
    ensures |r| == |members|
    ensures forall i :: 0 <= i < |members| ==> r[i] == members[i].1
  {
    if |members| == 0 then [] else [members[0].1] + Values(members[1..])
  }

  /** The value stored under `key`, if the object has such a member. */
  function Lookup(members: seq<(string, Json)>, key: string): (r: Option<Json>)
    ensures r.Some? <==> key in Keys(members)
    ensures r.Some? ==> (key, r.value) in members
  {
    if |members| == 0 then None
    else if members[0].0 == key then Some(members[0].1)
    else
      assert Keys(members) == [members[0].0] + Keys(members[1..]);
      Lookup(members[1..], key)
  }

  /** The first member with a key is the one a lookup finds. */
  lemma {:induction false} LookupAt(members: seq<(string, Json)>, k: nat, key: string)
    requires k < |members| && members[k].0 == key
    requires forall i :: 0 <= i < k ==> members[i].0 != key
    ensures Lookup(members, key) == Some(members[k].1)
  {
    if k > 0 {
      LookupAt(members[1..], k - 1, key);
    }
  }

  /** An array index: the canonical decimal numeral of an integer in
      [0, 2^32 - 2] (section 6.1.7 of ECMA-262). */
  predicate IsArrayIndex(key: string)
  {
    || key == "0"
    || (|key| > 0 && '1' <= key[0] <= '9' && AllDigits(key, 10) && DigitsValue(key, 10) <= 0xFFFF_FFFE)
  }

  function IndexOf(key: string): nat
  {
    DigitsValue(key, 10)
  }

  /** The numerals an array or a string uses for its indices are exactly
      array-index keys, and they denote the index back. */
  lemma IndexKeyRoundTrip(i: nat)
    requires i <= 0xFFFF_FFFE
    ensures IsArrayIndex(NatToDecimal(i))
    ensures IndexOf(NatToDecimal(i)) == i
  {
    NatToDecimalValue(i);
  }

  /** Reading property `key` of a value that is not null (reading a
      property of null throws): an own member of an object, an element or
      the length of an array, a character or the length of a string;
      `None` stands for `undefined`. Booleans and numbers have no own
      properties. */
  function Get(v: Json, key: string): (r: Option<Json>)
    requires !v.JNull?
    ensures v.JObj? ==> r == Lookup(v.members, key)
    ensures v.JArr? && IsArrayIndex(key) && IndexOf(key) < |v.items| ==> r == Some(v.items[IndexOf(key)])
    ensures (v.JBool? || v.JNum?) ==> r.None?
  {
    match v
    case JObj(m) => Lookup(m, key)
    case JArr(items) =>
      if key == "length" then Some(JNum(|items| as real))
      else if IsArrayIndex(key) && IndexOf(key) < |items| then Some(items[IndexOf(key)])
      else None
    case JStr(s) =>
      if key == "length" then Some(JNum(|s| as real))
      else if IsArrayIndex(key) && IndexOf(key) < |s| then Some(JStr([s[IndexOf(key)]]))
      else None
    case _ => None
  }

  /** `Array.isArray(v.key)` for a readable `v`. */
  predicate ArrayAt(v: Json, key: string)
    requires !v.JNull?
  {
    var p := Get(v, key);
    p.Some? && p.value.JArr?
  }

  // ----- Own property order -----

  predicate IndexMember(m: (string, Json))
  {
    IsArrayIndex(m.0)
  }

  predicate SortedByIndex(s: seq<(string, Json)>)
  {
    forall i, j :: 0 <= i < j < |s| ==> IndexOf(s[i].0) <= IndexOf(s[j].0)
  }

  function InsertByIndex(e: (string, Json), s: seq<(string, Json)>): (r: seq<(string, Json)>)
    requires SortedByIndex(s)
    ensures |r| == |s| + 1
    ensures forall x :: x in r ==> x == e || x in s
    ensures SortedByIndex(r)
    ensures multiset(r) == multiset(s) + multiset{e}
  {
    if |s| == 0 then [e]
    else if IndexOf(e.0) <= IndexOf(s[0].0) then [e] + s
    else
      var rest := InsertByIndex(e, s[1..]);
      var r := [s[0]] + rest;
      assert s == [s[0]] + s[1..];
      assert forall j :: 0 < j < |r| ==> r[j] == rest[j - 1];
      assert forall j :: 0 < j < |r| ==> IndexOf(s[0].0) <= IndexOf(r[j].0) by {
        forall j | 0 < j < |r| ensures IndexOf(s[0].0) <= IndexOf(r[j].0) {
          assert rest[j - 1] in rest;
        }
      }
      r
  }

  /** Insertion sort of members by the index their key denotes. */
  function SortByIndex(s: seq<(string, Json)>): (r: seq<(string, Json)>)
    ensures SortedByIndex(r)
    ensures multiset(r) == multiset(s)
  {
    if |s| == 0 then []
    else
      assert s == [s[0]] + s[1..];
      InsertByIndex(s[0], SortByIndex(s[1..]))
  }

  /** OrdinaryOwnPropertyKeys (section 10.1.11.1 of ECMA-262) applied to
      the members of a parsed object: the array-index keys in ascending
      numeric order, then the other keys in the order they were created. */
  function OwnEntries(members: seq<(string, Json)>): (r: seq<(string, Json)>)
    ensures multiset(r) == multiset(members)
  {
    var indexed := Filter(members, IndexMember);
    var named := Filter(members, (m: (string, Json)) => !IndexMember(m));
    FilterSplitsMultiset(members);
    SortByIndex(indexed) + named
  }

  lemma {:induction false} FilterSplitsMultiset(members: seq<(string, Json)>)
    ensures multiset(Filter(members, IndexMember)) + multiset(Filter(members, (m: (string, Json)) => !IndexMember(m)))
            == multiset(members)
  {
    var a := multiset(Filter(members, IndexMember));
    var b := multiset(Filter(members, (m: (string, Json)) => !IndexMember(m)));
    forall x ensures (a + b)[x] == multiset(members)[x] {
    }
  }

  /** The own entries are the array-index members, sorted by index,
      followed by the other members in source order: the first `k`
      entries have array-index keys... */
  lemma {:induction false} OwnEntriesIndicesFirst(members: seq<(string, Json)>)
    ensures
      var r := OwnEntries(members);
      var k := |Filter(members, IndexMember)|;
      k <= |r| && forall i :: 0 <= i < k ==> IsArrayIndex(r[i].0)
  {
    var indexed := Filter(members, IndexMember);
    var sorted := SortByIndex(indexed);
    var r := OwnEntries(members);
    SortedAreIndices(indexed);
    forall i | 0 <= i < |sorted| ensures IsArrayIndex(r[i].0) {
      assert r[i] == sorted[i] && sorted[i] in sorted;
    }
  }

  /** ...in ascending index order... */
  lemma {:induction false} OwnEntriesIndicesSorted(members: seq<(string, Json)>)
    ensures
      var r := OwnEntries(members);
      var k := |Filter(members, IndexMember)|;
      k <= |r| && SortedByIndex(r[..k])
  {
    var indexed := Filter(members, IndexMember);
    var sorted := SortByIndex(indexed);
    SortedAreIndices(indexed);
    assert OwnEntries(members)[..|sorted|] == sorted;
  }

  /** ...and the remaining entries are the other members, in the order
      they were created. */
  lemma {:induction false} OwnEntriesNamesAfter(members: seq<(string, Json)>)
    ensures
      var r := OwnEntries(members);
      var k := |Filter(members, IndexMember)|;
      && k <= |r|
      && (forall i :: k <= i < |r| ==> !IsArrayIndex(r[i].0))
      && IsSubsequence(r[k..], members)
  {
    var indexed := Filter(members, IndexMember);
    var named := Filter(members, (m: (string, Json)) => !IndexMember(m));
    var sorted := SortByIndex(indexed);
    var r := OwnEntries(members);
    SortedAreIndices(indexed);
    NamedAreNotIndices(members);
    forall i | |sorted| <= i < |r| ensures !IsArrayIndex(r[i].0) {
      assert r[i] == named[i - |sorted|] && named[i - |sorted|] in named;
    }
    assert r[|sorted|..] == named;
  }

  /** Sorting keeps the members' count and keeps them all array-index
      members. */
  lemma {:induction false} SortedAreIndices(indexed: seq<(string, Json)>)
    requires forall m :: m in indexed ==> IndexMember(m)
    ensures |SortByIndex(indexed)| == |indexed|
    ensures forall m :: m in SortByIndex(indexed) ==> IndexMember(m)
  {
    var sorted := SortByIndex(indexed);
    assert |multiset(sorted)| == |multiset(indexed)|;
    forall m | m in sorted ensures IndexMember(m) {
      assert m in multiset(indexed);
    }
  }

  lemma {:induction false} NamedAreNotIndices(members: seq<(string, Json)>)
    ensures forall m :: m in Filter(members, (m: (string, Json)) => !IndexMember(m)) ==> !IndexMember(m)
  {
  }

  /** Two member lists with the same members have the same values. */
  lemma {:induction false} SameMembersSameValues(a: seq<(string, Json)>, b: seq<(string, Json)>)
    requires multiset(a) == multiset(b)
    ensures |a| == |b|
    ensures forall v :: v in Values(a) ==> v in Values(b)
  {
    assert |a| == |multiset(a)| == |multiset(b)| == |b|;
    forall v | v in Values(a) ensures v in Values(b) {
      var i :| 0 <= i < |a| && Values(a)[i] == v;
      assert a[i] in multiset(b);
      var j :| 0 <= j < |b| && b[j] == a[i];
      assert Values(b)[j] == v;
    }
  }

  /** `Object.values` of an object: every member's value once, in own
      property order. */
  function ObjectValues(members: seq<(string, Json)>): (r: seq<Json>)
    ensures |r| == |members|
    ensures forall v :: v in r <==> v in Values(members)
  {
    var entries := OwnEntries(members);
    SameMembersSameValues(entries, members);
    SameMembersSameValues(members, entries);
    Values(entries)
  }

  /** Array-index keys come first, in numeric order, whatever their
      position in the source text. */
  lemma ObjectValuesOrder()
    ensures ObjectValues([("b", JNum(1.0)), ("1", JNum(2.0))]) == [JNum(2.0), JNum(1.0)]
  {
    var m := [("b", JNum(1.0)), ("1", JNum(2.0))];
    assert !IsArrayIndex("b");
    assert "1"[..0] == "";
    assert IsArrayIndex("1");
    assert Filter(m, IndexMember) == [("1", JNum(2.0))];
    assert Filter(m, (e: (string, Json)) => !IndexMember(e)) == [("b", JNum(1.0))];
  }

  // ----- Object construction -----

  /** Assigning `key` in an object literal or by `o[key] = v`: an existing
      member keeps its position and takes the new value; a new key goes
      last. */
  function SetMember(members: seq<(string, Json)>, key: string, v: Json): (r: seq<(string, Json)>)
    ensures Keys(r) == if key in Keys(members) then Keys(members) else Keys(members) + [key]
    ensures Lookup(r, key) == Some(v)
  {
    if |members| == 0 then [(key, v)]
    else if members[0].0 == key then
      var r := [(key, v)] + members[1..];
      assert Keys(r) == [key] + Keys(members[1..]);
      r
    else
      var rest := SetMember(members[1..], key, v);
      var r := [members[0]] + rest;
      assert r[1..] == rest;
      assert Keys(members) == [members[0].0] + Keys(members[1..]);
      assert Keys(r) == [members[0].0] + Keys(rest);
      r
  }

  /** Assigning one key leaves every other key's value as it was. */
  lemma {:induction false} SetMemberKeepsOthers(members: seq<(string, Json)>, key: string, v: Json, other: string)
    requires other != key
    ensures Lookup(SetMember(members, key, v), other) == Lookup(members, other)
  {
    if |members| > 0 && members[0].0 != key {
      var rest := SetMember(members[1..], key, v);
      assert ([members[0]] + rest)[1..] == rest;
      SetMemberKeepsOthers(members[1..], key, v, other);
    } else if |members| > 0 {
      assert ([(key, v)] + members[1..])[1..] == members[1..];
    }
  }

  /** Assigning a key that is present replaces its first member in place. */
  lemma {:induction false} SetMemberReplaces(before: seq<(string, Json)>, key: string, prev: Json, after: seq<(string, Json)>, v: Json)
    requires key !in Keys(before)
    ensures SetMember(before + ([(key, prev)] + after), key, v) == before + ([(key, v)] + after)
  {
    var found := [(key, prev)] + after;
    var replaced := [(key, v)] + after;
    if |before| == 0 {
      assert before + found == found;
      assert before + replaced == replaced;
      SetMemberFirst(key, prev, after, v);
    } else {
      assert Keys(before) == [before[0].0] + Keys(before[1..]);
      SplitHead(before, found);
      SetMemberSkip(before[0], before[1..] + found, key, v);
      SetMemberReplaces(before[1..], key, prev, after, v);
      SplitHead(before, replaced);
    }
  }

  lemma {:induction false} SetMemberFirst(key: string, prev: Json, after: seq<(string, Json)>, v: Json)
    ensures SetMember([(key, prev)] + after, key, v) == [(key, v)] + after
  {
    assert ([(key, prev)] + after)[1..] == after;
  }

  lemma {:induction false} SetMemberSkip(m: (string, Json), rest: seq<(string, Json)>, key: string, v: Json)
    requires m.0 != key
    ensures SetMember([m] + rest, key, v) == [m] + SetMember(rest, key, v)
  {
    assert ([m] + rest)[1..] == rest;
  }

  /** The explicit properties of an object literal written after a
      spread, `{...v, k1: e1, k2: e2}`: each is assigned in turn. */
  function Assign(members: seq<(string, Json)>, props: seq<(string, Json)>): (r: seq<(string, Json)>)
    ensures forall k :: k in Keys(members) ==> k in Keys(r)
    ensures forall k :: k in Keys(props) ==> k in Keys(r)
    decreases |props|
  {
    if |props| == 0 then members
    else Assign(SetMember(members, props[0].0, props[0].1), props[1..])
  }

  /** The properties of a literal from its keys and values, pairwise. */
  function Props(keys: seq<string>, values: seq<Json>): (r: seq<(string, Json)>)
    requires |keys| == |values|
    ensures |r| == |keys| && Keys(r) == keys
    ensures forall i :: 0 <= i < |r| ==> r[i].1 == values[i]
  {
    var r := seq(|keys|, i requires 0 <= i < |keys| => (keys[i], values[i]));
    assert Keys(r) == keys;
    r
  }

  /** A key the literal does not name keeps the value it had. */
  lemma {:induction false} AssignKeepsOthers(members: seq<(string, Json)>, props: seq<(string, Json)>, key: string)
    requires key !in Keys(props)
    ensures Lookup(Assign(members, props), key) == Lookup(members, key)
    decreases |props|
  {
    if |props| > 0 {
      assert Keys(props)[0] == props[0].0;
      assert key !in Keys(props[1..]) by {
        forall i | 0 <= i < |props| - 1 ensures Keys(props[1..])[i] != key {
          assert Keys(props[1..])[i] == Keys(props)[i + 1];
        }
      }
      SetMemberKeepsOthers(members, props[0].0, props[0].1, key);
      AssignKeepsOthers(SetMember(members, props[0].0, props[0].1), props[1..], key);
    }
  }

  /** With distinct keys in the literal, every key it names reads the
      value written for it. */
  lemma {:induction false} AssignReads(members: seq<(string, Json)>, props: seq<(string, Json)>, i: nat)
    requires Distinct(Keys(props)) && i < |props|
    ensures Lookup(Assign(members, props), props[i].0) == Some(props[i].1)
    decreases |props|
  {
    var rest := props[1..];
    assert Distinct(Keys(rest)) by {
      forall a, b | 0 <= a < b < |rest| ensures Keys(rest)[a] != Keys(rest)[b] {
        assert Keys(rest)[a] == Keys(props)[a + 1] && Keys(rest)[b] == Keys(props)[b + 1];
      }
    }
    var first := SetMember(members, props[0].0, props[0].1);
    if i == 0 {
      assert props[0].0 !in Keys(rest) by {
        forall k | 0 <= k < |rest| ensures Keys(rest)[k] != props[0].0 {
          assert Keys(rest)[k] == Keys(props)[k + 1] && Keys(props)[0] == props[0].0;
        }
      }
      AssignKeepsOthers(first, rest, props[0].0);
    } else {
      AssignReads(first, rest, i - 1);
    }
  }

  /** The members an object spread `{...v}` copies (CopyDataProperties,
      section 7.3.25 of ECMA-262): an object's members in own property
      order, an array's elements and a string's characters under their
      index numerals, and nothing for null, booleans and numbers. */
  function Spread(v: Json): (r: seq<(string, Json)>)
    ensures v.JObj? ==> multiset(r) == multiset(v.members)
    ensures v.JArr? ==> |r| == |v.items| && forall i :: 0 <= i < |r| ==> r[i] == (NatToDecimal(i), v.items[i])
    ensures v.JStr? ==> |r| == |v.s| && forall i :: 0 <= i < |r| ==> r[i] == (NatToDecimal(i), JStr([v.s[i]]))
    ensures !TypeofObject(v) && !v.JStr? ==> r == []
  {
    match v
    case JObj(m) => OwnEntries(m)
    case JArr(items) => seq(|items|, i requires 0 <= i < |items| => (NatToDecimal(i), items[i]))
    case JStr(s) => seq(|s|, i requires 0 <= i < |s| => (NatToDecimal(i), JStr([s[i]])))
    case _ => []
  }

  /** The outcome of an HTTP request as the client sees it: the error the
      request threw, with its message, or the parsed response body. */
  datatype Http = HttpError(message: string) | HttpOk(data: Json)
}
