/**
 * The canonical form behind cache keys (crates/vlorql-core/src/cache/normalize.rs): the keys of
 * every JSON object are sorted, down to a depth cap.
 */
module Normalize {
  import opened Prelude
  import opened Json
  import opened Values

  const MAX_SORT_DEPTH: nat := 64

  // ---- ordering keys ------------------------------------------------------

  predicate Before(s: string, t: string) {
    OrderStrings(s, t).Less?
  }

  ghost predicate Increasing(keys: seq<string>) {
    forall i, j :: 0 <= i < j < |keys| ==> Before(keys[i], keys[j])
  }

  ghost predicate Distinct(keys: seq<string>) {
    forall i, j :: 0 <= i < j < |keys| ==> keys[i] != keys[j]
  }

  lemma {:induction false} BeforeIsTotal(s: string, t: string)
    ensures s == t || Before(s, t) || Before(t, s)
    ensures !(Before(s, t) && Before(t, s))
  {
    if s != [] && t != [] && s[0] == t[0] {
      BeforeIsTotal(s[1..], t[1..]);
      assert s == [s[0]] + s[1..];
      assert t == [t[0]] + t[1..];
    }
  }

  lemma {:induction false} BeforeIsTransitive(s: string, t: string, u: string)
    requires Before(s, t) && Before(t, u)
    ensures Before(s, u)
  {
    if s != [] && s[0] == t[0] == u[0] {
      BeforeIsTransitive(s[1..], t[1..], u[1..]);
    }
  }

  function InsertKey(key: string, keys: seq<string>): (r: seq<string>)
    ensures multiset(r) == multiset(keys) + multiset{key}
  {
    if keys == [] then [key]
    else if Before(keys[0], key) then
      assert keys == [keys[0]] + keys[1..];
      [keys[0]] + InsertKey(key, keys[1..])
    else [key] + keys
  }

  function SortKeys(keys: seq<string>): (r: seq<string>)
    ensures multiset(r) == multiset(keys)
    ensures |r| == |keys|
    ensures forall k :: k in r <==> k in keys
  {
    if keys == [] then []
    else
      assert keys == [keys[0]] + keys[1..];
      var r := InsertKey(keys[0], SortKeys(keys[1..]));
      assert forall k :: k in r <==> k in multiset(r);
      assert forall k :: k in keys <==> k in multiset(keys);
      assert |r| == |multiset(r)| == |multiset(keys)|;
      r
  }

  lemma {:induction false} InsertKeyKeepsOrder(key: string, keys: seq<string>)
    requires Increasing(keys) && key !in keys
    ensures Increasing(InsertKey(key, keys))
  {
    if keys != [] {
      var first, rest := keys[0], keys[1..];
      BeforeIsTotal(first, key);
      if Before(first, key) {
        InsertKeyKeepsOrder(key, rest);
        var r := InsertKey(key, rest);
        forall j | 0 <= j < |r|
          ensures Before(first, r[j])
        {
          assert r[j] in multiset(r);
        }
        Prepend(first, r);
      } else {
        forall j | 0 <= j < |keys|
          ensures Before(key, keys[j])
        {
          if j > 0 { BeforeIsTransitive(key, first, keys[j]); }
        }
        Prepend(key, keys);
      }
    }
  }

  lemma Prepend(key: string, keys: seq<string>)
    requires Increasing(keys) && forall j :: 0 <= j < |keys| ==> Before(key, keys[j])
    ensures Increasing([key] + keys)
  {
    var all := [key] + keys;
    forall i, j | 0 <= i < j < |all|
      ensures Before(all[i], all[j])
    {
      assert all[j] == keys[j - 1];
      if i > 0 { assert all[i] == keys[i - 1]; }
    }
  }

  lemma {:induction false} SortKeysSorts(keys: seq<string>)
    requires Distinct(keys)
    ensures Increasing(SortKeys(keys))
  {
    if keys != [] {
      SortKeysSorts(keys[1..]);
      assert keys[0] !in keys[1..];
      InsertKeyKeepsOrder(keys[0], SortKeys(keys[1..]));
    }
  }

  /** Sorted keys stand in the order of their characters, a key before those it begins. */
  lemma SortedKeysPrecede(keys: seq<string>, i: nat, j: nat)
    requires Distinct(keys) && i < j < |keys|
    ensures Precedes(SortKeys(keys)[i], SortKeys(keys)[j])
  {
    hide SortKeys, OrderStrings, Precedes;
    SortKeysSorts(keys);
    assert Before(SortKeys(keys)[i], SortKeys(keys)[j]);
    StringsAreOrderedIff(SortKeys(keys)[i], SortKeys(keys)[j]);
  }

  lemma IncreasingIsDistinct(keys: seq<string>)
    requires Increasing(keys)
    ensures Distinct(keys)
  {
    forall i, j | 0 <= i < j < |keys|
      ensures keys[i] != keys[j]
    {
      BeforeIsTotal(keys[i], keys[j]);
    }
  }

  lemma SomeMember(s: seq<string>)
    ensures s == [] || exists k :: k in s
  {
    if s != [] { assert s[0] in s; }
  }

  /** A set of keys has only one increasing listing. */
  lemma {:induction false} IncreasingIsUnique(s: seq<string>, t: seq<string>)
    requires Increasing(s) && Increasing(t)
    requires forall k :: k in s <==> k in t
    ensures s == t
  {
    if s == [] {
      SomeMember(t);
    } else {
      assert s[0] in t;
      FirstIsLeast(s, t);
      IncreasingIsDistinct(s);
      IncreasingIsDistinct(t);
      forall k
        ensures k in s[1..] <==> k in t[1..]
      {
        TailMembers(s, k);
        TailMembers(t, k);
      }
      IncreasingIsUnique(s[1..], t[1..]);
      assert s == [s[0]] + s[1..];
      assert t == [t[0]] + t[1..];
    }
  }

  lemma FirstIsLeast(s: seq<string>, t: seq<string>)
    requires Increasing(s) && Increasing(t)
    requires s != [] && t != [] && s[0] in t && t[0] in s
    ensures s[0] == t[0]
  {
    BeforeIsTotal(s[0], t[0]);
  }

  lemma TailMembers(s: seq<string>, k: string)
    requires Distinct(s) && s != []
    ensures k in s[1..] <==> k in s && k != s[0]
  {
    assert s == [s[0]] + s[1..];
    if k in s[1..] {
      var j :| 0 <= j < |s[1..]| && s[1..][j] == k;
      assert s[j + 1] == k;
    }
  }

  // ---- sorting a value ----------------------------------------------------

  function KeysOf(entries: seq<Entry>): (keys: seq<string>)
    ensures |keys| == |entries|
  {
    seq(|entries|, i requires 0 <= i < |entries| => entries[i].key)
  }

  function IndexOf(keys: seq<string>, key: string): (i: nat)
    requires key in keys
    ensures i < |keys| && keys[i] == key
  {
    if keys[0] == key then 0 else 1 + IndexOf(keys[1..], key)
  }

  /** The entries `keys[i] := values[i]`, listed in the order `order`. */
  function Arrange(order: seq<string>, keys: seq<string>, values: seq<Json>): (r: seq<Entry>)
    requires |keys| == |values|
    requires forall k :: k in order ==> k in keys
    ensures |r| == |order|
  {
    seq(|order|, j requires 0 <= j < |order| => Entry(order[j], values[IndexOf(keys, order[j])]))
  }

  function Sort(v: Json, depth: nat): Json
    decreases v
  {
    if depth >= MAX_SORT_DEPTH then v
    else
      match v
      case Object(entries) =>
        var keys := KeysOf(entries);
        var values := seq(|entries|, i requires 0 <= i < |entries| => Sort(entries[i].value, depth + 1));
        Object(Arrange(SortKeys(keys), keys, values))
      case Array(items) => Array(seq(|items|, i requires 0 <= i < |items| => Sort(items[i], depth + 1)))
      case _ => v
  }

  /** No object has a key twice: what makes the value one that a JSON map type can hold. */
  ghost predicate WellFormed(v: Json)
    decreases v
  {
    match v
    case Object(entries) =>
      && Distinct(KeysOf(entries))
      && forall i :: 0 <= i < |entries| ==> WellFormed(entries[i].value)
    case Array(items) => forall i :: 0 <= i < |items| ==> WellFormed(items[i])
    case _ => true
  }

  // ---- the in-place object case: values move from one map into another, key by key ---

  function Get(entries: seq<Entry>, key: string): (r: Option<Json>)
    ensures r.Some? ==> Entry(key, r.value) in entries
    ensures r.None? ==> forall e :: e in entries ==> e.key != key
  {
    if entries == [] then None
    else if entries[0].key == key then Some(entries[0].value)
    else Get(entries[1..], key)
  }

  function Without(entries: seq<Entry>, key: string): (r: seq<Entry>)
    ensures forall e :: e in r <==> e in entries && e.key != key
  {
    if entries == [] then []
    else if entries[0].key == key then Without(entries[1..], key)
    else [entries[0]] + Without(entries[1..], key)
  }

  /** A new key goes last; an old one keeps its place. */
  function With(entries: seq<Entry>, key: string, value: Json): (r: seq<Entry>)
    ensures (forall e :: e in entries ==> e.key != key) ==> r == entries + [Entry(key, value)]
  {
    if entries == [] then [Entry(key, value)]
    else if entries[0].key == key then [Entry(key, value)] + entries[1..]
    else [entries[0]] + With(entries[1..], key, value)
  }

  method SortValue(value: Json, depth: nat) returns (result: Json)
    requires WellFormed(value)
    ensures result == Sort(value, depth)
    decreases value
  {
    if depth >= MAX_SORT_DEPTH { return value; }
    match value
    case Object(entries) =>
      var sorted := SortObject(value, depth);
      result := Object(sorted);
    case Array(items) =>
      var sorted := [];
      for i := 0 to |items|
        invariant |sorted| == i
        invariant forall k :: 0 <= k < i ==> sorted[k] == Sort(items[k], depth + 1)
      {
        var item := SortValue(items[i], depth + 1);
        sorted := sorted + [item];
      }
      result := Array(sorted);
    case _ => result := value;
  }

  method SortObject(value: Json, depth: nat) returns (sorted: seq<Entry>)
    requires value.Object? && WellFormed(value) && depth < MAX_SORT_DEPTH
    ensures Sort(value, depth) == Object(sorted)
    decreases value, 0
  {
    hide Sort, Before, SortKeys, Get, Without, With, IndexOf;
    var source := value.entries;
    var keys := SortKeys(KeysOf(source));
    SortKeysSorts(KeysOf(value.entries));
    IncreasingIsDistinct(keys);
    ObjectStaysObject(value, depth);
    ghost var target := Sort(value, depth).entries;
    sorted := [];
    for i := 0 to |keys|
      invariant sorted == target[..i]
      invariant Remaining(source, value.entries, keys[..i])
    {
      var key := keys[i];
      ghost var k := PositionOf(value.entries, key);
      RemainingValue(source, value.entries, keys[..i], k);
      assert keys[..i + 1] == keys[..i] + [key];
      var found := Get(source, key);
      if found.Some? {
        source := Without(source, key);
        assert value decreases to value.entries[k].value;
        var inner := SortValue(found.value, depth + 1);
        SortedAt(value, depth, i, k);
        AppendedAt(target, i, inner);
        sorted := With(sorted, key, inner);
      }
    }
    assert target[..|keys|] == target;
  }

  ghost predicate Remaining(source: seq<Entry>, entries: seq<Entry>, done: seq<string>) {
    forall e :: e in source <==> e in entries && e.key !in done
  }

  lemma RemainingValue(source: seq<Entry>, entries: seq<Entry>, done: seq<string>, k: nat)
    requires Distinct(KeysOf(entries)) && k < |entries|
    requires Remaining(source, entries, done) && entries[k].key !in done
    ensures Get(source, entries[k].key) == Some(entries[k].value)
    ensures Remaining(Without(source, entries[k].key), entries, done + [entries[k].key])
  {
    hide Get, Without;
    var key := entries[k].key;
    assert entries[k] in source;
    SingleValue(entries, k, Get(source, key).value);
  }

  lemma AppendedAt(target: seq<Entry>, i: nat, value: Json)
    requires Distinct(KeysOf(target)) && i < |target|
    ensures With(target[..i], KeysOf(target)[i], value) == target[..i] + [Entry(target[i].key, value)]
  {
    hide With;
    forall e | e in target[..i]
      ensures e.key != target[i].key
    {
      var j :| 0 <= j < i && target[j] == e;
      assert KeysOf(target)[j] != KeysOf(target)[i];
    }
  }

  lemma ObjectStaysObject(v: Json, depth: nat)
    requires v.Object? && depth < MAX_SORT_DEPTH
    ensures Sort(v, depth).Object?
    ensures |Sort(v, depth).entries| == |v.entries|
    ensures KeysOf(Sort(v, depth).entries) == SortKeys(KeysOf(v.entries))
  {}

  ghost function PositionOf(entries: seq<Entry>, key: string): (k: nat)
    requires key in KeysOf(entries)
    ensures k < |entries| && entries[k].key == key
  {
    IndexOf(KeysOf(entries), key)
  }

  lemma SingleValue(entries: seq<Entry>, k: nat, value: Json)
    requires Distinct(KeysOf(entries)) && k < |entries|
    requires Entry(entries[k].key, value) in entries
    ensures value == entries[k].value
  {
    var j :| 0 <= j < |entries| && entries[j] == Entry(entries[k].key, value);
    assert KeysOf(entries)[j] == KeysOf(entries)[k];
  }

  /** The entry of a sorted object at each place. */
  lemma SortedAt(v: Json, depth: nat, i: nat, k: nat)
    requires v.Object? && Distinct(KeysOf(v.entries)) && depth < MAX_SORT_DEPTH
    requires i < |v.entries| && k < |v.entries|
    requires SortKeys(KeysOf(v.entries))[i] == v.entries[k].key
    ensures |Sort(v, depth).entries| == |v.entries|
    ensures Sort(v, depth).entries[i] == Entry(v.entries[k].key, Sort(v.entries[k].value, depth + 1))
  {
    hide Before, SortKeys, OrderStrings;
    var keys := KeysOf(v.entries);
    assert keys[IndexOf(keys, keys[k])] == keys[k];
  }
}
