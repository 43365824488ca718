/** Key sorting is a canonical form, exactly as far as the depth cap lets it be one. */
module NormalizeLaws {
  import opened Json
  import opened Normalize

  /** What a JSON value says once the order of object keys is forgotten. */
  datatype Tree = Scalar(value: Json) | List(items: seq<Tree>) | Table(fields: map<string, Tree>)

  function Tabulate(keys: seq<string>, values: seq<Tree>): map<string, Tree>
    requires |keys| == |values|
  {
    map key | key in keys :: values[IndexOf(keys, key)]
  }

  function Meaning(v: Json): Tree
    decreases v
  {
    match v
    case Object(entries) =>
      var values := seq(|entries|, i requires 0 <= i < |entries| => Meaning(entries[i].value));
      Table(Tabulate(KeysOf(entries), values))
    case Array(items) => List(seq(|items|, i requires 0 <= i < |items| => Meaning(items[i])))
    case _ => Scalar(v)
  }

  /** Every object, at every depth, lists its keys in order. */
  ghost predicate InOrder(v: Json)
    decreases v
  {
    match v
    case Object(entries) =>
      && Increasing(KeysOf(entries))
      && forall i :: 0 <= i < |entries| ==> InOrder(entries[i].value)
    case Array(items) => forall i :: 0 <= i < |items| ==> InOrder(items[i])
    case _ => true
  }

  /** Whatever lies at or below the depth cap is in order already. */
  ghost predicate Settled(v: Json, depth: nat)
    decreases v
  {
    if depth >= MAX_SORT_DEPTH then InOrder(v)
    else
      match v
      case Object(entries) => forall i :: 0 <= i < |entries| ==> Settled(entries[i].value, depth + 1)
      case Array(items) => forall i :: 0 <= i < |items| ==> Settled(items[i], depth + 1)
      case _ => true
  }

  /** Below the depth cap no object has two keys that could be listed in another order. */
  predicate Reached(v: Json, depth: nat)
    decreases v
  {
    match v
    case Object(entries) =>
      && (depth < MAX_SORT_DEPTH || |entries| <= 1)
      && forall i :: 0 <= i < |entries| ==> Reached(entries[i].value, depth + 1)
    case Array(items) => forall i :: 0 <= i < |items| ==> Reached(items[i], depth + 1)
    case _ => true
  }

  // ---- sorting says the same thing ----------------------------------------

  lemma {:induction false} SortKeepsMeaning(v: Json, depth: nat)
    requires WellFormed(v)
    ensures Meaning(Sort(v, depth)) == Meaning(v)
    decreases v
  {
    hide Before, SortKeys, IndexOf;
    if depth < MAX_SORT_DEPTH {
      match v
      case Object(entries) =>
        forall i | 0 <= i < |entries|
          ensures Meaning(Sort(entries[i].value, depth + 1)) == Meaning(entries[i].value)
        {
          assert v decreases to entries[i].value;
          SortKeepsMeaning(entries[i].value, depth + 1);
        }
        SortedFieldsAgree(v, depth);
      case Array(items) =>
        forall i | 0 <= i < |items|
          ensures Meaning(Sort(items[i], depth + 1)) == Meaning(items[i])
        {
          SortKeepsMeaning(items[i], depth + 1);
        }
        assert Meaning(Sort(v, depth)).items == Meaning(v).items;
      case _ =>
    }
  }

  lemma SortedFieldsAgree(v: Json, depth: nat)
    requires v.Object? && WellFormed(v) && depth < MAX_SORT_DEPTH
    requires forall i :: 0 <= i < |v.entries| ==>
      Meaning(Sort(v.entries[i].value, depth + 1)) == Meaning(v.entries[i].value)
    ensures Meaning(Sort(v, depth)) == Meaning(v)
  {
    hide Before, SortKeys, IndexOf, Sort, Meaning;
    ObjectStaysObject(v, depth);
    var sorted := Sort(v, depth).entries;
    SortKeysSorts(KeysOf(v.entries));
    IncreasingIsDistinct(KeysOf(sorted));
    assert Sort(v, depth) == Object(sorted);
    assert v == Object(v.entries);
    FieldsOf(sorted);
    FieldsOf(v.entries);
    var left, right := Meaning(Sort(v, depth)).fields, Meaning(v).fields;
    forall key | key in right
      ensures left[key] == right[key]
    {
      var k := PositionOf(v.entries, key);
      var i := PositionOf(sorted, key);
      SortedAt(v, depth, i, k);
      FieldAt(v.entries, k);
      FieldAt(sorted, i);
    }
    assert left == right;
  }

  lemma FieldsOf(entries: seq<Entry>)
    ensures Meaning(Object(entries)).Table?
    ensures forall key :: key in Meaning(Object(entries)).fields <==> key in KeysOf(entries)
  {}

  lemma FieldAt(entries: seq<Entry>, i: nat)
    requires Distinct(KeysOf(entries)) && i < |entries|
    ensures Meaning(Object(entries)).Table?
    ensures entries[i].key in Meaning(Object(entries)).fields
    ensures Meaning(Object(entries)).fields[entries[i].key] == Meaning(entries[i].value)
  {
    hide Before;
    assert KeysOf(entries)[IndexOf(KeysOf(entries), KeysOf(entries)[i])] == KeysOf(entries)[i];
  }

  // ---- ordered values are determined by what they say ---------------------

  lemma {:induction false} OrderedFormIsUnique(v: Json, w: Json)
    requires InOrder(v) && InOrder(w) && Meaning(v) == Meaning(w)
    ensures v == w
    decreases v
  {
    hide Before, IndexOf, Meaning;
    MeaningKeepsKind(v);
    MeaningKeepsKind(w);
    match v
    case Object(entries) =>
      SameKeys(v, w);
      forall i | 0 <= i < |entries|
        ensures entries[i] == w.entries[i]
      {
        assert KeysOf(entries)[i] == KeysOf(w.entries)[i];
        FieldAt(entries, i);
        FieldAt(w.entries, i);
        assert v == Object(entries) && w == Object(w.entries);
        assert v decreases to entries[i].value;
        OrderedFormIsUnique(entries[i].value, w.entries[i].value);
      }
      assert entries == w.entries;
    case Array(items) =>
      ItemsOf(v);
      ItemsOf(w);
      forall i | 0 <= i < |items|
        ensures items[i] == w.items[i]
      {
        OrderedFormIsUnique(items[i], w.items[i]);
      }
      assert items == w.items;
    case _ =>
  }

  lemma MeaningKeepsKind(v: Json)
    ensures Meaning(v).Table? == v.Object?
    ensures Meaning(v).List? == v.Array?
    ensures Meaning(v).Scalar? ==> Meaning(v).value == v
  {}

  lemma ItemsOf(v: Json)
    requires v.Array?
    ensures Meaning(v).List? && |Meaning(v).items| == |v.items|
    ensures forall i :: 0 <= i < |v.items| ==> Meaning(v).items[i] == Meaning(v.items[i])
  {}

  lemma SameKeys(v: Json, w: Json)
    requires v.Object? && w.Object? && InOrder(v) && InOrder(w) && Meaning(v) == Meaning(w)
    ensures KeysOf(v.entries) == KeysOf(w.entries) && |v.entries| == |w.entries|
    ensures Distinct(KeysOf(v.entries))
  {
    hide Before, IndexOf, Meaning;
    assert v == Object(v.entries) && w == Object(w.entries);
    FieldsOf(v.entries);
    FieldsOf(w.entries);
    IncreasingIsUnique(KeysOf(v.entries), KeysOf(w.entries));
    IncreasingIsDistinct(KeysOf(v.entries));
  }

  // ---- the depth cap ------------------------------------------------------

  /** Sorting puts the whole value in order exactly when what it does not reach is in order. */
  lemma {:induction false} SortedIffSettled(v: Json, depth: nat)
    requires WellFormed(v)
    ensures InOrder(Sort(v, depth)) <==> Settled(v, depth)
    decreases v
  {
    hide Before, SortKeys, IndexOf;
    if depth < MAX_SORT_DEPTH {
      match v
      case Object(entries) =>
        forall i | 0 <= i < |entries|
          ensures InOrder(Sort(entries[i].value, depth + 1)) <==> Settled(entries[i].value, depth + 1)
        {
          assert v decreases to entries[i].value;
          SortedIffSettled(entries[i].value, depth + 1);
        }
        SortedObjectIffSettled(v, depth);
      case Array(items) =>
        forall i | 0 <= i < |items|
          ensures InOrder(Sort(items[i], depth + 1)) <==> Settled(items[i], depth + 1)
        {
          SortedIffSettled(items[i], depth + 1);
        }
        var sorted := Sort(v, depth);
        assert |sorted.items| == |items|;
        assert forall i :: 0 <= i < |items| ==> sorted.items[i] == Sort(items[i], depth + 1);
      case _ =>
    }
  }

  lemma SortedObjectIffSettled(v: Json, depth: nat)
    requires v.Object? && WellFormed(v) && depth < MAX_SORT_DEPTH
    requires forall i :: 0 <= i < |v.entries| ==>
      (InOrder(Sort(v.entries[i].value, depth + 1)) <==> Settled(v.entries[i].value, depth + 1))
    ensures InOrder(Sort(v, depth)) <==> Settled(v, depth)
  {
    hide Before, SortKeys, IndexOf, Sort;
    ObjectStaysObject(v, depth);
    var keys, order := KeysOf(v.entries), SortKeys(KeysOf(v.entries));
    SortKeysSorts(keys);
    var sorted := Sort(v, depth).entries;
    if InOrder(Sort(v, depth)) {
      forall k | 0 <= k < |v.entries|
        ensures Settled(v.entries[k].value, depth + 1)
      {
        assert keys[k] in order;
        var i := IndexOf(order, keys[k]);
        SortedAt(v, depth, i, k);
        assert InOrder(sorted[i].value);
      }
    }
    if Settled(v, depth) {
      forall i | 0 <= i < |sorted|
        ensures InOrder(sorted[i].value)
      {
        assert order[i] in order;
        var k := PositionOf(v.entries, order[i]);
        SortedAt(v, depth, i, k);
      }
    }
  }

  lemma {:induction false} ReachedIsSettled(v: Json, depth: nat)
    requires Reached(v, depth)
    ensures Settled(v, depth)
    ensures depth >= MAX_SORT_DEPTH ==> InOrder(v)
    decreases v
  {
    hide Before;
    match v
    case Object(entries) =>
      forall i | 0 <= i < |entries|
        ensures Settled(entries[i].value, depth + 1)
        ensures depth >= MAX_SORT_DEPTH ==> InOrder(entries[i].value)
      {
        assert v decreases to entries[i].value;
        ReachedIsSettled(entries[i].value, depth + 1);
      }
    case Array(items) =>
      forall i | 0 <= i < |items|
        ensures Settled(items[i], depth + 1)
        ensures depth >= MAX_SORT_DEPTH ==> InOrder(items[i])
      {
        ReachedIsSettled(items[i], depth + 1);
      }
    case _ =>
  }

  lemma {:induction false} MeaningKeepsReach(v: Json, w: Json, depth: nat)
    requires WellFormed(v) && WellFormed(w) && Meaning(v) == Meaning(w) && Reached(v, depth)
    ensures Reached(w, depth)
    decreases w
  {
    hide Before, IndexOf, Meaning;
    MeaningKeepsKind(v);
    MeaningKeepsKind(w);
    match w
    case Object(entries) =>
      assert v == Object(v.entries);
      FieldsOf(v.entries);
      FieldsOf(entries);
      FewKeys(v, w);
      forall i | 0 <= i < |entries|
        ensures Reached(entries[i].value, depth + 1)
      {
        FieldAt(entries, i);
        var k := PositionOf(v.entries, entries[i].key);
        FieldAt(v.entries, k);
        assert w decreases to entries[i].value;
        MeaningKeepsReach(v.entries[k].value, entries[i].value, depth + 1);
      }
    case Array(items) =>
      ItemsOf(v);
      ItemsOf(w);
      forall i | 0 <= i < |items|
        ensures Reached(items[i], depth + 1)
      {
        MeaningKeepsReach(v.items[i], items[i], depth + 1);
      }
    case _ =>
  }

  lemma FewKeys(v: Json, w: Json)
    requires v.Object? && w.Object? && Distinct(KeysOf(w.entries))
    requires forall key :: key in KeysOf(w.entries) ==> key in KeysOf(v.entries)
    ensures |v.entries| <= 1 ==> |w.entries| <= 1
  {
    var keys := KeysOf(w.entries);
    if |keys| >= 2 {
      assert keys[0] in keys && keys[1] in keys;
      var i := PositionOf(v.entries, keys[0]);
      var j := PositionOf(v.entries, keys[1]);
      assert i != j;
    }
  }

  // ---- main results -------------------------------------------------------

  /** Two values sort to the same one exactly when they differ in nothing but key order. */
  lemma SortIsCanonical(v: Json, w: Json)
    requires WellFormed(v) && WellFormed(w) && Settled(v, 0) && Settled(w, 0)
    ensures Sort(v, 0) == Sort(w, 0) <==> Meaning(v) == Meaning(w)
  {
    hide *;
    SortKeepsMeaning(v, 0);
    SortKeepsMeaning(w, 0);
    SortedIffSettled(v, 0);
    SortedIffSettled(w, 0);
    if Meaning(v) == Meaning(w) {
      OrderedFormIsUnique(Sort(v, 0), Sort(w, 0));
    }
  }

  /**
   * Every other key order of a value sorts to the same form exactly when no object at or below the
   * cap has two keys; in particular when every object is nested less than 64 deep.
   */
  lemma SortIsCanonicalIff(v: Json)
    requires WellFormed(v)
    ensures (forall w :: WellFormed(w) && Meaning(w) == Meaning(v) ==> Sort(w, 0) == Sort(v, 0)) <==>
      Reached(v, 0)
  {
    hide *;
    if Reached(v, 0) {
      ReachedIsSettled(v, 0);
      forall w | WellFormed(w) && Meaning(w) == Meaning(v)
        ensures Sort(w, 0) == Sort(v, 0)
      {
        MeaningKeepsReach(v, w, 0);
        ReachedIsSettled(w, 0);
        SortIsCanonical(w, v);
      }
    } else {
      FlipKeepsMeaning(v, 0);
      FlipShows(v, 0);
      assert WellFormed(Flip(v, 0)) && Meaning(Flip(v, 0)) == Meaning(v);
    }
  }

  /** A value in order is left alone, so with a map type that keeps its keys sorted nothing happens. */
  lemma {:induction false} OrderedIsUnchanged(v: Json, depth: nat)
    requires InOrder(v)
    ensures Sort(v, depth) == v
  {
    hide Before, Sort, Meaning, Settled;
    OrderedIsWellFormed(v);
    SortKeepsMeaning(v, depth);
    OrderedIsSettled(v, depth);
    SortedIffSettled(v, depth);
    OrderedFormIsUnique(Sort(v, depth), v);
  }

  lemma {:induction false} OrderedIsSettled(v: Json, depth: nat)
    requires InOrder(v)
    ensures Settled(v, depth)
    decreases v
  {
    match v
    case Object(entries) =>
      forall i | 0 <= i < |entries|
        ensures Settled(entries[i].value, depth + 1)
      {
        assert v decreases to entries[i].value;
        OrderedIsSettled(entries[i].value, depth + 1);
      }
    case Array(items) =>
      forall i | 0 <= i < |items|
        ensures Settled(items[i], depth + 1)
      {
        OrderedIsSettled(items[i], depth + 1);
      }
    case _ =>
  }

  lemma {:induction false} OrderedIsWellFormed(v: Json)
    requires InOrder(v)
    ensures WellFormed(v)
    decreases v
  {
    match v
    case Object(entries) =>
      IncreasingIsDistinct(KeysOf(entries));
      forall i | 0 <= i < |entries|
        ensures WellFormed(entries[i].value)
      {
        assert v decreases to entries[i].value;
        OrderedIsWellFormed(entries[i].value);
      }
    case Array(items) =>
      forall i | 0 <= i < |items|
        ensures WellFormed(items[i])
      {
        OrderedIsWellFormed(items[i]);
      }
    case _ =>
  }

  /** Sorting is idempotent, at any depth and whether or not it reaches everything. */
  lemma {:induction false} SortIsIdempotent(v: Json, depth: nat)
    requires WellFormed(v)
    ensures Sort(Sort(v, depth), depth) == Sort(v, depth)
    decreases v
  {
    hide Before, SortKeys, IndexOf;
    if depth < MAX_SORT_DEPTH {
      match v
      case Object(entries) =>
        forall i | 0 <= i < |entries|
          ensures Sort(Sort(entries[i].value, depth + 1), depth + 1) == Sort(entries[i].value, depth + 1)
        {
          assert v decreases to entries[i].value;
          SortIsIdempotent(entries[i].value, depth + 1);
        }
        ObjectSortIsIdempotent(v, depth);
      case Array(items) =>
        forall i | 0 <= i < |items|
          ensures Sort(Sort(items[i], depth + 1), depth + 1) == Sort(items[i], depth + 1)
        {
          SortIsIdempotent(items[i], depth + 1);
        }
      case _ =>
    }
  }

  lemma ObjectSortIsIdempotent(v: Json, depth: nat)
    requires v.Object? && WellFormed(v) && depth < MAX_SORT_DEPTH
    requires forall i :: 0 <= i < |v.entries| ==>
      Sort(Sort(v.entries[i].value, depth + 1), depth + 1) == Sort(v.entries[i].value, depth + 1)
    ensures Sort(Sort(v, depth), depth) == Sort(v, depth)
  {
    hide Before, SortKeys, IndexOf, Sort;
    var keys := KeysOf(v.entries);
    var once := Sort(v, depth);
    ObjectStaysObject(v, depth);
    ObjectStaysObject(once, depth);
    var twice := Sort(once, depth);
    SortKeysSorts(keys);
    IncreasingIsDistinct(KeysOf(once.entries));
    SortKeysSorts(KeysOf(once.entries));
    IncreasingIsUnique(SortKeys(KeysOf(once.entries)), KeysOf(once.entries));
    forall i | 0 <= i < |once.entries|
      ensures twice.entries[i] == once.entries[i]
    {
      assert SortKeys(keys)[i] in SortKeys(keys);
      SortedAt(v, depth, i, PositionOf(v.entries, SortKeys(keys)[i]));
      assert KeysOf(once.entries)[i] == once.entries[i].key;
      SortedAt(once, depth, i, i);
    }
    assert twice.entries == once.entries;
  }

  // ---- at the cap ---------------------------------------------------------

  /** Where an entry goes: to the mirrored place, but only at or below the cap. */
  function Place(n: nat, depth: nat, i: nat): (k: nat)
    requires i < n
    ensures k < n
  {
    if depth < MAX_SORT_DEPTH then i else n - 1 - i
  }

  /** The same value with the keys of every object at or below the cap listed backwards. */
  function Flip(v: Json, depth: nat): Json
    decreases v
  {
    match v
    case Object(entries) =>
      Object(InPlace(entries, depth, seq(|entries|, i requires 0 <= i < |entries| => Flip(entries[i].value, depth + 1))))
    case Array(items) => Array(seq(|items|, i requires 0 <= i < |items| => Flip(items[i], depth + 1)))
    case _ => v
  }

  function InPlace(entries: seq<Entry>, depth: nat, values: seq<Json>): (r: seq<Entry>)
    requires |values| == |entries|
    ensures |r| == |entries|
    ensures forall i :: 0 <= i < |entries| ==>
      r[Place(|entries|, depth, i)] == Entry(entries[i].key, values[i])
  {
    seq(|entries|, k requires 0 <= k < |entries| =>
      var i := Place(|entries|, depth, k);
      Entry(entries[i].key, values[i]))
  }

  lemma FlippedEntry(v: Json, depth: nat)
    requires v.Object?
    ensures Flip(v, depth).Object? && |Flip(v, depth).entries| == |v.entries|
    ensures forall i :: 0 <= i < |v.entries| ==>
      Flip(v, depth).entries[Place(|v.entries|, depth, i)]
      == Entry(v.entries[i].key, Flip(v.entries[i].value, depth + 1))
  {
    hide Before, Place, Sort, Meaning;
  }

  lemma FlippedKeys(v: Json, depth: nat)
    requires v.Object? && Distinct(KeysOf(v.entries))
    ensures Flip(v, depth).Object? && Distinct(KeysOf(Flip(v, depth).entries))
    ensures forall key :: key in KeysOf(v.entries) <==> key in KeysOf(Flip(v, depth).entries)
    ensures depth < MAX_SORT_DEPTH ==> KeysOf(v.entries) == KeysOf(Flip(v, depth).entries)
  {
    hide Flip;
    FlippedEntry(v, depth);
    var keys, flipped := KeysOf(v.entries), KeysOf(Flip(v, depth).entries);
    assert forall i :: 0 <= i < |keys| ==> flipped[Place(|v.entries|, depth, i)] == keys[i];
    assert forall i :: 0 <= i < |keys| ==> Place(|v.entries|, depth, Place(|v.entries|, depth, i)) == i;
    assert forall i :: 0 <= i < |keys| ==> flipped[i] == keys[Place(|v.entries|, depth, i)];
  }

  lemma {:induction false} FlipKeepsMeaning(v: Json, depth: nat)
    requires WellFormed(v)
    ensures WellFormed(Flip(v, depth))
    ensures Meaning(Flip(v, depth)) == Meaning(v)
    decreases v
  {
    hide Before, IndexOf;
    match v
    case Object(entries) =>
      forall i | 0 <= i < |entries|
        ensures WellFormed(Flip(entries[i].value, depth + 1))
        ensures Meaning(Flip(entries[i].value, depth + 1)) == Meaning(entries[i].value)
      {
        assert v decreases to entries[i].value;
        FlipKeepsMeaning(entries[i].value, depth + 1);
      }
      FlippedObjectMeans(v, depth);
    case Array(items) =>
      forall i | 0 <= i < |items|
        ensures WellFormed(Flip(items[i], depth + 1))
        ensures Meaning(Flip(items[i], depth + 1)) == Meaning(items[i])
      {
        FlipKeepsMeaning(items[i], depth + 1);
      }
      assert Meaning(Flip(v, depth)).items == Meaning(v).items;
    case _ =>
  }

  lemma FlippedObjectMeans(v: Json, depth: nat)
    requires v.Object? && WellFormed(v)
    requires forall i :: 0 <= i < |v.entries| ==> WellFormed(Flip(v.entries[i].value, depth + 1))
    requires forall i :: 0 <= i < |v.entries| ==>
      Meaning(Flip(v.entries[i].value, depth + 1)) == Meaning(v.entries[i].value)
    ensures WellFormed(Flip(v, depth))
    ensures Meaning(Flip(v, depth)) == Meaning(v)
  {
    hide Before, IndexOf, Flip, Meaning;
    FlippedEntry(v, depth);
    FlippedKeys(v, depth);
    var flipped := Flip(v, depth).entries;
    forall k | 0 <= k < |flipped|
      ensures WellFormed(flipped[k].value)
    {
      var i := Place(|v.entries|, depth, k);
      assert Place(|v.entries|, depth, i) == k;
    }
    assert Flip(v, depth) == Object(flipped);
    assert v == Object(v.entries);
    FieldsOf(flipped);
    FieldsOf(v.entries);
    var left, right := Meaning(Flip(v, depth)).fields, Meaning(v).fields;
    forall key | key in right
      ensures left[key] == right[key]
    {
      var i := PositionOf(v.entries, key);
      FieldAt(v.entries, i);
      FieldAt(flipped, Place(|v.entries|, depth, i));
    }
    assert left == right;
  }

  lemma {:induction false} FlipDiffers(v: Json, depth: nat)
    requires WellFormed(v) && !Reached(v, depth) && depth >= MAX_SORT_DEPTH
    ensures Flip(v, depth) != v
    decreases v
  {
    hide Before, Flip;
    match v
    case Object(entries) =>
      FlippedEntry(v, depth);
      var last := |entries| - 1;
      if last >= 1 {
        assert Flip(v, depth).entries[Place(|entries|, depth, last)].key == KeysOf(entries)[last];
        assert KeysOf(entries)[0] != KeysOf(entries)[last];
      } else {
        var i :| 0 <= i < |entries| && !Reached(entries[i].value, depth + 1);
        assert v decreases to entries[i].value;
        FlipDiffers(entries[i].value, depth + 1);
        assert Place(|entries|, depth, i) == i;
      }
    case Array(items) =>
      var i :| 0 <= i < |items| && !Reached(items[i], depth + 1);
      FlipDiffers(items[i], depth + 1);
      FlippedItem(v, depth, i);
  }

  lemma FlippedItem(v: Json, depth: nat, i: nat)
    requires v.Array? && i < |v.items|
    ensures Flip(v, depth).Array? && |Flip(v, depth).items| == |v.items|
    ensures Flip(v, depth).items[i] == Flip(v.items[i], depth + 1)
  {}

  lemma {:induction false} FlipShows(v: Json, depth: nat)
    requires WellFormed(v) && !Reached(v, depth)
    ensures Sort(Flip(v, depth), depth) != Sort(v, depth)
    decreases v
  {
    hide Before, Flip, Sort;
    if depth >= MAX_SORT_DEPTH {
      FlipDiffers(v, depth);
      BeyondCap(v, depth);
      BeyondCap(Flip(v, depth), depth);
    } else {
      match v
      case Object(entries) =>
        var i :| 0 <= i < |entries| && !Reached(entries[i].value, depth + 1);
        assert v decreases to entries[i].value;
        FlipShows(entries[i].value, depth + 1);
        FlipShowsAt(v, depth, i);
      case Array(items) =>
        var i :| 0 <= i < |items| && !Reached(items[i], depth + 1);
        FlipShows(items[i], depth + 1);
        FlippedItem(v, depth, i);
        SortedItem(v, depth, i);
        SortedItem(Flip(v, depth), depth, i);
    }
  }

  lemma BeyondCap(v: Json, depth: nat)
    requires depth >= MAX_SORT_DEPTH
    ensures Sort(v, depth) == v
  {}

  lemma SortedItem(v: Json, depth: nat, i: nat)
    requires v.Array? && i < |v.items| && depth < MAX_SORT_DEPTH
    ensures Sort(v, depth).Array? && |Sort(v, depth).items| == |v.items|
    ensures Sort(v, depth).items[i] == Sort(v.items[i], depth + 1)
  {}

  lemma FlipShowsAt(v: Json, depth: nat, k: nat)
    requires v.Object? && WellFormed(v) && depth < MAX_SORT_DEPTH && k < |v.entries|
    requires Sort(Flip(v.entries[k].value, depth + 1), depth + 1) != Sort(v.entries[k].value, depth + 1)
    ensures Sort(Flip(v, depth), depth) != Sort(v, depth)
  {
    hide Before, SortKeys, IndexOf, Sort, Flip;
    FlippedEntry(v, depth);
    FlippedKeys(v, depth);
    var keys := KeysOf(v.entries);
    assert keys[k] in SortKeys(keys);
    var i := IndexOf(SortKeys(keys), keys[k]);
    SortedAt(v, depth, i, k);
    assert Place(|v.entries|, depth, k) == k;
    SortedAt(Flip(v, depth), depth, i, k);
  }

  /** Two key orders of one object under 64 arrays keep two forms. */
  lemma CapBreaksCanonicalForm()
    ensures
      var v := Object([Entry("a", Null), Entry("b", Null)]);
      var w := Object([Entry("b", Null), Entry("a", Null)]);
      var deepV, deepW := Wrapped(v, 64), Wrapped(w, 64);
      && WellFormed(deepV) && WellFormed(deepW)
      && Meaning(deepV) == Meaning(deepW)
      && Sort(deepV, 0) != Sort(deepW, 0)
      && Sort(Wrapped(v, 63), 0) == Sort(Wrapped(w, 63), 0)
  {
    hide Sort, Meaning, Before, SortKeys, IndexOf;
    var v := Object([Entry("a", Null), Entry("b", Null)]);
    var w := Object([Entry("b", Null), Entry("a", Null)]);
    assert KeysOf(v.entries) == ["a", "b"];
    assert KeysOf(w.entries) == ["b", "a"];
    TwoKeysMean(v.entries, w.entries);
    WrappedSort(v, MAX_SORT_DEPTH, 0);
    WrappedSort(w, MAX_SORT_DEPTH, 0);
    WrappedMeaning(v, w, MAX_SORT_DEPTH);
    LastObjectSorts(v, w);
    WrappedSortsInside(v, 63, 0);
    WrappedSortsInside(w, 63, 0);
  }

  lemma LastObjectSorts(v: Json, w: Json)
    requires v == Object([Entry("a", Null), Entry("b", Null)]) && w == Object([Entry("b", Null), Entry("a", Null)])
    ensures Sort(v, 63) == Sort(w, 63)
  {
    hide Before, SortKeys, IndexOf, Sort;
    assert KeysOf(v.entries) == ["a", "b"] && KeysOf(w.entries) == ["b", "a"];
    SortKeysSorts(["a", "b"]);
    SortKeysSorts(["b", "a"]);
    IncreasingIsUnique(SortKeys(["a", "b"]), SortKeys(["b", "a"]));
    SameSorted(v, w);
  }

  lemma SameSorted(v: Json, w: Json)
    requires v.Object? && Distinct(KeysOf(v.entries)) && w.Object? && Distinct(KeysOf(w.entries))
    requires |v.entries| == |w.entries| && SortKeys(KeysOf(v.entries)) == SortKeys(KeysOf(w.entries))
    requires forall k :: 0 <= k < |v.entries| ==> v.entries[k].value == Null && w.entries[k].value == Null
    ensures Sort(v, 63) == Sort(w, 63)
  {
    hide SortKeys, Sort, Before;
    ObjectStaysObject(v, 63);
    ObjectStaysObject(w, 63);
    forall i | 0 <= i < |v.entries| ensures Sort(v, 63).entries[i] == Sort(w, 63).entries[i] {
      NullEntry(v, i);
      NullEntry(w, i);
    }
    assert Sort(v, 63).entries == Sort(w, 63).entries;
  }

  lemma NullEntry(v: Json, i: nat)
    requires v.Object? && Distinct(KeysOf(v.entries)) && i < |v.entries|
    requires forall k :: 0 <= k < |v.entries| ==> v.entries[k].value == Null
    ensures Sort(v, 63).Object? && |Sort(v, 63).entries| == |v.entries|
    ensures Sort(v, 63).entries[i] == Entry(SortKeys(KeysOf(v.entries))[i], Null)
  {
    hide SortKeys, Before;
    var k := PositionOf(v.entries, SortKeys(KeysOf(v.entries))[i]);
    ObjectStaysObject(v, 63);
    SortedAt(v, 63, i, k);
  }

  lemma {:induction false} WrappedSortsInside(v: Json, arrays: nat, depth: nat)
    requires arrays + depth == 63
    ensures Sort(Wrapped(v, arrays), depth) == Wrapped(Sort(v, 63), arrays)
  {
    if arrays > 0 {
      WrappedSortsInside(v, arrays - 1, depth + 1);
      assert Sort(Wrapped(v, arrays), depth).items == [Sort(Wrapped(v, arrays - 1), depth + 1)];
    }
  }

  function Wrapped(v: Json, arrays: nat): Json {
    if arrays == 0 then v else Array([Wrapped(v, arrays - 1)])
  }

  lemma {:induction false} WrappedSort(v: Json, arrays: nat, depth: nat)
    requires WellFormed(v) && arrays + depth == MAX_SORT_DEPTH
    ensures WellFormed(Wrapped(v, arrays))
    ensures Sort(Wrapped(v, arrays), depth) == Wrapped(v, arrays)
  {
    if arrays > 0 { WrappedSort(v, arrays - 1, depth + 1); }
  }

  lemma {:induction false} WrappedMeaning(v: Json, w: Json, arrays: nat)
    requires Meaning(v) == Meaning(w) && v != w
    ensures Meaning(Wrapped(v, arrays)) == Meaning(Wrapped(w, arrays))
    ensures Wrapped(v, arrays) != Wrapped(w, arrays)
  {
    if arrays > 0 { WrappedMeaning(v, w, arrays - 1); }
  }

  lemma TwoKeysMean(es: seq<Entry>, fs: seq<Entry>)
    requires |es| == |fs| == 2 && es[0] == fs[1] && es[1] == fs[0] && es[0].key != es[1].key
    ensures Meaning(Object(es)) == Meaning(Object(fs))
  {
    hide Meaning, Before, IndexOf;
    assert KeysOf(es) == [es[0].key, es[1].key];
    assert KeysOf(fs) == [es[1].key, es[0].key];
    FieldAt(es, 0);
    FieldAt(es, 1);
    FieldAt(fs, 0);
    FieldAt(fs, 1);
    FieldsOf(es);
    FieldsOf(fs);
    assert Meaning(Object(es)).fields == Meaning(Object(fs)).fields;
  }
}
