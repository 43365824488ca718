/**
 * The cache of compiled queries (crates/vlorql-core/src/cache/compile_cache.rs): a bounded store
 * that may forget, and a mirror map that is written to disk.
 */
module CompileCache {
  import opened Prelude
  import opened Json

  type Hash = n: int | 0 <= n < 0x1_0000_0000_0000_0000

  datatype SqlDialect = Postgres | Sqlite | MySql

  datatype IdentifierQuoting = Never | Always | DoubleQuote | Backtick

  datatype CompileCacheKey = CompileCacheKey(planHash: Hash, dialect: SqlDialect, quoteStyle: IdentifierQuoting)

  datatype CompiledQuery = CompiledQuery(sql: string, parameters: seq<Json>, dialect: SqlDialect)

  /** What can happen to a cache; evictions and expiry are the bounded store's own doing. */
  datatype Event =
    | Inserted(key: CompileCacheKey, query: CompiledQuery)
    | Invalidated(key: CompileCacheKey)
    | Cleared
    | Evicted(victims: set<CompileCacheKey>)

  // ---- what a run says about one key --------------------------------------

  /** The last query inserted under `key` since it was last invalidated or everything was cleared. */
  ghost function Latest(history: seq<Event>, key: CompileCacheKey): Option<CompiledQuery> {
    if history == [] then None
    else
      var before := history[..|history| - 1];
      match history[|history| - 1]
      case Inserted(k, query) => if k == key then Some(query) else Latest(before, key)
      case Invalidated(k) => if k == key then None else Latest(before, key)
      case Cleared => None
      case Evicted(_) => Latest(before, key)
  }

  /** Whether the bounded store has dropped `key` since it was last inserted. */
  ghost predicate Dropped(history: seq<Event>, key: CompileCacheKey) {
    if history == [] then false
    else
      var before := history[..|history| - 1];
      match history[|history| - 1]
      case Inserted(k, _) => k != key && Dropped(before, key)
      case Evicted(victims) => key in victims || Dropped(before, key)
      case _ => Dropped(before, key)
  }

  ghost predicate Supersedes(e: Event, key: CompileCacheKey) {
    e.Cleared? || ((e.Inserted? || e.Invalidated?) && e.key == key)
  }

  /** Event `i` is the insertion that still stands. */
  ghost predicate StandsAt(history: seq<Event>, key: CompileCacheKey, query: CompiledQuery, i: nat) {
    && i < |history|
    && history[i] == Inserted(key, query)
    && forall j :: i < j < |history| ==> !Supersedes(history[j], key)
  }

  lemma {:induction false} LatestIsLastInsertion(history: seq<Event>, key: CompileCacheKey, query: CompiledQuery)
    ensures Latest(history, key) == Some(query) <==> exists i: nat :: StandsAt(history, key, query, i)
  {
    if history != [] {
      var n := |history| - 1;
      var before, last := history[..n], history[n];
      LatestIsLastInsertion(before, key, query);
      if Latest(history, key) == Some(query) {
        if Supersedes(last, key) {
          assert StandsAt(history, key, query, n);
        } else {
          var i :| StandsAt(before, key, query, i);
          assert StandsAt(history, key, query, i);
        }
      }
      if i: nat :| StandsAt(history, key, query, i) {
        if i < n { assert StandsAt(before, key, query, i); }
      }
    }
  }

  lemma {:induction false} DroppedIffEvictedSince(
    history: seq<Event>, key: CompileCacheKey, query: CompiledQuery, i: nat)
    requires StandsAt(history, key, query, i)
    ensures Dropped(history, key) <==>
      exists j :: i < j < |history| && history[j].Evicted? && key in history[j].victims
  {
    var n := |history| - 1;
    if i < n {
      var before := history[..n];
      assert StandsAt(before, key, query, i);
      DroppedIffEvictedSince(before, key, query, i);
      if Dropped(before, key) {
        var j :| i < j < |before| && before[j].Evicted? && key in before[j].victims;
        assert history[j] == before[j];
      }
    }
  }

  function Find(store: map<CompileCacheKey, CompiledQuery>, key: CompileCacheKey): (r: Option<CompiledQuery>)
    ensures r.Some? <==> key in store
  {
    if key in store then Some(store[key]) else None
  }

  // ---- the cache ----------------------------------------------------------

  class CompileCache {
    var inner: map<CompileCacheKey, CompiledQuery>
    var entries: map<CompileCacheKey, CompiledQuery>
    ghost var history: seq<Event>

    /** The two stores are what the run so far makes them. */
    ghost predicate Valid()
      reads this
    {
      && (forall key :: Find(entries, key) == Latest(history, key))
      && (forall key :: Find(inner, key) == if Dropped(history, key) then None else Latest(history, key))
    }

    constructor ()
      ensures Valid() && history == []
    {
      inner, entries, history := map[], map[], [];
    }

    method Get(key: CompileCacheKey) returns (result: Option<CompiledQuery>)
      requires Valid()
      ensures result == if Dropped(history, key) then None else Latest(history, key)
    {
      result := Find(inner, key);
    }

    method Insert(key: CompileCacheKey, query: CompiledQuery)
      requires Valid()
      modifies this
      ensures Valid() && history == old(history) + [Inserted(key, query)]
    {
      inner := inner[key := query];
      entries := entries[key := query];
      history := history + [Inserted(key, query)];
      assert history[..|history| - 1] == old(history);
    }

    method InvalidatePlan(key: CompileCacheKey)
      requires Valid()
      modifies this
      ensures Valid() && history == old(history) + [Invalidated(key)]
    {
      inner := inner - {key};
      entries := entries - {key};
      history := history + [Invalidated(key)];
      assert history[..|history| - 1] == old(history);
    }

    method Clear()
      requires Valid()
      modifies this
      ensures Valid() && history == old(history) + [Cleared]
    {
      inner := map[];
      entries := map[];
      history := history + [Cleared];
      assert history[..|history| - 1] == old(history);
    }

    /** The bounded store drops entries, for lack of room or because they have expired. */
    method Evict(victims: set<CompileCacheKey>)
      requires Valid()
      modifies this
      ensures Valid() && history == old(history) + [Evicted(victims)]
    {
      inner := inner - victims;
      history := history + [Evicted(victims)];
      assert history[..|history| - 1] == old(history);
    }

    /** What `persist` writes out. */
    method Persist() returns (saved: map<CompileCacheKey, CompiledQuery>)
      requires Valid()
      ensures forall key :: Find(saved, key) == Latest(history, key)
    {
      saved := entries;
    }

    /**
     A cache from what a file decodes to, `None` if there is no file or it does not decode: then
     the cache is empty. Otherwise it is filled in whatever order the map is walked, and the
     bounded store may drop entries, earlier ones and the newest alike, after each insertion.
     */
    constructor Load(decoded: Option<map<CompileCacheKey, CompiledQuery>>)
      ensures Valid() && entries == Decoded(decoded)
      ensures forall key :: Latest(history, key) == Find(Decoded(decoded), key)
      ensures decoded.None? ==> inner == map[] && history == []
    {
      inner, entries, history := map[], map[], [];
      new;
      if decoded.None? { return; }
      var saved := decoded.value;
      var rest := saved.Keys;
      while rest != {}
        invariant Valid() && rest <= saved.Keys
        invariant forall key :: Latest(history, key) == if key in rest then None else Find(saved, key)
        decreases |rest|
      {
        var key :| key in rest;
        ghost var before := history;
        Insert(key, saved[key]);
        assert history[..|history| - 1] == before;
        rest := rest - {key};
        ghost var inserted := history;
        var victims := SomeKeys(inner.Keys);
        Evict(victims);
        assert history[..|history| - 1] == inserted;
      }
      SameFinds(entries, saved, history);
    }
  }

  /** The entries a load starts from. */
  function Decoded(decoded: Option<map<CompileCacheKey, CompiledQuery>>): map<CompileCacheKey, CompiledQuery> {
    match decoded
    case None => map[]
    case Some(saved) => saved
  }

  /** Whatever the bounded store chooses to drop. */
  method SomeKeys(keys: set<CompileCacheKey>) returns (some: set<CompileCacheKey>)
    ensures some <= keys
  {
    assert {} <= keys;
    some :| some <= keys;
  }

  lemma SameFinds(
    a: map<CompileCacheKey, CompiledQuery>, b: map<CompileCacheKey, CompiledQuery>, history: seq<Event>)
    requires forall key :: Find(a, key) == Latest(history, key)
    requires forall key :: Latest(history, key) == Find(b, key)
    ensures a == b
  {
    hide Latest;
    forall key ensures Find(a, key) == Find(b, key) {
      assert Find(a, key) == Latest(history, key);
    }
    assert a.Keys == b.Keys by {
      forall key ensures key in a <==> key in b { assert Find(a, key) == Find(b, key); }
    }
    forall key | key in a ensures a[key] == b[key] { assert Find(a, key) == Find(b, key); }
  }

  // ---- runs ---------------------------------------------------------------

  /** What the bounded store holds, the mirror holds too, with the same value. */
  lemma InnerIsInEntries(cache: CompileCache, key: CompileCacheKey)
    requires cache.Valid() && key in cache.inner
    ensures key in cache.entries && cache.entries[key] == cache.inner[key]
  {
    assert Find(cache.inner, key) == Latest(cache.history, key);
  }

  /** A hit is the last insertion under the key that nothing has withdrawn since. */
  lemma HitIsLatest(cache: CompileCache, key: CompileCacheKey)
    requires cache.Valid()
    ensures Find(cache.inner, key).Some? ==>
      exists i: nat :: StandsAt(cache.history, key, Find(cache.inner, key).value, i)
  {
    if key in cache.inner {
      assert Find(cache.inner, key) == Latest(cache.history, key);
      LatestIsLastInsertion(cache.history, key, cache.inner[key]);
    }
  }

  /** A miss means the key was never inserted, was withdrawn, or was evicted since. */
  lemma MissIsWithdrawnOrEvicted(cache: CompileCache, key: CompileCacheKey, query: CompiledQuery, i: nat)
    requires cache.Valid() && Find(cache.inner, key).None?
    requires StandsAt(cache.history, key, query, i)
    ensures exists j ::
      i < j < |cache.history| && cache.history[j].Evicted? && key in cache.history[j].victims
  {
    LatestIsLastInsertion(cache.history, key, query);
    DroppedIffEvictedSince(cache.history, key, query, i);
    assert Latest(cache.history, key).Some?;
  }

  ghost predicate WasEvicted(history: seq<Event>, key: CompileCacheKey) {
    exists j :: 0 <= j < |history| && history[j].Evicted? && key in history[j].victims
  }

  /**
   `readBack` is what reading the written file gives. If that is the saved map, saving and loading
   keeps the mirror; a hit in the new cache is what the old one last had, even if evicted there;
   nothing invalidated or cleared comes back; and what is missing was evicted in the new cache
   itself. If the file does not decode, nothing comes back at all.
   */
  method SaveAndLoad(
    cache: CompileCache, readBack: map<CompileCacheKey, CompiledQuery> -> Option<map<CompileCacheKey, CompiledQuery>>)
    returns (restored: CompileCache)
    requires cache.Valid()
    ensures restored.Valid() && restored.entries == Decoded(readBack(cache.entries))
    ensures readBack(cache.entries).None? ==> restored.inner == map[] && restored.history == []
    ensures readBack(cache.entries) == Some(cache.entries) ==>
      && restored.entries == cache.entries
      && (forall key :: Latest(restored.history, key) == Latest(cache.history, key))
      && (forall key :: Find(restored.inner, key).Some? ==> Find(restored.inner, key) == Latest(cache.history, key))
      && (forall key :: Latest(cache.history, key).None? ==> Find(restored.inner, key).None?)
      && (forall key :: Latest(cache.history, key).Some? && Find(restored.inner, key).None? ==>
            WasEvicted(restored.history, key))
  {
    var saved := cache.Persist();
    SameFinds(cache.entries, saved, cache.history);
    restored := new CompileCache.Load(readBack(saved));
    if readBack(saved) == Some(saved) {
      forall key | Latest(cache.history, key).Some? && Find(restored.inner, key).None?
        ensures WasEvicted(restored.history, key)
      {
        DroppedWasEvicted(restored.history, key);
      }
    }
  }

  lemma {:induction false} DroppedWasEvicted(history: seq<Event>, key: CompileCacheKey)
    requires Dropped(history, key)
    ensures WasEvicted(history, key)
  {
    var n := |history| - 1;
    if history[n].Evicted? && key in history[n].victims {
      assert WasEvicted(history, key);
    } else {
      DroppedWasEvicted(history[..n], key);
      var j :| 0 <= j < n && history[..n][j].Evicted? && key in history[..n][j].victims;
      assert history[j] == history[..n][j];
    }
  }
}
