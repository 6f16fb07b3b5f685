/**
 * The normalized cache (src/store/index.js). The Redux store it dispatches
 * to is replaced by a table the store owns and updates with the reducer.
 * What the request dispatcher settles each fetch with, and what a query
 * resolves to, are inputs. Subscriber callbacks are tokens, and every call
 * `callback(ids, action)` is appended to a log, as is every logged error.
 */
module EntityStore {
  import opened Values
  import opened Reducer

  /** The action type a notification carries: UPDATE_ENTITY_DATA or REMOVE_ENTITY_DATA. */
  datatype Kind = UpdateKind | RemoveKind

  /** A subscriber callback, named by a token. */
  type Callback = nat

  /** One call `callback(ids, action)`. */
  datatype Notification = Notification(callback: Callback, ids: seq<Value>, kind: Kind)

  /** The subscription list of one type: `unsubscribe` nulls a slot, it never removes one. */
  type Slots = seq<Option<Callback>>

  // ---------------------------------------------------------------------
  // Peeks: reads of the table, nothing else

  predicate Cached(state: State, t: string, id: Value) {
    id in TableOf(state, t)
  }

  /** `state[reducer]?.[typeName]?.[id] ?? null` */
  function PeekEntityById(state: State, t: string, id: Value): (r: Option<Record>)
    ensures r.Some? <==> t in state && id in state[t]
    ensures r.Some? ==> r.value == state[t][id]
  {
    var table := TableOf(state, t);
    if id in table then Some(table[id]) else None
  }

  /**
   * `ids.map(id => entitiesById[id] ?? null).filter(entity => !!entity)`.
   * Stored records are objects, hence truthy: only the misses drop out.
   */
  function PeekEntitiesByIds(state: State, t: string, ids: seq<Value>): (r: seq<Record>)
    ensures |r| <= |ids|
    decreases |ids|
  {
    if ids == [] then []
    else
      var front := PeekEntitiesByIds(state, t, ids[..|ids| - 1]);
      match PeekEntityById(state, t, ids[|ids| - 1])
      case Some(e) => front + [e]
      case None => front
  }

  /** The requested ids that are cached, in the order requested (repeats kept). */
  function CachedRun(state: State, t: string, ids: seq<Value>): seq<Value>
    decreases |ids|
  {
    if ids == [] then []
    else
      var front := CachedRun(state, t, ids[..|ids| - 1]);
      if Cached(state, t, ids[|ids| - 1]) then front + [ids[|ids| - 1]] else front
  }

  /** The peek returns, in request order, the record of each requested id that is cached. */
  lemma {:induction false} PeekManyInOrder(state: State, t: string, ids: seq<Value>)
    ensures |PeekEntitiesByIds(state, t, ids)| == |CachedRun(state, t, ids)|
    ensures forall k :: 0 <= k < |CachedRun(state, t, ids)| ==>
      CachedRun(state, t, ids)[k] in TableOf(state, t) &&
      PeekEntitiesByIds(state, t, ids)[k] == TableOf(state, t)[CachedRun(state, t, ids)[k]]
    decreases |ids|
  {
    if ids != [] {
      PeekManyInOrder(state, t, ids[..|ids| - 1]);
    }
  }

  /** When every requested id is cached, the peek returns one record per id, in order. */
  lemma {:induction false} PeekManyAllCached(state: State, t: string, ids: seq<Value>)
    requires forall k :: 0 <= k < |ids| ==> ids[k] in TableOf(state, t)
    ensures CachedRun(state, t, ids) == ids
    ensures |PeekEntitiesByIds(state, t, ids)| == |ids|
    ensures forall k :: 0 <= k < |ids| ==> PeekEntitiesByIds(state, t, ids)[k] == TableOf(state, t)[ids[k]]
    decreases |ids|
  {
    if ids != [] {
      var front := ids[..|ids| - 1];
      assert forall k :: 0 <= k < |front| ==> front[k] == ids[k];
      PeekManyAllCached(state, t, front);
      PeekManyInOrder(state, t, ids);
    }
  }

  /** A record is returned exactly when it is stored under one of the requested ids. */
  lemma {:induction false} PeekManyMembers(state: State, t: string, ids: seq<Value>)
    ensures forall e :: e in PeekEntitiesByIds(state, t, ids) <==>
      exists k :: 0 <= k < |ids| && Cached(state, t, ids[k]) && e == TableOf(state, t)[ids[k]]
    decreases |ids|
  {
    if ids != [] {
      var front := ids[..|ids| - 1];
      var last := ids[|ids| - 1];
      PeekManyMembers(state, t, front);
      var r := PeekEntitiesByIds(state, t, ids);
      forall e ensures e in r <==>
        exists k :: 0 <= k < |ids| && Cached(state, t, ids[k]) && e == TableOf(state, t)[ids[k]]
      {
        if e in r {
          if e in PeekEntitiesByIds(state, t, front) {
            var k :| 0 <= k < |front| && Cached(state, t, front[k]) && e == TableOf(state, t)[front[k]];
            assert ids[k] == front[k];
          } else {
            assert Cached(state, t, ids[|ids| - 1]) && e == TableOf(state, t)[ids[|ids| - 1]];
          }
        }
        if exists k :: 0 <= k < |ids| && Cached(state, t, ids[k]) && e == TableOf(state, t)[ids[k]] {
          var k :| 0 <= k < |ids| && Cached(state, t, ids[k]) && e == TableOf(state, t)[ids[k]];
          if k < |front| {
            assert front[k] == ids[k];
          }
        }
      }
    }
  }

  // ---------------------------------------------------------------------
  // findEntitiesByIds: which ids it loads

  /** `new Set(records.map(entity => entity.id))` */
  function IdSet(es: seq<Record>): set<Value> {
    set k | 0 <= k < |es| :: IdOf(es[k])
  }

  /** The ids the cache holds among those requested. */
  function CachedSet(state: State, t: string, ids: seq<Value>): set<Value> {
    set id | id in ids && Cached(state, t, id)
  }

  /** Where `x` first occurs in `ids`. */
  function FirstIndex(ids: seq<Value>, x: Value): (k: nat)
    requires x in ids
    ensures k < |ids| && ids[k] == x && x !in ids[..k]
    decreases |ids|
  {
    if ids[0] == x then 0
    else
      var k := 1 + FirstIndex(ids[1..], x);
      assert ids[..k] == [ids[0]] + ids[1..][..k - 1];
      k
  }

  /** An index holding a value not seen before it is that value's first index. */
  lemma FirstIndexAt(ids: seq<Value>, k: nat)
    requires k < |ids| && ids[k] !in ids[..k]
    ensures FirstIndex(ids, ids[k]) == k
  {
  }

  /** Appending to a list keeps the first index of every value already in it. */
  lemma FirstIndexInit(ids: seq<Value>, x: Value)
    requires ids != [] && x in ids[..|ids| - 1]
    ensures x in ids && FirstIndex(ids, x) == FirstIndex(ids[..|ids| - 1], x)
  {
    var init := ids[..|ids| - 1];
    var k := FirstIndex(init, x);
    assert ids[..k] == init[..k];
    assert ids[k] == x;
    FirstIndexAt(ids, k);
  }

  /** Every value of `r` occurs in `ids`, and `r` lists them in the order of their first occurrence. */
  predicate InFirstOrder(ids: seq<Value>, r: seq<Value>) {
    && (forall x :: x in r ==> x in ids)
    && (forall i, j :: 0 <= i < j < |r| ==> FirstIndex(ids, r[i]) < FirstIndex(ids, r[j]))
  }

  /** One more id keeps the order of first occurrences of the ids before it. */
  lemma InFirstOrderInit(ids: seq<Value>, front: seq<Value>)
    requires ids != [] && InFirstOrder(ids[..|ids| - 1], front)
    ensures InFirstOrder(ids, front)
  {
    forall x | x in ids[..|ids| - 1] ensures x in ids && FirstIndex(ids, x) == FirstIndex(ids[..|ids| - 1], x) {
      FirstIndexInit(ids, x);
    }
  }

  /** An id not seen before comes last in the order of first occurrences. */
  lemma InFirstOrderNew(ids: seq<Value>, front: seq<Value>)
    requires ids != [] && InFirstOrder(ids[..|ids| - 1], front)
    requires ids[|ids| - 1] !in ids[..|ids| - 1]
    ensures InFirstOrder(ids, front + [ids[|ids| - 1]])
  {
    var init := ids[..|ids| - 1];
    var r := front + [ids[|ids| - 1]];
    FirstIndexAt(ids, |ids| - 1);
    forall x | x in r ensures x in ids {
      if x in front {
        FirstIndexInit(ids, x);
      }
    }
    forall i, j | 0 <= i < j < |r| ensures FirstIndex(ids, r[i]) < FirstIndex(ids, r[j]) {
      assert r[i] == front[i];
      FirstIndexInit(ids, r[i]);
      if j < |front| {
        assert r[j] == front[j];
        FirstIndexInit(ids, r[j]);
      }
    }
  }

  /** Iterating `new Set(ids)`: each id once, in the order of its first occurrence. */
  function FirstOccurrences(ids: seq<Value>): (r: seq<Value>)
    ensures Distinct(r) && Elems(r) == Elems(ids)
    ensures InFirstOrder(ids, r)
    decreases |ids|
  {
    if ids == [] then []
    else
      var front := FirstOccurrences(ids[..|ids| - 1]);
      var last := ids[|ids| - 1];
      assert forall x :: x in ids <==> x in ids[..|ids| - 1] || x == last;
      if last in front then
        InFirstOrderInit(ids, front);
        front
      else
        assert last !in Elems(ids[..|ids| - 1]);
        InFirstOrderNew(ids, front);
        DistinctSnoc(front, last);
        ElemsSnoc(front, last);
        front + [last]
  }

  /** A repeated id adds nothing to the iteration of a Set; a new one comes last. */
  lemma FirstOccurrencesSnoc(ids: seq<Value>, x: Value)
    ensures x in ids ==> FirstOccurrences(ids + [x]) == FirstOccurrences(ids)
    ensures x !in ids ==> FirstOccurrences(ids + [x]) == FirstOccurrences(ids) + [x]
  {
    var s := ids + [x];
    assert s[..|s| - 1] == ids && s[|s| - 1] == x;
    var front := FirstOccurrences(ids);
    assert x in front <==> x in Elems(front);
    assert x in ids <==> x in Elems(ids);
  }

  /** The ids of `s` not in `gone`, in order: what deleting `gone` from a Set leaves. */
  function Without(s: seq<Value>, gone: set<Value>): (r: seq<Value>)
    ensures Elems(r) == Elems(s) - gone
    ensures Distinct(s) ==> Distinct(r)
    decreases |s|
  {
    if s == [] then []
    else
      var front := Without(s[..|s| - 1], gone);
      var last := s[|s| - 1];
      assert forall x :: x in s <==> x in s[..|s| - 1] || x == last;
      if last in gone then front
      else
        ElemsSnoc(front, last);
        assert Distinct(s) ==> Distinct(front + [last]) by {
          if Distinct(s) {
            DistinctInit(s);
            assert last !in Elems(s[..|s| - 1]);
            assert last !in front by { assert last !in Elems(front); }
            DistinctSnoc(front, last);
          }
        }
        front + [last]
  }

  /** `[...missingIds]`: the requested ids, once each, minus the ids of the cached records. */
  function MissingIds(state: State, t: string, ids: seq<Value>): seq<Value> {
    Without(FirstOccurrences(ids), IdSet(PeekEntitiesByIds(state, t, ids)))
  }

  /** In a well-keyed cache the peeked records carry exactly the cached requested ids. */
  lemma PeekedIds(state: State, t: string, ids: seq<Value>)
    requires WellKeyed(state)
    ensures IdSet(PeekEntitiesByIds(state, t, ids)) == CachedSet(state, t, ids)
  {
    var r := PeekEntitiesByIds(state, t, ids);
    PeekManyMembers(state, t, ids);
    forall x ensures x in IdSet(r) <==> x in CachedSet(state, t, ids) {
      if x in IdSet(r) {
        var j :| 0 <= j < |r| && IdOf(r[j]) == x;
        assert r[j] in r;
        var k :| 0 <= k < |ids| && Cached(state, t, ids[k]) && r[j] == TableOf(state, t)[ids[k]];
        assert t in state;
      }
      if x in CachedSet(state, t, ids) {
        var k :| 0 <= k < |ids| && ids[k] == x;
        var e := TableOf(state, t)[x];
        assert e in r;
        var j :| 0 <= j < |r| && r[j] == e;
        assert t in state;
        assert IdOf(r[j]) == x;
      }
    }
  }

  /** The ids loaded are distinct, and are exactly the requested ids the cache lacks. */
  lemma MissingIdsExactly(state: State, t: string, ids: seq<Value>)
    requires WellKeyed(state)
    ensures Distinct(MissingIds(state, t, ids))
    ensures forall id :: id in MissingIds(state, t, ids) <==> id in ids && !Cached(state, t, id)
  {
    PeekedIds(state, t, ids);
    var m := MissingIds(state, t, ids);
    assert Elems(m) == Elems(FirstOccurrences(ids)) - CachedSet(state, t, ids);
    forall id ensures id in m <==> id in ids && !Cached(state, t, id) {
      assert id in m <==> id in Elems(m);
      assert id in ids <==> id in Elems(ids);
    }
  }

  /**
   * `existingIds.size === allIds.size`: in a well-keyed cache the sizes
   * agree exactly when every requested id is cached.
   */
  lemma AllCachedBySize(state: State, t: string, ids: seq<Value>)
    requires WellKeyed(state)
    ensures |IdSet(PeekEntitiesByIds(state, t, ids))| == |Elems(ids)| <==>
      forall k :: 0 <= k < |ids| ==> Cached(state, t, ids[k])
  {
    PeekedIds(state, t, ids);
    var c := CachedSet(state, t, ids);
    var all := Elems(ids);
    assert c <= all;
    assert all == c + (all - c);
    assert |all| == |c| + |all - c|;
    if forall k :: 0 <= k < |ids| ==> Cached(state, t, ids[k]) {
      forall x | x in all ensures x in c {
        var k :| 0 <= k < |ids| && ids[k] == x;
      }
      assert all - c == {};
    } else {
      var k :| 0 <= k < |ids| && !Cached(state, t, ids[k]);
      assert ids[k] in all - c;
    }
  }

  // ---------------------------------------------------------------------
  // What the loads write

  /** The stub `{ id }` a load writes before it asks the dispatcher. */
  function Stub(id: Value): Record {
    map["id" := id]
  }

  /** `ids.map(id => ({ id }))` */
  function Stubs(ids: seq<Value>): (r: seq<Record>)
    ensures |r| == |ids|
    decreases |ids|
  {
    if ids == [] then [] else Stubs(ids[..|ids| - 1]) + [Stub(ids[|ids| - 1])]
  }

  /** `entities.map(entity => entity.id)` */
  function IdsOf(es: seq<Record>): seq<Value>
    decreases |es|
  {
    if es == [] then [] else IdsOf(es[..|es| - 1]) + [IdOf(es[|es| - 1])]
  }

  /** The `successfulEntities` of `Promise.allSettled`, in request order. */
  function Fulfilled(ids: seq<Value>, fetch: Value -> Result<Record>): seq<Record>
    decreases |ids|
  {
    if ids == [] then []
    else
      var front := Fulfilled(ids[..|ids| - 1], fetch);
      match fetch(ids[|ids| - 1])
      case Ok(e) => front + [e]
      case Err(_) => front
  }

  /** The `failReasons`, in request order. */
  function FailReasons(ids: seq<Value>, fetch: Value -> Result<Record>): seq<Error>
    decreases |ids|
  {
    if ids == [] then []
    else
      var front := FailReasons(ids[..|ids| - 1], fetch);
      match fetch(ids[|ids| - 1])
      case Ok(_) => front
      case Err(err) => front + [err]
  }

  /**
   * Every settled fetch lands on exactly one side, and nothing failed
   * exactly when every fetch was fulfilled.
   */
  lemma {:induction false} SettledSplit(ids: seq<Value>, fetch: Value -> Result<Record>)
    ensures |Fulfilled(ids, fetch)| + |FailReasons(ids, fetch)| == |ids|
    ensures FailReasons(ids, fetch) == [] <==> forall k :: 0 <= k < |ids| ==> fetch(ids[k]).Ok?
    decreases |ids|
  {
    if ids != [] {
      var front := ids[..|ids| - 1];
      SettledSplit(front, fetch);
      assert forall k :: 0 <= k < |front| ==> front[k] == ids[k];
    }
  }

  /** The cache after `loadEntityById` settles with `outcome`: the stub, then the entity on success. */
  function AfterLoad(state: State, t: string, id: Value, outcome: Result<Record>): State {
    var stubbed := Reduce(state, UpdateEntityData(t, [Stub(id)]));
    if outcome.Ok? then Reduce(stubbed, UpdateEntityData(t, [outcome.value])) else stubbed
  }

  /**
   * A failed load leaves the stub in the cache: afterwards the id is cached
   * as its old record with `id` set, so a later `findEntityById` returns that
   * stub instead of loading again.
   */
  lemma FailedLoadLeavesStub(state: State, t: string, id: Value, err: Error)
    ensures PeekEntityById(AfterLoad(state, t, id, Err(err)), t, id)
         == Some(Merge(StoredOrEmpty(TableOf(state, t), id), Stub(id)))
  {
    assert Carries([Stub(id)], id) by { assert IdOf([Stub(id)][0]) == id; }
    assert LastWith([Stub(id)], id) == Stub(id);
    UpdateEffect(state, t, [Stub(id)]);
  }

  /**
   * A successful load for the id asked for leaves the old record, with `id`
   * set, overridden field by field by the loaded entity.
   */
  lemma LoadCommits(state: State, t: string, id: Value, e: Record)
    requires IdOf(e) == id
    ensures PeekEntityById(AfterLoad(state, t, id, Ok(e)), t, id)
         == Some(Merge(Merge(StoredOrEmpty(TableOf(state, t), id), Stub(id)), e))
  {
    assert IdOf(Stub(id)) == id;
    SuccessiveUpdates(state, t, Stub(id), e);
  }

  /** A load touches only the id it loads (and the entity's own id): other ids and other types keep their records. */
  lemma LoadLeavesOthers(state: State, t: string, id: Value, outcome: Result<Record>, u: string, other: Value)
    requires other != id && (outcome.Ok? ==> other != IdOf(outcome.value))
    requires Cached(state, u, other)
    ensures PeekEntityById(AfterLoad(state, t, id, outcome), u, other) == PeekEntityById(state, u, other)
  {
    var stubbed := Reduce(state, UpdateEntityData(t, [Stub(id)]));
    UpdateLeaves(state, t, Stub(id), u, other);
    if outcome.Ok? {
      UpdateLeaves(stubbed, t, outcome.value, u, other);
    }
  }

  /** A one-entity UPDATE keeps every record filed under another id or another type. */
  lemma UpdateLeaves(state: State, t: string, e: Record, u: string, other: Value)
    requires other != IdOf(e) && Cached(state, u, other)
    ensures PeekEntityById(Reduce(state, UpdateEntityData(t, [e])), u, other) == PeekEntityById(state, u, other)
  {
    UpdateOne(state, t, e);
  }

  /** The cache after `loadEntitiesByIds`: the stubs, then the fulfilled entities if there are any. */
  function AfterLoadMany(state: State, t: string, ids: seq<Value>, fetch: Value -> Result<Record>): State {
    var stubbed := Reduce(state, UpdateEntityData(t, Stubs(ids)));
    var ok := Fulfilled(ids, fetch);
    if |ok| > 0 then Reduce(stubbed, UpdateEntityData(t, ok)) else stubbed
  }

  lemma {:induction false} StubsCarry(ids: seq<Value>, id: Value)
    ensures Carries(Stubs(ids), id) <==> id in ids
    ensures id in ids ==> LastWith(Stubs(ids), id) == Stub(id)
    decreases |ids|
  {
    if ids != [] {
      var front := ids[..|ids| - 1];
      StubsCarry(front, id);
      CarriesFront(Stubs(ids), id);
      assert Stubs(ids)[..|ids| - 1] == Stubs(front);
      assert forall x :: x in ids <==> x in front || x == ids[|ids| - 1];
      assert IdOf(Stub(ids[|ids| - 1])) == ids[|ids| - 1];
    }
  }

  /** After `loadEntitiesByIds` every requested id is cached, whether its fetch succeeded or not. */
  lemma LoadManyCaches(state: State, t: string, ids: seq<Value>, fetch: Value -> Result<Record>, id: Value)
    requires id in ids
    ensures Cached(AfterLoadMany(state, t, ids, fetch), t, id)
  {
    var stubbed := Reduce(state, UpdateEntityData(t, Stubs(ids)));
    var ok := Fulfilled(ids, fetch);
    StubsCarry(ids, id);
    MergeDataAt(TableOf(state, t), TableOf(state, t), Stubs(ids), id);
    if |ok| > 0 {
      MergeDataAt(TableOf(stubbed, t), TableOf(stubbed, t), ok, id);
    }
  }

  /** Every fulfilled entity's fields are in the record filed under its id (the last one's, for a repeated id). */
  lemma LoadManyCommits(state: State, t: string, ids: seq<Value>, fetch: Value -> Result<Record>, id: Value)
    requires Carries(Fulfilled(ids, fetch), id)
    ensures Cached(AfterLoadMany(state, t, ids, fetch), t, id)
    ensures HasFields(TableOf(AfterLoadMany(state, t, ids, fetch), t)[id], LastWith(Fulfilled(ids, fetch), id))
  {
    var stubbed := Reduce(state, UpdateEntityData(t, Stubs(ids)));
    var ok := Fulfilled(ids, fetch);
    MergeDataAt(TableOf(stubbed, t), TableOf(stubbed, t), ok, id);
  }

  // ---------------------------------------------------------------------
  // The query commit: one UPDATE per entity, in order

  /** `entities.forEach(entity => this.updateEntity(typeName, entity))` */
  function UpdateEach(state: State, t: string, es: seq<Record>): State
    decreases |es|
  {
    if es == [] then state
    else Reduce(UpdateEach(state, t, es[..|es| - 1]), UpdateEntityData(t, [es[|es| - 1]]))
  }

  /** Every field of `e` is in `r`, with the value `e` gives it. */
  predicate HasFields(r: Record, e: Record) {
    forall f :: f in e ==> f in r && r[f] == e[f]
  }

  /** A one-entity UPDATE writes the old record merged with the entity under the entity's id. */
  lemma UpdateOne(state: State, t: string, e: Record)
    ensures Reduce(state, UpdateEntityData(t, [e]))
         == state[t := TableOf(state, t)[IdOf(e) := Merge(StoredOrEmpty(TableOf(state, t), IdOf(e)), e)]]
  {
    var d := [e];
    var table := TableOf(state, t);
    assert d[..|d| - 1] == [] && d[|d| - 1] == e;
    assert MergeData(table, table, d) == table[IdOf(e) := Merge(StoredOrEmpty(table, IdOf(e)), e)];
  }

  /** After the commit every entity's id is cached and holds the fields of the last entity with that id. */
  lemma {:induction false} QueryCommits(state: State, t: string, es: seq<Record>, id: Value)
    requires Carries(es, id)
    ensures Cached(UpdateEach(state, t, es), t, id)
    ensures HasFields(TableOf(UpdateEach(state, t, es), t)[id], LastWith(es, id))
    decreases |es|
  {
    var front := es[..|es| - 1];
    var last := es[|es| - 1];
    var mid := UpdateEach(state, t, front);
    UpdateOne(mid, t, last);
    CarriesFront(es, id);
    if IdOf(last) != id {
      QueryCommits(state, t, front, id);
    }
  }

  /** The commit keeps the record of every id no entity carries, and every other type's records. */
  lemma {:induction false} QueryLeavesOthers(state: State, t: string, es: seq<Record>, u: string, id: Value)
    requires u != t || !Carries(es, id)
    requires Cached(state, u, id)
    ensures PeekEntityById(UpdateEach(state, t, es), u, id) == PeekEntityById(state, u, id)
    decreases |es|
  {
    if es != [] {
      var front := es[..|es| - 1];
      var last := es[|es| - 1];
      CarriesFront(es, id);
      QueryLeavesOthers(state, t, front, u, id);
      UpdateOne(UpdateEach(state, t, front), t, last);
    }
  }

  /** Each step of the commit keeps every record filed under its own id. */
  lemma {:induction false} UpdateEachWellKeyed(state: State, t: string, es: seq<Record>)
    requires WellKeyed(state)
    ensures WellKeyed(UpdateEach(state, t, es))
    decreases |es|
  {
    if es != [] {
      UpdateEachWellKeyed(state, t, es[..|es| - 1]);
      ReducePreservesWellKeyed(UpdateEach(state, t, es[..|es| - 1]), UpdateEntityData(t, [es[|es| - 1]]));
    }
  }

  /**
   * The records before the first `null` of a fetched list: what the commit
   * has written when `entity.id` on that `null` throws.
   */
  function Lead(es: seq<Option<Record>>): (r: seq<Record>)
    ensures |r| <= |es|
    ensures forall k :: 0 <= k < |r| ==> es[k] == Some(r[k])
    ensures |r| < |es| ==> es[|r|].None?
    decreases |es|
  {
    if es == [] || es[0].None? then [] else [es[0].value] + Lead(es[1..])
  }

  /** The three clauses of `Lead`'s contract pin it down: any list that meets them is `Lead(es)`. */
  lemma {:induction false} LeadUnique(es: seq<Option<Record>>, r: seq<Record>)
    requires |r| <= |es|
    requires forall k :: 0 <= k < |r| ==> es[k] == Some(r[k])
    requires |r| < |es| ==> es[|r|].None?
    ensures r == Lead(es)
    decreases |es|
  {
    if es != [] && es[0].Some? {
      assert r != [];
      var tail := es[1..];
      forall k | 0 <= k < |r[1..]| ensures tail[k] == Some(r[1..][k]) {
        assert es[k + 1] == Some(r[k + 1]);
      }
      LeadUnique(tail, r[1..]);
      assert r == [r[0]] + r[1..];
    }
  }

  /** With no `null` in the list, the commit writes every entity of it. */
  lemma LeadAllPresent(es: seq<Option<Record>>)
    requires AllPresent(es)
    ensures Lead(es) == Present(es)
  {
    var r := Lead(es);
    assert |r| == |es|;
    forall k | 0 <= k < |r| ensures r[k] == Present(es)[k] {
      assert es[k] == Some(r[k]);
    }
  }

  /**
   * When entry `j` is the first `null`, the commit throws there, but every
   * record before it has already been written.
   */
  lemma QueryPartialCommit(state: State, t: string, es: seq<Option<Record>>, j: nat, k: nat)
    requires k < j < |es| && es[j].None?
    requires forall m :: 0 <= m < j ==> es[m].Some?
    ensures Cached(UpdateEach(state, t, Lead(es)), t, IdOf(es[k].value))
    ensures HasFields(TableOf(UpdateEach(state, t, Lead(es)), t)[IdOf(es[k].value)], LastWith(Lead(es), IdOf(es[k].value)))
  {
    var r := Lead(es);
    assert |r| == j;
    assert es[k] == Some(r[k]);
    assert Carries(r, IdOf(es[k].value));
    QueryCommits(state, t, r, IdOf(es[k].value));
  }

  // ---------------------------------------------------------------------
  // removeAllEntities

  /**
   * `Object.values(entitiesById)`, listed in `keyOrder`: the order in which
   * the JavaScript object enumerates its keys.
   */
  function PeekAllEntities(state: State, t: string, keyOrder: seq<Value>): seq<Record>
    requires forall k :: 0 <= k < |keyOrder| ==> keyOrder[k] in TableOf(state, t)
    decreases |keyOrder|
  {
    if keyOrder == [] then []
    else PeekAllEntities(state, t, keyOrder[..|keyOrder| - 1]) + [TableOf(state, t)[keyOrder[|keyOrder| - 1]]]
  }

  /** In a well-keyed cache the ids of all the records are the keys, in key order. */
  lemma {:induction false} PeekAllIds(state: State, t: string, keyOrder: seq<Value>)
    requires WellKeyed(state)
    requires forall k :: 0 <= k < |keyOrder| ==> keyOrder[k] in TableOf(state, t)
    ensures IdsOf(PeekAllEntities(state, t, keyOrder)) == keyOrder
    decreases |keyOrder|
  {
    if keyOrder != [] {
      var front := keyOrder[..|keyOrder| - 1];
      assert forall k :: 0 <= k < |front| ==> front[k] == keyOrder[k];
      PeekAllIds(state, t, front);
      var r := PeekAllEntities(state, t, keyOrder);
      assert r[..|r| - 1] == PeekAllEntities(state, t, front);
      assert t in state;
    }
  }

  /** Removing every key of a type's table empties that table and keeps the others. */
  lemma RemoveAllEmpties(state: State, t: string, keyOrder: seq<Value>)
    requires Elems(keyOrder) == TableOf(state, t).Keys
    ensures Reduce(state, RemoveEntityData(t, keyOrder)) == state[t := map[]]
  {
    RemoveEffect(state, t, keyOrder);
    var r := Reduce(state, RemoveEntityData(t, keyOrder));
    assert (set i | 0 <= i < |keyOrder| :: keyOrder[i]) == Elems(keyOrder) by {
      forall x | x in Elems(keyOrder) ensures x in (set i | 0 <= i < |keyOrder| :: keyOrder[i]) {
        var i :| 0 <= i < |keyOrder| && keyOrder[i] == x;
      }
    }
    assert r[t] == map[];
  }

  // ---------------------------------------------------------------------
  // Notification

  /** The calls `notify` makes: each non-null slot once, in subscription order. */
  function Calls(slots: Slots, ids: seq<Value>, kind: Kind): seq<Notification>
    decreases |slots|
  {
    if slots == [] then []
    else
      var front := Calls(slots[..|slots| - 1], ids, kind);
      match slots[|slots| - 1]
      case Some(cb) => front + [Notification(cb, ids, kind)]
      case None => front
  }

  /** Notifying slots one after another is notifying their concatenation. */
  lemma {:induction false} CallsAppend(a: Slots, b: Slots, ids: seq<Value>, kind: Kind)
    ensures Calls(a + b, ids, kind) == Calls(a, ids, kind) + Calls(b, ids, kind)
    decreases |b|
  {
    if b == [] {
      assert a + b == a;
    } else {
      var b0 := b[..|b| - 1];
      CallsAppend(a, b0, ids, kind);
      assert (a + b)[..|a + b| - 1] == a + b0;
      assert (a + b)[|a + b| - 1] == b[|b| - 1];
    }
  }

  /** Every call carries the ids and action notified, and goes to a callback still subscribed. */
  lemma {:induction false} CallsCarry(slots: Slots, ids: seq<Value>, kind: Kind)
    ensures forall n :: n in Calls(slots, ids, kind) ==>
      n.ids == ids && n.kind == kind && Some(n.callback) in slots
    decreases |slots|
  {
    if slots != [] {
      var front := slots[..|slots| - 1];
      CallsCarry(front, ids, kind);
      assert forall x :: x in front ==> x in slots;
    }
  }

  /** A subscription made before the notification is called last, once. */
  lemma SubscribeThenNotify(slots: Slots, cb: Callback, ids: seq<Value>, kind: Kind)
    ensures Calls(slots + [Some(cb)], ids, kind) == Calls(slots, ids, kind) + [Notification(cb, ids, kind)]
  {
    assert (slots + [Some(cb)])[..|slots|] == slots;
  }

  /**
   * Unsubscribing the slot at `index` silences that slot alone: the calls
   * are those of the slots before it followed by those of the slots after.
   */
  lemma UnsubscribeThenNotify(slots: Slots, index: nat, ids: seq<Value>, kind: Kind)
    requires index < |slots|
    ensures Calls(slots[index := None], ids, kind) == Calls(slots[..index], ids, kind) + Calls(slots[index + 1..], ids, kind)
    ensures Calls(slots, ids, kind) == Calls(slots[..index], ids, kind) + Calls(slots[index..index + 1], ids, kind)
                                                                      + Calls(slots[index + 1..], ids, kind)
  {
    var a, b := slots[..index], slots[index + 1..];
    assert slots[index := None] == a + [None] + b;
    assert slots == a + slots[index..index + 1] + b;
    CallsAppend(a + [None], b, ids, kind);
    CallsAppend(a, [None], ids, kind);
    assert Calls([None], ids, kind) == [];
    CallsAppend(a + slots[index..index + 1], b, ids, kind);
    CallsAppend(a, slots[index..index + 1], ids, kind);
  }

  // ---------------------------------------------------------------------
  // The store

  /** `allSettled`'s `results.forEach`: split the settled fetches into values and reasons. */
  method SplitSettled(ids: seq<Value>, fetch: Value -> Result<Record>) returns (successful: seq<Record>, failReasons: seq<Error>)
    ensures successful == Fulfilled(ids, fetch) && failReasons == FailReasons(ids, fetch)
  {
    successful, failReasons := [], [];
    var i := 0;
    while i < |ids|
      invariant 0 <= i <= |ids|
      invariant successful == Fulfilled(ids[..i], fetch) && failReasons == FailReasons(ids[..i], fetch)
    {
      assert ids[..i + 1][..i] == ids[..i];
      match fetch(ids[i]) {
        case Ok(e) => successful := successful + [e];
        case Err(err) => failReasons := failReasons + [err];
      }
      i := i + 1;
    }
    assert ids[..i] == ids;
  }

  class Store {
    var table: State
    var subscriptions: map<string, Slots>
    var notifications: seq<Notification>
    var logged: seq<Error>

    /** Every record is filed under its own `id`. */
    ghost predicate Valid()
      reads this
    {
      WellKeyed(table)
    }

    constructor()
      ensures Valid()
      ensures table == map[] && subscriptions == map[] && notifications == [] && logged == []
    {
      table := map[];
      subscriptions := map[];
      notifications := [];
      logged := [];
    }

    /** `this._subscriptions[typeName] || []` */
    function SlotsOf(t: string): Slots
      reads this
    {
      if t in subscriptions then subscriptions[t] else []
    }

    method UpdateEntities(t: string, es: seq<Record>)
      requires Valid()
      modifies this
      ensures Valid()
      ensures table == Reduce(old(table), UpdateEntityData(t, es))
      ensures subscriptions == old(subscriptions) && notifications == old(notifications) && logged == old(logged)
    {
      ReducePreservesWellKeyed(table, UpdateEntityData(t, es));
      table := Reduce(table, UpdateEntityData(t, es));
    }

    method UpdateEntity(t: string, e: Record)
      requires Valid()
      modifies this
      ensures Valid()
      ensures table == Reduce(old(table), UpdateEntityData(t, [e]))
      ensures subscriptions == old(subscriptions) && notifications == old(notifications) && logged == old(logged)
    {
      UpdateEntities(t, [e]);
    }

    /** Call each non-null slot of the type once, in order, with `(ids, kind)`. */
    method Notify(t: string, ids: seq<Value>, kind: Kind)
      modifies this
      ensures notifications == old(notifications) + Calls(old(SlotsOf(t)), ids, kind)
      ensures table == old(table) && subscriptions == old(subscriptions) && logged == old(logged)
    {
      var slots := SlotsOf(t);
      var i := 0;
      while i < |slots|
        invariant 0 <= i <= |slots|
        invariant notifications == old(notifications) + Calls(slots[..i], ids, kind)
        invariant table == old(table) && subscriptions == old(subscriptions) && logged == old(logged)
      {
        assert slots[..i + 1][..i] == slots[..i];
        if slots[i].Some? {
          notifications := notifications + [Notification(slots[i].value, ids, kind)];
        }
        i := i + 1;
      }
      assert slots[..i] == slots;
    }

    /** Append the callback at a fresh index; the index is what `unsubscribe` nulls. */
    method Subscribe(t: string, cb: Callback) returns (index: nat)
      modifies this
      ensures index == |old(SlotsOf(t))|
      ensures subscriptions == old(subscriptions)[t := old(SlotsOf(t)) + [Some(cb)]]
      ensures table == old(table) && notifications == old(notifications) && logged == old(logged)
    {
      var slots := SlotsOf(t);
      subscriptions := subscriptions[t := slots + [Some(cb)]];
      index := |slots|;
    }

    /**
     * The `unsubscribe` closure of the subscription at `index`: it nulls that
     * slot and no other, and the list keeps its length.
     */
    method Unsubscribe(t: string, index: nat)
      requires index < |SlotsOf(t)|
      modifies this
      ensures subscriptions == old(subscriptions)[t := old(SlotsOf(t))[index := None]]
      ensures |SlotsOf(t)| == |old(SlotsOf(t))|
      ensures table == old(table) && notifications == old(notifications) && logged == old(logged)
    {
      subscriptions := subscriptions[t := SlotsOf(t)[index := None]];
    }

    /**
     * Write the stub and notify, then, when the dispatcher's fetch settles
     * with `outcome`: on success merge the entity, notify again and yield it;
     * on failure log the error and yield undefined.
     */
    method LoadEntityById(t: string, id: Value, outcome: Result<Record>) returns (r: Option<Record>)
      requires Valid()
      modifies this
      ensures Valid()
      ensures table == AfterLoad(old(table), t, id, outcome)
      ensures notifications == old(notifications) + Calls(old(SlotsOf(t)), [id], UpdateKind)
                             + (if outcome.Ok? then Calls(old(SlotsOf(t)), [id], UpdateKind) else [])
      ensures logged == old(logged) + (if outcome.Err? then [outcome.error] else [])
      ensures r == (if outcome.Ok? then Some(outcome.value) else None)
      ensures subscriptions == old(subscriptions)
    {
      UpdateEntity(t, Stub(id));
      Notify(t, [id], UpdateKind);
      match outcome
      case Ok(e) =>
        UpdateEntity(t, e);
        Notify(t, [id], UpdateKind);
        r := Some(e);
      case Err(err) =>
        logged := logged + [err];
        r := None;
    }

    /** Yield the cached record without loading when there is one; load otherwise. */
    method FindEntityById(t: string, id: Value, outcome: Result<Record>) returns (r: Option<Record>)
      requires Valid()
      modifies this
      ensures Valid()
      ensures Cached(old(table), t, id) ==>
        r == PeekEntityById(old(table), t, id) && table == old(table)
        && notifications == old(notifications) && logged == old(logged)
      ensures !Cached(old(table), t, id) ==>
        r == (if outcome.Ok? then Some(outcome.value) else None)
        && table == AfterLoad(old(table), t, id, outcome)
        && notifications == old(notifications) + Calls(old(SlotsOf(t)), [id], UpdateKind)
                          + (if outcome.Ok? then Calls(old(SlotsOf(t)), [id], UpdateKind) else [])
        && logged == old(logged) + (if outcome.Err? then [outcome.error] else [])
      ensures subscriptions == old(subscriptions)
    {
      var existing := PeekEntityById(table, t, id);
      if existing.Some? {
        return existing;
      }
      r := LoadEntityById(t, id, outcome);
    }

    /**
     * Write a stub per id and notify; once every fetch has settled, commit and
     * notify the fulfilled entities if there are any; then yield them, or,
     * when any fetch failed, log the first failure and yield undefined.
     */
    method LoadEntitiesByIds(t: string, ids: seq<Value>, fetch: Value -> Result<Record>) returns (r: Option<seq<Record>>)
      requires Valid()
      modifies this
      ensures Valid()
      ensures table == AfterLoadMany(old(table), t, ids, fetch)
      ensures notifications == old(notifications) + Calls(old(SlotsOf(t)), ids, UpdateKind)
        + (if |Fulfilled(ids, fetch)| > 0 then Calls(old(SlotsOf(t)), IdsOf(Fulfilled(ids, fetch)), UpdateKind) else [])
      ensures logged == old(logged) + (if |FailReasons(ids, fetch)| > 0 then [FailReasons(ids, fetch)[0]] else [])
      ensures r == (if |FailReasons(ids, fetch)| > 0 then None else Some(Fulfilled(ids, fetch)))
      ensures subscriptions == old(subscriptions)
    {
      UpdateEntities(t, Stubs(ids));
      Notify(t, ids, UpdateKind);
      var successful, failReasons := SplitSettled(ids, fetch);
      if |successful| > 0 {
        UpdateEntities(t, successful);
        Notify(t, IdsOf(successful), UpdateKind);
      }
      if |failReasons| > 0 {
        logged := logged + [failReasons[0]];
        return None;
      }
      r := Some(successful);
    }

    /**
     * Yield the cached records when every requested id is cached; otherwise
     * load the requested ids the cache lacks and yield the cached records
     * followed by the loaded ones. A load that failed yields undefined, and
     * spreading undefined throws: the call then fails with a TypeError.
     */
    method FindEntitiesByIds(t: string, ids: seq<Value>, fetch: Value -> Result<Record>) returns (r: Result<seq<Record>>)
      requires Valid()
      modifies this
      ensures Valid()
      ensures (forall k :: 0 <= k < |ids| ==> Cached(old(table), t, ids[k])) ==>
        r == Ok(PeekEntitiesByIds(old(table), t, ids)) && table == old(table)
        && notifications == old(notifications) && logged == old(logged)
      ensures !(forall k :: 0 <= k < |ids| ==> Cached(old(table), t, ids[k])) ==>
        table == AfterLoadMany(old(table), t, MissingIds(old(table), t, ids), fetch)
        && notifications == old(notifications) + Calls(old(SlotsOf(t)), MissingIds(old(table), t, ids), UpdateKind)
           + (if |Fulfilled(MissingIds(old(table), t, ids), fetch)| > 0
              then Calls(old(SlotsOf(t)), IdsOf(Fulfilled(MissingIds(old(table), t, ids), fetch)), UpdateKind) else [])
        && logged == old(logged) + (if |FailReasons(MissingIds(old(table), t, ids), fetch)| > 0
                                   then [FailReasons(MissingIds(old(table), t, ids), fetch)[0]] else [])
        && r == (if |FailReasons(MissingIds(old(table), t, ids), fetch)| > 0 then Err(TypeError)
                 else Ok(PeekEntitiesByIds(old(table), t, ids) + Fulfilled(MissingIds(old(table), t, ids), fetch)))
      ensures subscriptions == old(subscriptions)
    {
      var existing := PeekEntitiesByIds(table, t, ids);
      AllCachedBySize(table, t, ids);
      if |IdSet(existing)| == |Elems(ids)| {
        return Ok(existing);
      }
      var missing := Without(FirstOccurrences(ids), IdSet(existing));
      var loaded := LoadEntitiesByIds(t, missing, fetch);
      if loaded.None? {
        return Err(TypeError);
      }
      r := Ok(existing + loaded.value);
    }

    method RemoveEntitiesByIds(t: string, ids: seq<Value>)
      requires Valid()
      modifies this
      ensures Valid()
      ensures table == Reduce(old(table), RemoveEntityData(t, ids))
      ensures notifications == old(notifications) + Calls(old(SlotsOf(t)), ids, RemoveKind)
      ensures subscriptions == old(subscriptions) && logged == old(logged)
    {
      ReducePreservesWellKeyed(table, RemoveEntityData(t, ids));
      table := Reduce(table, RemoveEntityData(t, ids));
      Notify(t, ids, RemoveKind);
    }

    method RemoveEntityById(t: string, id: Value)
      requires Valid()
      modifies this
      ensures Valid()
      ensures table == Reduce(old(table), RemoveEntityData(t, [id]))
      ensures notifications == old(notifications) + Calls(old(SlotsOf(t)), [id], RemoveKind)
      ensures subscriptions == old(subscriptions) && logged == old(logged)
    {
      RemoveEntitiesByIds(t, [id]);
    }

    /**
     * Remove every record of the type, with `keyOrder` the order the table's
     * object enumerates its keys in; the removal is notified twice.
     */
    method RemoveAllEntities(t: string, keyOrder: seq<Value>)
      requires Valid()
      requires Distinct(keyOrder) && Elems(keyOrder) == TableOf(table, t).Keys
      modifies this
      ensures Valid()
      ensures table == old(table)[t := map[]]
      ensures notifications == old(notifications) + Calls(old(SlotsOf(t)), keyOrder, RemoveKind)
                                                 + Calls(old(SlotsOf(t)), keyOrder, RemoveKind)
      ensures subscriptions == old(subscriptions) && logged == old(logged)
    {
      assert forall k :: 0 <= k < |keyOrder| ==> keyOrder[k] in TableOf(table, t) by {
        forall k | 0 <= k < |keyOrder| ensures keyOrder[k] in TableOf(table, t) {
          assert keyOrder[k] in Elems(keyOrder);
        }
      }
      var allEntities := PeekAllEntities(table, t, keyOrder);
      var allIds := IdsOf(allEntities);
      PeekAllIds(table, t, keyOrder);
      RemoveAllEmpties(table, t, keyOrder);
      RemoveEntitiesByIds(t, allIds);
      Notify(t, allIds, RemoveKind);
    }

    /** `entities.forEach(entity => this.updateEntity(typeName, entity))`, which throws at the first `null`. */
    method CommitLead(t: string, es: seq<Option<Record>>) returns (committed: seq<Record>)
      requires Valid()
      modifies this
      ensures Valid()
      ensures committed == Lead(es)
      ensures table == UpdateEach(old(table), t, Lead(es))
      ensures subscriptions == old(subscriptions) && notifications == old(notifications) && logged == old(logged)
    {
      committed := [];
      var i := 0;
      while i < |es| && es[i].Some?
        invariant 0 <= i <= |es| && |committed| == i
        invariant forall k :: 0 <= k < i ==> es[k] == Some(committed[k])
        invariant Valid()
        invariant table == UpdateEach(old(table), t, committed)
        invariant subscriptions == old(subscriptions) && notifications == old(notifications) && logged == old(logged)
      {
        var e := es[i].value;
        assert (committed + [e])[..i] == committed;
        UpdateEntity(t, e);
        committed := committed + [e];
        i := i + 1;
      }
      LeadUnique(es, committed);
    }

    /**
     * The commit of a query: on success update each entity in turn, notify
     * their ids once and yield them. A `null` entity throws at `entity.id`
     * after the entities before it are committed: the TypeError is logged,
     * nobody is notified and the query yields undefined. On a failed request
     * the error is logged and nothing is committed.
     */
    method Query(t: string, response: Result<seq<Option<Record>>>) returns (r: Option<seq<Record>>)
      requires Valid()
      modifies this
      ensures Valid()
      ensures table == (if response.Ok? then UpdateEach(old(table), t, Lead(response.value)) else old(table))
      ensures notifications == old(notifications)
        + (if response.Ok? && AllPresent(response.value)
           then Calls(old(SlotsOf(t)), IdsOf(Present(response.value)), UpdateKind) else [])
      ensures logged == old(logged)
        + (if response.Err? then [response.error] else if AllPresent(response.value) then [] else [TypeError])
      ensures r == (if response.Ok? && AllPresent(response.value) then Some(Present(response.value)) else None)
      ensures subscriptions == old(subscriptions)
    {
      match response
      case Ok(es) =>
        var committed := CommitLead(t, es);
        if AllPresent(es) {
          LeadAllPresent(es);
          Notify(t, IdsOf(committed), UpdateKind);
          r := Some(committed);
        } else {
          logged := logged + [TypeError];
          r := None;
        }
      case Err(err) =>
        logged := logged + [err];
        r := None;
    }
  }
}
