/**
 * The pure reducer of the normalized cache (src/reducer/index.js): a table
 * per type name, entity id to record. UPDATE shallow-merges incoming records
 * into the table, REMOVE deletes ids, anything else leaves the state alone.
 */
module Reducer {
  import opened Values

  type Table = map<Value, Record>
  type State = map<string, Table>

  datatype Action =
    | UpdateEntityData(typeName: string, data: seq<Record>)
    | RemoveEntityData(typeName: string, ids: seq<Value>)
    | OtherAction

  /** `state[typeName] ?? {}` */
  function TableOf(state: State, typeName: string): Table {
    if typeName in state then state[typeName] else map[]
  }

  /** `table?.[id] ?? {}` */
  function StoredOrEmpty(table: Table, id: Value): Record {
    if id in table then table[id] else map[]
  }

  /** `{ ...stored, ...incoming }`: the incoming fields override. */
  function Merge(stored: Record, incoming: Record): (r: Record)
    ensures r.Keys == stored.Keys + incoming.Keys
    ensures forall f :: f in incoming ==> r[f] == incoming[f]
    ensures forall f :: f in stored && f !in incoming ==> r[f] == stored[f]
  {
    stored + incoming
  }

  /**
   * The `data.reduce` of UPDATE, a left fold: starting from `acc`, each
   * entity in turn is written under its own id, merged with the record
   * `before` held (not with what an earlier entity of the same list wrote).
   */
  function MergeData(acc: Table, before: Table, data: seq<Record>): Table
    decreases |data|
  {
    if data == [] then acc
    else
      var last := data[|data| - 1];
      var id := IdOf(last);
      MergeData(acc, before, data[..|data| - 1])[id := Merge(StoredOrEmpty(before, id), last)]
  }

  /** The `ids.forEach(id => delete entitiesById[id])` of REMOVE. */
  function DeleteIds(table: Table, ids: seq<Value>): Table
    decreases |ids|
  {
    if ids == [] then table else DeleteIds(table, ids[..|ids| - 1]) - {ids[|ids| - 1]}
  }

  function Reduce(state: State, action: Action): State {
    match action
    case UpdateEntityData(t, data) =>
      state[t := MergeData(TableOf(state, t), TableOf(state, t), data)]
    case RemoveEntityData(t, ids) =>
      state[t := DeleteIds(TableOf(state, t), ids)]
    case OtherAction =>
      state
  }

  // ---------------------------------------------------------------------
  // What UPDATE writes

  /** Some entity of `data` carries id `id`. */
  predicate Carries(data: seq<Record>, id: Value) {
    exists i :: 0 <= i < |data| && IdOf(data[i]) == id
  }

  /** The last entity of `data` that carries `id`. */
  function LastWith(data: seq<Record>, id: Value): (r: Record)
    requires Carries(data, id)
    ensures IdOf(r) == id
    decreases |data|
  {
    var last := data[|data| - 1];
    if IdOf(last) == id then last
    else
      assert Carries(data[..|data| - 1], id) by {
        var i :| 0 <= i < |data| && IdOf(data[i]) == id;
        assert data[..|data| - 1][i] == data[i];
      }
      LastWith(data[..|data| - 1], id)
  }

  /**
   * MergeData, key by key: an id some entity carries gets the record
   * `before` held overridden by the LAST such entity; every other key keeps
   * what `acc` held.
   */
  lemma {:induction false} MergeDataAt(acc: Table, before: Table, data: seq<Record>, id: Value)
    ensures id in MergeData(acc, before, data) <==> id in acc || Carries(data, id)
    ensures Carries(data, id) ==>
      MergeData(acc, before, data)[id] == Merge(StoredOrEmpty(before, id), LastWith(data, id))
    ensures !Carries(data, id) && id in acc ==> MergeData(acc, before, data)[id] == acc[id]
    decreases |data|
  {
    if data != [] {
      var front := data[..|data| - 1];
      var last := data[|data| - 1];
      MergeDataAt(acc, before, front, id);
      CarriesFront(data, id);
    }
  }

  /** Some entity carries `id` exactly when the last one does or an earlier one does. */
  lemma CarriesFront(data: seq<Record>, id: Value)
    requires data != []
    ensures Carries(data, id) <==> IdOf(data[|data| - 1]) == id || Carries(data[..|data| - 1], id)
  {
    var front := data[..|data| - 1];
    if Carries(data, id) && IdOf(data[|data| - 1]) != id {
      var i :| 0 <= i < |data| && IdOf(data[i]) == id;
      assert front[i] == data[i];
    }
    if Carries(front, id) {
      var i :| 0 <= i < |front| && IdOf(front[i]) == id;
      assert data[i] == front[i];
    }
  }

  lemma {:induction false} MergeDataKeys(acc: Table, before: Table, data: seq<Record>)
    ensures MergeData(acc, before, data).Keys == acc.Keys + set i | 0 <= i < |data| :: IdOf(data[i])
  {
    var r := MergeData(acc, before, data);
    var ids := set i | 0 <= i < |data| :: IdOf(data[i]);
    forall id ensures id in r <==> id in acc || id in ids {
      MergeDataAt(acc, before, data, id);
    }
  }

  /**
   * UPDATE: the updated type's table holds every old id and every incoming
   * id; an incoming id holds the old record shallow-merged with the last
   * entity for that id; every other id of that type, and every other type,
   * is unchanged.
   */
  lemma UpdateEffect(state: State, t: string, data: seq<Record>)
    ensures var r := Reduce(state, UpdateEntityData(t, data));
      && r.Keys == state.Keys + {t}
      && (forall u :: u in state && u != t ==> r[u] == state[u])
      && r[t].Keys == TableOf(state, t).Keys + (set i | 0 <= i < |data| :: IdOf(data[i]))
      && (forall id :: Carries(data, id) ==>
            r[t][id] == Merge(StoredOrEmpty(TableOf(state, t), id), LastWith(data, id)))
      && (forall id :: id in TableOf(state, t) && !Carries(data, id) ==>
            r[t][id] == TableOf(state, t)[id])
  {
    var prior := TableOf(state, t);
    MergeDataKeys(prior, prior, data);
    forall id ensures
      && (Carries(data, id) ==> MergeData(prior, prior, data)[id] == Merge(StoredOrEmpty(prior, id), LastWith(data, id)))
      && (id in prior && !Carries(data, id) ==> MergeData(prior, prior, data)[id] == prior[id])
    {
      MergeDataAt(prior, prior, data, id);
    }
  }

  lemma MergeDataIdempotent(prior: Table, data: seq<Record>)
    ensures var once := MergeData(prior, prior, data);
      MergeData(once, once, data) == once
  {
    var once := MergeData(prior, prior, data);
    var twice := MergeData(once, once, data);
    forall id ensures (id in twice <==> id in once) && (id in twice ==> twice[id] == once[id]) {
      MergeDataAt(prior, prior, data, id);
      MergeDataAt(once, once, data, id);
      if Carries(data, id) {
        var e := LastWith(data, id);
        var base := StoredOrEmpty(prior, id);
        assert once[id] == Merge(base, e);
        assert twice[id] == Merge(Merge(base, e), e);
        assert Merge(Merge(base, e), e) == Merge(base, e);
      }
    }
  }

  lemma DeleteIdsIdempotent(prior: Table, ids: seq<Value>)
    ensures DeleteIds(DeleteIds(prior, ids), ids) == DeleteIds(prior, ids)
  {
    var once := DeleteIds(prior, ids);
    var gone := set i | 0 <= i < |ids| :: ids[i];
    DeleteIdsRemoves(prior, ids);
    DeleteIdsRemoves(once, ids);
    assert once - gone == once;
  }

  /** Applying the same action twice gives the state applying it once gives. */
  lemma ReduceIdempotent(state: State, action: Action)
    ensures Reduce(Reduce(state, action), action) == Reduce(state, action)
  {
    match action
    case UpdateEntityData(t, data) =>
      var once := Reduce(state, action);
      assert TableOf(once, t) == MergeData(TableOf(state, t), TableOf(state, t), data);
      MergeDataIdempotent(TableOf(state, t), data);
    case RemoveEntityData(t, ids) =>
      var once := Reduce(state, action);
      assert TableOf(once, t) == DeleteIds(TableOf(state, t), ids);
      DeleteIdsIdempotent(TableOf(state, t), ids);
    case OtherAction =>
  }

  /**
   * Two UPDATEs of one id applied one after the other both take effect:
   * fields only the first wrote survive, the second wins where both wrote.
   * (Within ONE data list only the last entity for an id counts.)
   */
  lemma SuccessiveUpdates(state: State, t: string, e1: Record, e2: Record)
    requires IdOf(e1) == IdOf(e2)
    ensures var r := Reduce(Reduce(state, UpdateEntityData(t, [e1])), UpdateEntityData(t, [e2]));
      t in r && IdOf(e1) in r[t] && r[t][IdOf(e1)] == Merge(Merge(StoredOrEmpty(TableOf(state, t), IdOf(e1)), e1), e2)
  {
    var id := IdOf(e1);
    var mid := Reduce(state, UpdateEntityData(t, [e1]));
    assert Carries([e1], id) by { assert [e1][0] == e1; }
    assert Carries([e2], id) by { assert [e2][0] == e2; }
    UpdateEffect(state, t, [e1]);
    UpdateEffect(mid, t, [e2]);
    assert TableOf(mid, t) == mid[t];
  }

  lemma BatchedUpdate(state: State, t: string, e1: Record, e2: Record)
    requires IdOf(e1) == IdOf(e2)
    ensures var r := Reduce(state, UpdateEntityData(t, [e1, e2]));
      t in r && IdOf(e1) in r[t] && r[t][IdOf(e1)] == Merge(StoredOrEmpty(TableOf(state, t), IdOf(e1)), e2)
  {
    var id := IdOf(e1);
    assert [e1, e2][1] == e2;
    UpdateEffect(state, t, [e1, e2]);
    assert LastWith([e1, e2], id) == e2;
  }

  // ---------------------------------------------------------------------
  // What REMOVE deletes

  lemma {:induction false} DeleteIdsRemoves(table: Table, ids: seq<Value>)
    ensures DeleteIds(table, ids) == table - (set i | 0 <= i < |ids| :: ids[i])
    decreases |ids|
  {
    if ids != [] {
      var front := ids[..|ids| - 1];
      DeleteIdsRemoves(table, front);
      var rest := set i | 0 <= i < |front| :: front[i];
      var all := set i | 0 <= i < |ids| :: ids[i];
      assert all == rest + {ids[|ids| - 1]} by {
        forall x | x in all ensures x in rest + {ids[|ids| - 1]} {
          var i :| 0 <= i < |ids| && ids[i] == x;
          if i < |front| { assert front[i] == x; }
        }
        forall x | x in rest ensures x in all {
          var i :| 0 <= i < |front| && front[i] == x;
          assert ids[i] == x;
        }
      }
    }
  }

  /**
   * REMOVE: exactly the listed ids leave that type's table (absent ones are
   * ignored), the remaining records are untouched, other types unchanged.
   */
  lemma RemoveEffect(state: State, t: string, ids: seq<Value>)
    ensures var r := Reduce(state, RemoveEntityData(t, ids));
      && r.Keys == state.Keys + {t}
      && (forall u :: u in state && u != t ==> r[u] == state[u])
      && r[t].Keys == TableOf(state, t).Keys - (set i | 0 <= i < |ids| :: ids[i])
      && (forall id :: id in r[t] ==> r[t][id] == TableOf(state, t)[id])
  {
    DeleteIdsRemoves(TableOf(state, t), ids);
  }

  lemma OtherActionUnchanged(state: State)
    ensures Reduce(state, OtherAction) == state
  {
  }

  // ---------------------------------------------------------------------
  // Every record is stored under its own id

  predicate WellKeyed(state: State) {
    forall t, id :: t in state && id in state[t] ==> IdOf(state[t][id]) == id
  }

  /** Every action keeps each record filed under its own `id` field. */
  lemma ReducePreservesWellKeyed(state: State, action: Action)
    requires WellKeyed(state)
    ensures WellKeyed(Reduce(state, action))
  {
    match action
    case UpdateEntityData(t, data) =>
      var r := Reduce(state, action);
      UpdateEffect(state, t, data);
      forall id | id in r[t] ensures IdOf(r[t][id]) == id {
        if Carries(data, id) {
          var e := LastWith(data, id);
          var stored := StoredOrEmpty(TableOf(state, t), id);
          assert IdOf(stored) == id || stored == map[] by {
            if id in TableOf(state, t) { assert t in state; }
          }
        }
      }
    case RemoveEntityData(t, ids) =>
      RemoveEffect(state, t, ids);
    case OtherAction =>
  }
}
