/**
 * The bookkeeping of the fetch coalescer (src/request-dispatcher/index.js),
 * as values: the per-type registry of pending fetches, what settling an
 * entry does, how collected ids are cut into chunks, and what a chunk's
 * combined options, abort bookkeeping and response fan-out are.
 * The class in dispatcher.dfy changes its state through these.
 */
module PendingFetches {
  import opened Values
  import Serializer

  /** A caller of `loadEntityById`: stands for its promise's resolve and reject. */
  type Caller = nat

  /** Call-scoped options: the abort signal, if any, and every other field. */
  datatype Options = Options(signal: Option<Signal>, rest: map<string, Value>)

  const NoOptions: Options := Options(None, map[])

  /** `{ ...a, ...b }`: the fields of `b` override those of `a`. */
  function MergeOptions(a: Options, b: Options): Options {
    Options(if b.signal.Some? then b.signal else a.signal, a.rest + b.rest)
  }

  // ---------------------------------------------------------------------
  // Pending fetches and the per-type registry

  /** The callers waiting on one (type, id), with their options. */
  datatype PendingFetch = PendingFetch(resolves: seq<Caller>, rejects: seq<Caller>, options: seq<Options>,
                                       isLoadingStarted: bool)

  const EmptyFetch: PendingFetch := PendingFetch([], [], [], false)

  /** The three parallel lists have one element per caller. */
  predicate FetchValid(f: PendingFetch) {
    |f.resolves| == |f.rejects| == |f.options|
  }

  /** The pending fetches of one type: a Map, so its keys keep insertion order. */
  datatype Registry = Registry(order: seq<Value>, entries: map<Value, PendingFetch>)

  const EmptyRegistry: Registry := Registry([], map[])

  ghost predicate RegistryValid(r: Registry) {
    && Distinct(r.order)
    && (forall id :: id in r.entries <==> id in r.order)
    && (forall id :: id in r.entries ==> FetchValid(r.entries[id]))
  }

  /** `pendingFetchesByTypeName.get(typeName)`, an empty registry when there is none yet. */
  function RegistryFor(regs: map<string, Registry>, t: string): Registry {
    if t in regs then regs[t] else EmptyRegistry
  }

  /** `addPendingFetch`: join the entry for `id`, creating an empty one first when absent. */
  function AddCaller(reg: Registry, id: Value, caller: Caller, opts: Options): Registry {
    var base := if id in reg.entries then reg.entries[id] else EmptyFetch;
    var joined := base.(resolves := base.resolves + [caller],
                        rejects := base.rejects + [caller],
                        options := base.options + [opts]);
    Registry(if id in reg.entries then reg.order else reg.order + [id], reg.entries[id := joined])
  }

  /**
   * Adding a caller creates an entry only when the id is absent (at the end
   * of the insertion order), and otherwise joins the existing entry, even
   * one whose loading has started. Exactly one resolve, one reject and one
   * options element are appended; every other entry is unchanged.
   */
  lemma AddCallerEffect(reg: Registry, id: Value, caller: Caller, opts: Options)
    requires RegistryValid(reg)
    ensures var r := AddCaller(reg, id, caller, opts);
      && RegistryValid(r)
      && r.entries.Keys == reg.entries.Keys + {id}
      && (id in reg.entries ==> r.order == reg.order)
      && (id !in reg.entries ==> r.order == reg.order + [id])
      && (forall other :: other in reg.entries && other != id ==> r.entries[other] == reg.entries[other])
      && var before := if id in reg.entries then reg.entries[id] else EmptyFetch;
         && r.entries[id].resolves == before.resolves + [caller]
         && r.entries[id].rejects == before.rejects + [caller]
         && r.entries[id].options == before.options + [opts]
         && r.entries[id].isLoadingStarted == (id in reg.entries && reg.entries[id].isLoadingStarted)
  {
    var r := AddCaller(reg, id, caller, opts);
    if id !in reg.entries {
      assert Distinct(r.order) by {
        forall i, j | 0 <= i < j < |r.order| ensures r.order[i] != r.order[j] {
          if j == |reg.order| { assert r.order[i] == reg.order[i]; assert reg.order[i] in reg.entries; }
        }
      }
    }
  }

  /** The insertion order with `x` taken out. */
  function WithoutKey(s: seq<Value>, x: Value): (r: seq<Value>)
    ensures forall y :: y in r <==> y in s && y != x
    decreases |s|
  {
    if s == [] then []
    else
      var front := WithoutKey(s[..|s| - 1], x);
      assert forall y :: y in s <==> y in s[..|s| - 1] || y == s[|s| - 1] by {
        assert s == s[..|s| - 1] + [s[|s| - 1]];
      }
      if s[|s| - 1] == x then front else front + [s[|s| - 1]]
  }

  lemma {:induction false} WithoutDistinct(s: seq<Value>, x: Value)
    requires Distinct(s)
    ensures Distinct(WithoutKey(s, x))
    decreases |s|
  {
    if s != [] {
      var init := s[..|s| - 1];
      var last := s[|s| - 1];
      DistinctInit(s);
      WithoutDistinct(init, x);
      if last != x {
        var front := WithoutKey(init, x);
        assert last !in front;
        forall i, j | 0 <= i < j < |front + [last]| ensures (front + [last])[i] != (front + [last])[j] {
          if j == |front| { assert (front + [last])[i] == front[i]; }
        }
      }
    }
  }

  /** `pendingFetchesById.delete(id)` */
  function RemoveEntry(reg: Registry, id: Value): Registry {
    Registry(WithoutKey(reg.order, id), reg.entries - {id})
  }

  lemma RemoveEntryValid(reg: Registry, id: Value)
    requires RegistryValid(reg)
    ensures RegistryValid(RemoveEntry(reg, id))
  {
    WithoutDistinct(reg.order, id);
  }

  /**
   * `[...pendingFetches.keys()].filter(id => !isLoadingStarted)`: the ids
   * whose loading has not started, in insertion order.
   */
  function NotStarted(order: seq<Value>, entries: map<Value, PendingFetch>): seq<Value>
    decreases |order|
  {
    if order == [] then []
    else
      var last := order[|order| - 1];
      NotStarted(order[..|order| - 1], entries)
        + (if last in entries && !entries[last].isLoadingStarted then [last] else [])
  }

  /** `x` sits before `y` in `order`. */
  ghost predicate ComesBefore(order: seq<Value>, x: Value, y: Value) {
    exists a, b :: 0 <= a < b < |order| && order[a] == x && order[b] == y
  }

  /**
   * The collected ids are exactly the registered ids whose loading has not
   * started, each once, and in the order the registry holds them.
   */
  lemma {:induction false} NotStartedExactly(order: seq<Value>, entries: map<Value, PendingFetch>)
    requires Distinct(order)
    ensures var p := NotStarted(order, entries);
      && Distinct(p)
      && (forall id :: id in p <==> id in order && id in entries && !entries[id].isLoadingStarted)
      && (forall i, j :: 0 <= i < j < |p| ==> ComesBefore(order, p[i], p[j]))
    decreases |order|
  {
    if order != [] {
      var init := order[..|order| - 1];
      var last := order[|order| - 1];
      DistinctInit(order);
      NotStartedExactly(init, entries);
      var front := NotStarted(init, entries);
      var p := NotStarted(order, entries);
      assert p[..|front|] == front;
      forall i, j | 0 <= i < j < |p|
        ensures ComesBefore(order, p[i], p[j])
      {
        assert p[i] == front[i];
        if j < |front| {
          assert p[j] == front[j];
          assert ComesBefore(init, front[i], front[j]);
          var a, b :| 0 <= a < b < |init| && init[a] == front[i] && init[b] == front[j];
          assert order[a] == p[i] && order[b] == p[j];
        } else {
          assert p[j] == last;
          assert front[i] in init;
          var a :| 0 <= a < |init| && init[a] == front[i];
          assert order[a] == p[i] && order[|order| - 1] == p[j];
        }
      }
      if last in entries && !entries[last].isLoadingStarted {
        forall i, j | 0 <= i < j < |p| ensures p[i] != p[j] {
          if j == |front| { assert p[i] == front[i]; assert front[i] in init; }
        }
      }
    }
  }

  /** Mark every id of `ids` as started: `pendingFetches.get(id).isLoadingStarted = true`. */
  function MarkStarted(reg: Registry, ids: set<Value>): (r: Registry)
    ensures r.order == reg.order && r.entries.Keys == reg.entries.Keys
  {
    Registry(reg.order, map id | id in reg.entries ::
      if id in ids then reg.entries[id].(isLoadingStarted := true) else reg.entries[id])
  }

  /**
   * Marking started changes only that flag: the callers and options stay,
   * the marked ids are started, the others as they were, and a later
   * collection never returns a marked id.
   */
  lemma MarkStartedEffect(reg: Registry, ids: set<Value>)
    requires RegistryValid(reg)
    ensures var r := MarkStarted(reg, ids);
      && RegistryValid(r)
      && (forall id :: id in reg.entries ==>
            && r.entries[id].resolves == reg.entries[id].resolves
            && r.entries[id].rejects == reg.entries[id].rejects
            && r.entries[id].options == reg.entries[id].options
            && r.entries[id].isLoadingStarted == (id in ids || reg.entries[id].isLoadingStarted))
      && (forall id :: id in NotStarted(r.order, r.entries) ==> id !in ids)
  {
    var r := MarkStarted(reg, ids);
    NotStartedExactly(r.order, r.entries);
  }

  lemma MarkStartedNone(reg: Registry)
    ensures MarkStarted(reg, {}) == reg
  {
  }

  lemma MarkStartedTwice(reg: Registry, a: set<Value>, b: set<Value>)
    ensures MarkStarted(MarkStarted(reg, a), b) == MarkStarted(reg, a + b)
  {
  }

  // ---------------------------------------------------------------------
  // Settling entries

  datatype Settlement = Resolved(caller: Caller, data: Option<Record>) | Rejected(caller: Caller, reason: Error)

  datatype Fate = Resolve(data: Option<Record>) | Reject(reason: Error)

  /** One `resolvePendingFetch` or `rejectPendingFetch` call. */
  datatype Step = Step(typeName: string, id: Value, fate: Fate)

  /** The registries together with every continuation fired so far. */
  datatype Book = Book(registries: map<string, Registry>, settlements: seq<Settlement>)

  ghost predicate BookValid(b: Book) {
    forall t :: t in b.registries ==> RegistryValid(b.registries[t])
  }

  /** `pendingFetchesByTypeName.get(typeName)?.get(id)` is present. */
  predicate Has(b: Book, t: string, id: Value) {
    t in b.registries && id in b.registries[t].entries
  }

  /** The continuations an entry fires for a fate, in registration order. */
  function Fired(f: PendingFetch, fate: Fate): (r: seq<Settlement>)
    ensures fate.Resolve? ==>
      (|r| == |f.resolves| && forall i :: 0 <= i < |r| ==> r[i] == Resolved(f.resolves[i], fate.data))
    ensures fate.Reject? ==>
      (|r| == |f.rejects| && forall i :: 0 <= i < |r| ==> r[i] == Rejected(f.rejects[i], fate.reason))
  {
    match fate
    case Resolve(d) => seq(|f.resolves|, i requires 0 <= i < |f.resolves| => Resolved(f.resolves[i], d))
    case Reject(e) => seq(|f.rejects|, i requires 0 <= i < |f.rejects| => Rejected(f.rejects[i], e))
  }

  /**
   * Resolving or rejecting: when the entry exists, fire every continuation
   * of it and delete it; when it does not, nothing happens.
   */
  function Apply(b: Book, s: Step): Book {
    if Has(b, s.typeName, s.id) then
      var reg := b.registries[s.typeName];
      Book(b.registries[s.typeName := RemoveEntry(reg, s.id)],
           b.settlements + Fired(reg.entries[s.id], s.fate))
    else b
  }

  /** The steps applied one after another, a left fold. */
  function Settle(b: Book, steps: seq<Step>): Book
    decreases |steps|
  {
    if steps == [] then b else Apply(Settle(b, steps[..|steps| - 1]), steps[|steps| - 1])
  }

  lemma ApplyValid(b: Book, s: Step)
    requires BookValid(b)
    ensures BookValid(Apply(b, s))
  {
    if Has(b, s.typeName, s.id) {
      RemoveEntryValid(b.registries[s.typeName], s.id);
    }
  }

  lemma {:induction false} SettleValid(b: Book, steps: seq<Step>)
    requires BookValid(b)
    ensures BookValid(Settle(b, steps))
    decreases |steps|
  {
    if steps != [] {
      SettleValid(b, steps[..|steps| - 1]);
      ApplyValid(Settle(b, steps[..|steps| - 1]), steps[|steps| - 1]);
    }
  }

  lemma SettleSnoc(b: Book, p: seq<Step>, s: Step)
    ensures Settle(b, p + [s]) == Apply(Settle(b, p), s)
  {
    assert (p + [s])[..|p|] == p;
  }

  lemma SettleOne(b: Book, s: Step)
    ensures Settle(b, [s]) == Apply(b, s)
  {
    assert [s][..0] == [];
  }

  lemma {:induction false} SettleAppend(b: Book, p: seq<Step>, q: seq<Step>)
    ensures Settle(b, p + q) == Settle(Settle(b, p), q)
    decreases |q|
  {
    if q == [] {
      assert p + q == p;
    } else {
      assert (p + q)[..|p + q| - 1] == p + q[..|q| - 1];
      SettleAppend(b, p, q[..|q| - 1]);
    }
  }

  /**
   * What one step does: the entry's callers are settled in registration
   * order and the entry is gone; no other entry, type or earlier settlement
   * changes. A step for an absent entry does nothing.
   */
  lemma ApplyEffect(b: Book, s: Step)
    ensures var a := Apply(b, s);
      && (!Has(b, s.typeName, s.id) ==> a == b)
      && (Has(b, s.typeName, s.id) ==>
            && a.settlements == b.settlements + Fired(b.registries[s.typeName].entries[s.id], s.fate)
            && a.registries.Keys == b.registries.Keys
            && a.registries[s.typeName].entries == b.registries[s.typeName].entries - {s.id}
            && (forall u :: u in b.registries && u != s.typeName ==> a.registries[u] == b.registries[u]))
  {
  }

  /**
   * Settling is idempotent per entry: once an id has been resolved or
   * rejected, a second resolve or reject of it does nothing.
   */
  lemma SecondSettleIsNoop(b: Book, t: string, id: Value, first: Fate, second: Fate)
    ensures var once := Apply(b, Step(t, id, first));
      Apply(once, Step(t, id, second)) == once
  {
    var once := Apply(b, Step(t, id, first));
    assert !Has(once, t, id);
  }

  /** A step for another id or type leaves an entry exactly as it was. */
  lemma ApplyElsewhere(b: Book, s: Step, t: string, id: Value)
    requires s.typeName != t || s.id != id
    ensures Has(Apply(b, s), t, id) <==> Has(b, t, id)
    ensures Has(b, t, id) ==> Apply(b, s).registries[t].entries[id] == b.registries[t].entries[id]
  {
  }

  lemma ApplyNeverAdds(b: Book, s: Step, t: string, id: Value)
    requires !Has(b, t, id)
    ensures !Has(Apply(b, s), t, id)
  {
  }

  lemma {:induction false} SettleNeverAdds(b: Book, steps: seq<Step>, t: string, id: Value)
    requires !Has(b, t, id)
    ensures !Has(Settle(b, steps), t, id)
    decreases |steps|
  {
    if steps != [] {
      SettleNeverAdds(b, steps[..|steps| - 1], t, id);
    }
  }

  // ---------------------------------------------------------------------
  // Settling distinct ids of one type

  predicate OnType(steps: seq<Step>, t: string) {
    forall i :: 0 <= i < |steps| ==> steps[i].typeName == t
  }

  predicate DistinctIds(steps: seq<Step>) {
    forall i, j :: 0 <= i < j < |steps| ==> steps[i].id != steps[j].id
  }

  function StepIds(steps: seq<Step>): set<Value> {
    set i | 0 <= i < |steps| :: steps[i].id
  }

  /** The continuations the steps fire, step by step, given the entries they find. */
  function Log(entries: map<Value, PendingFetch>, steps: seq<Step>): seq<Settlement>
    decreases |steps|
  {
    if steps == [] then []
    else
      var last := steps[|steps| - 1];
      Log(entries, steps[..|steps| - 1]) + (if last.id in entries then Fired(entries[last.id], last.fate) else [])
  }

  /**
   * Settling distinct ids of one type removes exactly those entries, fires
   * each entry's continuations once, in step order, and touches no other
   * type.
   */
  lemma {:induction false} SettleDistinct(b: Book, t: string, steps: seq<Step>)
    requires t in b.registries
    requires OnType(steps, t) && DistinctIds(steps)
    ensures t in Settle(b, steps).registries
    ensures Settle(b, steps).registries == b.registries[t := Settle(b, steps).registries[t]]
    ensures Settle(b, steps).registries[t].entries == b.registries[t].entries - StepIds(steps)
    ensures Settle(b, steps).settlements == b.settlements + Log(b.registries[t].entries, steps)
    decreases |steps|
  {
    if steps != [] {
      var init := steps[..|steps| - 1];
      var last := steps[|steps| - 1];
      DistinctStepsSnoc(steps, t);
      SettleDistinct(b, t, init);
      var mid := Settle(b, init);
      var before := b.registries[t].entries;
      if last.id in before {
        assert mid.registries[t].entries[last.id] == before[last.id];
        assert Has(mid, t, last.id);
      } else {
        assert !Has(mid, t, last.id);
      }
    }
  }

  /** Dropping the last of distinct steps on one type leaves distinct steps on it, without the last id. */
  lemma DistinctStepsSnoc(steps: seq<Step>, t: string)
    requires steps != [] && OnType(steps, t) && DistinctIds(steps)
    ensures var init := steps[..|steps| - 1];
      && OnType(init, t) && DistinctIds(init)
      && steps[|steps| - 1].typeName == t
      && steps[|steps| - 1].id !in StepIds(init)
      && StepIds(steps) == StepIds(init) + {steps[|steps| - 1].id}
  {
    var init := steps[..|steps| - 1];
    var last := steps[|steps| - 1];
    assert OnType(init, t) by {
      forall i | 0 <= i < |init| ensures init[i].typeName == t { assert init[i] == steps[i]; }
    }
    assert DistinctIds(init) by {
      forall i, j | 0 <= i < j < |init| ensures init[i].id != init[j].id { assert init[i] == steps[i] && init[j] == steps[j]; }
    }
    assert last.id !in StepIds(init) by {
      forall i | 0 <= i < |init| ensures init[i].id != last.id { assert init[i] == steps[i]; }
    }
    forall x ensures x in StepIds(steps) <==> x in StepIds(init) + {last.id} {
      if x in StepIds(steps) {
        var i :| 0 <= i < |steps| && steps[i].id == x;
        if i < |init| { assert init[i] == steps[i]; }
      }
      if x in StepIds(init) {
        var i :| 0 <= i < |init| && init[i].id == x;
        assert steps[i] == init[i];
      }
    }
  }


  /** Entries the steps do not name make no difference to what they fire. */
  lemma {:induction false} LogIgnores(entries: map<Value, PendingFetch>, steps: seq<Step>, gone: set<Value>)
    requires StepIds(steps) !! gone
    ensures Log(entries - gone, steps) == Log(entries, steps)
    decreases |steps|
  {
    if steps != [] {
      var init := steps[..|steps| - 1];
      assert StepIds(init) <= StepIds(steps) by {
        forall x | x in StepIds(init) ensures x in StepIds(steps) {
          var i :| 0 <= i < |init| && init[i].id == x;
          assert steps[i] == init[i];
        }
      }
      assert steps[|steps| - 1].id in StepIds(steps);
      LogIgnores(entries, init, gone);
    }
  }

  // ---------------------------------------------------------------------
  // Rejecting every id of a chunk

  /** `ids.forEach(id => rejectPendingFetch(typeName, id, error))` */
  function RejectEach(t: string, ids: seq<Value>, reason: Error): (r: seq<Step>)
    ensures |r| == |ids| && forall i :: 0 <= i < |ids| ==> r[i] == Step(t, ids[i], Reject(reason))
  {
    seq(|ids|, i requires 0 <= i < |ids| => Step(t, ids[i], Reject(reason)))
  }

  lemma RejectEachPrefix(t: string, ids: seq<Value>, reason: Error, i: nat)
    requires i < |ids|
    ensures RejectEach(t, ids[..i + 1], reason) == RejectEach(t, ids[..i], reason) + [Step(t, ids[i], Reject(reason))]
  {
    var r := RejectEach(t, ids[..i + 1], reason);
    var q := RejectEach(t, ids[..i], reason) + [Step(t, ids[i], Reject(reason))];
    forall k | 0 <= k < |r| ensures r[k] == q[k] {
      assert ids[..i + 1][k] == ids[k];
      if k < i { assert ids[..i][k] == ids[k]; }
    }
  }

  /**
   * A transport failure (or a response that cannot be read) rejects every
   * id of the chunk with the same error: every caller of every id is
   * rejected, id by id, and all those entries leave the registry.
   */
  lemma RejectEachEffect(b: Book, t: string, ids: seq<Value>, reason: Error)
    requires t in b.registries
    requires Distinct(ids)
    ensures var a := Settle(b, RejectEach(t, ids, reason));
      && t in a.registries
      && a.registries == b.registries[t := a.registries[t]]
      && a.registries[t].entries == b.registries[t].entries - Elems(ids)
      && a.settlements == b.settlements + Log(b.registries[t].entries, RejectEach(t, ids, reason))
      && (forall s :: s in Log(b.registries[t].entries, RejectEach(t, ids, reason)) ==> s.Rejected? && s.reason == reason)
  {
    var steps := RejectEach(t, ids, reason);
    assert StepIds(steps) == Elems(ids) by {
      forall x ensures x in StepIds(steps) <==> x in Elems(ids) {
        if x in Elems(ids) { var i :| 0 <= i < |ids| && ids[i] == x; assert steps[i].id == x; }
      }
    }
    SettleDistinct(b, t, steps);
    LogRejects(b.registries[t].entries, steps, reason);
  }

  lemma {:induction false} LogRejects(entries: map<Value, PendingFetch>, steps: seq<Step>, reason: Error)
    requires forall i :: 0 <= i < |steps| ==> steps[i].fate == Reject(reason)
    ensures forall s :: s in Log(entries, steps) ==> s.Rejected? && s.reason == reason
    decreases |steps|
  {
    if steps != [] {
      var init := steps[..|steps| - 1];
      assert forall i :: 0 <= i < |init| ==> init[i] == steps[i];
      LogRejects(entries, init, reason);
    }
  }

  // ---------------------------------------------------------------------
  // A response for several ids

  /** `entities.forEach(entity => loadedById.set(entity.id, entity))` */
  function LoadedById(entities: seq<Record>): map<Value, Record>
    decreases |entities|
  {
    if entities == [] then map[]
    else
      var last := entities[|entities| - 1];
      LoadedById(entities[..|entities| - 1])[IdOf(last) := last]
  }

  /** The ids a response carries are exactly the ids of its entities, and each maps to one of them. */
  lemma {:induction false} LoadedByIdShape(entities: seq<Record>)
    ensures forall id :: id in LoadedById(entities) <==> exists i :: 0 <= i < |entities| && IdOf(entities[i]) == id
    ensures forall id :: id in LoadedById(entities) ==> LoadedById(entities)[id] in entities && IdOf(LoadedById(entities)[id]) == id
    decreases |entities|
  {
    if entities != [] {
      var init := entities[..|entities| - 1];
      LoadedByIdShape(init);
      assert entities == init + [entities[|entities| - 1]];
      forall id ensures (id in LoadedById(entities)) <==> exists i :: 0 <= i < |entities| && IdOf(entities[i]) == id {
        if id in LoadedById(init) {
          var i :| 0 <= i < |init| && IdOf(init[i]) == id;
          assert entities[i] == init[i];
        }
        if exists i :: 0 <= i < |entities| && IdOf(entities[i]) == id {
          var i :| 0 <= i < |entities| && IdOf(entities[i]) == id;
          if i < |init| { assert init[i] == entities[i]; }
        }
      }
    }
  }

  /** When several entities carry one id, the last of them wins. */
  lemma {:induction false} LoadedByIdLastWins(entities: seq<Record>, i: nat)
    requires i < |entities|
    requires forall j :: i < j < |entities| ==> IdOf(entities[j]) != IdOf(entities[i])
    ensures IdOf(entities[i]) in LoadedById(entities) && LoadedById(entities)[IdOf(entities[i])] == entities[i]
    decreases |entities|
  {
    if i < |entities| - 1 {
      var init := entities[..|entities| - 1];
      assert init[i] == entities[i];
      forall j | i < j < |init| ensures IdOf(init[j]) != IdOf(init[i]) { assert init[j] == entities[j]; }
      LoadedByIdLastWins(init, i);
      assert IdOf(entities[|entities| - 1]) != IdOf(entities[i]);
    }
  }

  /** Whether the response lacks an id nobody aborted: such an id is rejected as not found. */
  predicate IsMissing(aborted: set<Value>, loaded: map<Value, Record>, id: Value) {
    id !in aborted && id !in loaded
  }

  /** `loadedById.get(id)`: the entity, or `undefined`. */
  function LoadedAt(loaded: map<Value, Record>, id: Value): Option<Record> {
    if id in loaded then Some(loaded[id]) else None
  }

  /** The first `forEach`: reject every id neither aborted nor in the response. */
  function MissingSteps(t: string, ids: seq<Value>, aborted: set<Value>, loaded: map<Value, Record>): seq<Step>
    decreases |ids|
  {
    if ids == [] then []
    else
      var last := ids[|ids| - 1];
      MissingSteps(t, ids[..|ids| - 1], aborted, loaded)
        + (if IsMissing(aborted, loaded, last) then [Step(t, last, Reject(NotFound(t, last)))] else [])
  }

  /** The second `forEach`: resolve every id with what the response holds for it. */
  function ResolveEach(t: string, ids: seq<Value>, loaded: map<Value, Record>): (r: seq<Step>)
    ensures |r| == |ids| && forall i :: 0 <= i < |ids| ==> r[i] == Step(t, ids[i], Resolve(LoadedAt(loaded, ids[i])))
  {
    seq(|ids|, i requires 0 <= i < |ids| => Step(t, ids[i], Resolve(LoadedAt(loaded, ids[i]))))
  }

  /** The resolutions of the second `forEach` that find their entry: those of the ids not missing. */
  function FoundSteps(t: string, ids: seq<Value>, aborted: set<Value>, loaded: map<Value, Record>): seq<Step>
    decreases |ids|
  {
    if ids == [] then []
    else
      var last := ids[|ids| - 1];
      FoundSteps(t, ids[..|ids| - 1], aborted, loaded)
        + (if IsMissing(aborted, loaded, last) then [] else [Step(t, last, Resolve(LoadedAt(loaded, last)))])
  }

  function MissingChunkIds(ids: seq<Value>, aborted: set<Value>, loaded: map<Value, Record>): set<Value> {
    set id | id in ids && IsMissing(aborted, loaded, id)
  }

  function FoundIds(ids: seq<Value>, aborted: set<Value>, loaded: map<Value, Record>): set<Value> {
    set id | id in ids && !IsMissing(aborted, loaded, id)
  }

  /**
   * The not-found rejections: one per missing id, each naming that id, in
   * chunk order; no repeats.
   */
  lemma {:induction false} MissingStepsShape(t: string, ids: seq<Value>, aborted: set<Value>, loaded: map<Value, Record>)
    requires Distinct(ids)
    ensures var m := MissingSteps(t, ids, aborted, loaded);
      && OnType(m, t) && DistinctIds(m)
      && StepIds(m) == MissingChunkIds(ids, aborted, loaded)
      && (forall i :: 0 <= i < |m| ==> m[i].fate == Reject(NotFound(t, m[i].id)))
    decreases |ids|
  {
    if ids != [] {
      var init := ids[..|ids| - 1];
      var last := ids[|ids| - 1];
      DistinctInit(ids);
      MissingStepsShape(t, init, aborted, loaded);
      var front := MissingSteps(t, init, aborted, loaded);
      var m := MissingSteps(t, ids, aborted, loaded);
      assert forall i :: 0 <= i < |front| ==> m[i] == front[i];
      assert last !in StepIds(front);
      if IsMissing(aborted, loaded, last) { assert m[|m| - 1].id == last; } else { assert m == front; }
      assert StepIds(m) == MissingChunkIds(ids, aborted, loaded) by {
        forall x ensures x in StepIds(m) <==> x in MissingChunkIds(ids, aborted, loaded) {
          if x in StepIds(front) { var i :| 0 <= i < |front| && front[i].id == x; assert m[i].id == x; }
          if x in StepIds(m) {
            var i :| 0 <= i < |m| && m[i].id == x;
            if i < |front| { assert x in StepIds(front); }
          }
        }
      }
    }
  }

  /** The resolutions that find their entry: one per id not missing, with what the response holds for it. */
  lemma FoundStepsShape(t: string, ids: seq<Value>, aborted: set<Value>, loaded: map<Value, Record>)
    requires Distinct(ids)
    ensures OnType(FoundSteps(t, ids, aborted, loaded), t)
    ensures DistinctIds(FoundSteps(t, ids, aborted, loaded))
    ensures StepIds(FoundSteps(t, ids, aborted, loaded)) == FoundIds(ids, aborted, loaded)
    ensures forall i :: 0 <= i < |FoundSteps(t, ids, aborted, loaded)| ==>
      FoundSteps(t, ids, aborted, loaded)[i].fate == Resolve(LoadedAt(loaded, FoundSteps(t, ids, aborted, loaded)[i].id))
  {
    FoundStepsFates(t, ids, aborted, loaded);
    FoundStepsIds(t, ids, aborted, loaded);
    FoundStepsDistinct(t, ids, aborted, loaded);
  }

  lemma {:induction false} FoundStepsFates(t: string, ids: seq<Value>, aborted: set<Value>, loaded: map<Value, Record>)
    ensures OnType(FoundSteps(t, ids, aborted, loaded), t)
    ensures forall i :: 0 <= i < |FoundSteps(t, ids, aborted, loaded)| ==>
      FoundSteps(t, ids, aborted, loaded)[i].fate == Resolve(LoadedAt(loaded, FoundSteps(t, ids, aborted, loaded)[i].id))
    decreases |ids|
  {
    if ids != [] {
      FoundStepsFates(t, ids[..|ids| - 1], aborted, loaded);
    }
  }

  lemma {:induction false} FoundStepsIds(t: string, ids: seq<Value>, aborted: set<Value>, loaded: map<Value, Record>)
    ensures StepIds(FoundSteps(t, ids, aborted, loaded)) == FoundIds(ids, aborted, loaded)
    decreases |ids|
  {
    if ids != [] {
      var init := ids[..|ids| - 1];
      var last := ids[|ids| - 1];
      FoundStepsIds(t, init, aborted, loaded);
      var front := FoundSteps(t, init, aborted, loaded);
      var f := FoundSteps(t, ids, aborted, loaded);
      assert forall i :: 0 <= i < |front| ==> f[i] == front[i];
      assert forall x :: x in ids <==> x in init || x == last;
      if !IsMissing(aborted, loaded, last) { assert f[|f| - 1].id == last; } else { assert f == front; }
      forall x ensures x in StepIds(f) <==> x in FoundIds(ids, aborted, loaded) {
        if x in StepIds(front) { var i :| 0 <= i < |front| && front[i].id == x; assert f[i].id == x; }
        if x in StepIds(f) {
          var i :| 0 <= i < |f| && f[i].id == x;
          if i < |front| { assert x in StepIds(front); }
        }
      }
    }
  }

  lemma {:induction false} FoundStepsDistinct(t: string, ids: seq<Value>, aborted: set<Value>, loaded: map<Value, Record>)
    requires Distinct(ids)
    ensures DistinctIds(FoundSteps(t, ids, aborted, loaded))
    decreases |ids|
  {
    if ids != [] {
      var init := ids[..|ids| - 1];
      var last := ids[|ids| - 1];
      DistinctInit(ids);
      FoundStepsDistinct(t, init, aborted, loaded);
      FoundStepsIds(t, init, aborted, loaded);
      var front := FoundSteps(t, init, aborted, loaded);
      assert last !in StepIds(front);
      assert forall i :: 0 <= i < |front| ==> front[i].id != last;
    }
  }

  lemma ResolveEachSnoc(t: string, ids: seq<Value>, loaded: map<Value, Record>)
    requires ids != []
    ensures ResolveEach(t, ids, loaded)
         == ResolveEach(t, ids[..|ids| - 1], loaded) + [Step(t, ids[|ids| - 1], Resolve(LoadedAt(loaded, ids[|ids| - 1])))]
  {
    var r := ResolveEach(t, ids, loaded);
    var q := ResolveEach(t, ids[..|ids| - 1], loaded) + [Step(t, ids[|ids| - 1], Resolve(LoadedAt(loaded, ids[|ids| - 1])))];
    forall i | 0 <= i < |r| ensures r[i] == q[i] {
      if i < |ids| - 1 { assert ids[..|ids| - 1][i] == ids[i]; }
    }
  }

  /** Once the missing ids are gone, resolving them does nothing: only the found ids' resolutions act. */
  lemma {:induction false} ResolveEachSkipsMissing(b: Book, t: string, ids: seq<Value>, aborted: set<Value>,
                                                   loaded: map<Value, Record>)
    requires forall id :: id in ids && IsMissing(aborted, loaded, id) ==> !Has(b, t, id)
    ensures Settle(b, ResolveEach(t, ids, loaded)) == Settle(b, FoundSteps(t, ids, aborted, loaded))
    decreases |ids|
  {
    if ids != [] {
      var init := ids[..|ids| - 1];
      var last := ids[|ids| - 1];
      assert forall id :: id in init ==> id in ids;
      ResolveEachSkipsMissing(b, t, init, aborted, loaded);
      var step := Step(t, last, Resolve(LoadedAt(loaded, last)));
      ResolveEachSnoc(t, ids, loaded);
      SettleSnoc(b, ResolveEach(t, init, loaded), step);
      var found := FoundSteps(t, init, aborted, loaded);
      if IsMissing(aborted, loaded, last) {
        SettleNeverAdds(b, found, t, last);
        assert FoundSteps(t, ids, aborted, loaded) == found;
      } else {
        assert FoundSteps(t, ids, aborted, loaded) == found + [step];
        SettleSnoc(b, found, step);
      }
    }
  }

  /**
   * The fan-out of a response for several ids: every id neither aborted
   * nor in the response has its callers rejected as not found, every other
   * id has its callers resolved with what the response holds for it
   * (nothing, for an aborted id the response lacks), each entry is settled
   * once, and all the chunk's entries leave the registry.
   */
  lemma ManyResponseEffect(b: Book, t: string, ids: seq<Value>, aborted: set<Value>, loaded: map<Value, Record>)
    requires t in b.registries
    requires Distinct(ids)
    ensures t in Settle(b, MissingSteps(t, ids, aborted, loaded) + ResolveEach(t, ids, loaded)).registries
    ensures Settle(b, MissingSteps(t, ids, aborted, loaded) + ResolveEach(t, ids, loaded)).registries
         == b.registries[t := Settle(b, MissingSteps(t, ids, aborted, loaded) + ResolveEach(t, ids, loaded)).registries[t]]
    ensures Settle(b, MissingSteps(t, ids, aborted, loaded) + ResolveEach(t, ids, loaded)).registries[t].entries
         == b.registries[t].entries - Elems(ids)
    ensures Settle(b, MissingSteps(t, ids, aborted, loaded) + ResolveEach(t, ids, loaded)).settlements
         == b.settlements
            + Log(b.registries[t].entries, MissingSteps(t, ids, aborted, loaded))
            + Log(b.registries[t].entries, FoundSteps(t, ids, aborted, loaded))
  {
    var m := MissingSteps(t, ids, aborted, loaded);
    SettleAppend(b, m, ResolveEach(t, ids, loaded));
    MissingStage(b, t, ids, aborted, loaded);
    FoundStage(b, Settle(b, m), t, ids, aborted, loaded);
  }

  /** The not-found rejections remove exactly the missing ids and log their rejections. */
  lemma MissingStage(b: Book, t: string, ids: seq<Value>, aborted: set<Value>, loaded: map<Value, Record>)
    requires t in b.registries
    requires Distinct(ids)
    ensures t in Settle(b, MissingSteps(t, ids, aborted, loaded)).registries
    ensures Settle(b, MissingSteps(t, ids, aborted, loaded)).registries
         == b.registries[t := Settle(b, MissingSteps(t, ids, aborted, loaded)).registries[t]]
    ensures Settle(b, MissingSteps(t, ids, aborted, loaded)).registries[t].entries
         == b.registries[t].entries - MissingChunkIds(ids, aborted, loaded)
    ensures Settle(b, MissingSteps(t, ids, aborted, loaded)).settlements
         == b.settlements + Log(b.registries[t].entries, MissingSteps(t, ids, aborted, loaded))
  {
    MissingStepsShape(t, ids, aborted, loaded);
    SettleDistinct(b, t, MissingSteps(t, ids, aborted, loaded));
  }

  /** After them, resolving every id settles exactly the found ones. */
  lemma FoundStage(b: Book, mid: Book, t: string, ids: seq<Value>, aborted: set<Value>, loaded: map<Value, Record>)
    requires t in mid.registries && t in b.registries
    requires Distinct(ids)
    requires mid.registries == b.registries[t := mid.registries[t]]
    requires mid.registries[t].entries == b.registries[t].entries - MissingChunkIds(ids, aborted, loaded)
    ensures t in Settle(mid, ResolveEach(t, ids, loaded)).registries
    ensures Settle(mid, ResolveEach(t, ids, loaded)).registries
         == b.registries[t := Settle(mid, ResolveEach(t, ids, loaded)).registries[t]]
    ensures Settle(mid, ResolveEach(t, ids, loaded)).registries[t].entries == b.registries[t].entries - Elems(ids)
    ensures Settle(mid, ResolveEach(t, ids, loaded)).settlements
         == mid.settlements + Log(b.registries[t].entries, FoundSteps(t, ids, aborted, loaded))
  {
    var entries := b.registries[t].entries;
    var f := FoundSteps(t, ids, aborted, loaded);
    var gone := MissingChunkIds(ids, aborted, loaded);
    FoundStepsShape(t, ids, aborted, loaded);
    ResolveEachSkipsMissing(mid, t, ids, aborted, loaded);
    SettleDistinct(mid, t, f);
    assert StepIds(f) !! gone;
    LogIgnores(entries, f, gone);
    assert Elems(ids) == gone + FoundIds(ids, aborted, loaded);
  }



  // ---------------------------------------------------------------------
  // Cutting the collected ids into chunks

  function Min(a: int, b: int): int {
    if a <= b then a else b
  }

  /** `for (idx = start; idx < ids.length; idx += size) ids.slice(idx, idx + size)` */
  function ChunksFrom(ids: seq<Value>, size: nat, idx: nat): seq<seq<Value>>
    requires size > 0
    decreases |ids| - idx
  {
    if idx >= |ids| then [] else [ids[idx..Min(idx + size, |ids|)]] + ChunksFrom(ids, size, idx + size)
  }

  /** Every chunk is a run of the collected ids: its ids are among them and, like them, distinct. */
  lemma {:induction false} ChunksFromElems(ids: seq<Value>, size: nat, idx: nat)
    requires size > 0 && Distinct(ids)
    ensures forall k :: 0 <= k < |ChunksFrom(ids, size, idx)| ==>
      Elems(ChunksFrom(ids, size, idx)[k]) <= Elems(ids) && Distinct(ChunksFrom(ids, size, idx)[k])
    decreases |ids| - idx
  {
    if idx < |ids| {
      ChunksFromElems(ids, size, idx + size);
      var head := ids[idx..Min(idx + size, |ids|)];
      var cs := ChunksFrom(ids, size, idx);
      assert cs == [head] + ChunksFrom(ids, size, idx + size);
      assert forall k :: 1 <= k < |cs| ==> cs[k] == ChunksFrom(ids, size, idx + size)[k - 1];
      assert Distinct(head) by {
        forall i, j | 0 <= i < j < |head| ensures head[i] != head[j] { assert head[i] == ids[idx + i] && head[j] == ids[idx + j]; }
      }
      assert Elems(head) <= Elems(ids) by {
        forall x | x in Elems(head) ensures x in Elems(ids) { var i :| 0 <= i < |head| && head[i] == x; assert ids[idx + i] == x; }
      }
    }
  }

  function Chunks(ids: seq<Value>, size: nat): seq<seq<Value>>
    requires size > 0
  {
    ChunksFrom(ids, size, 0)
  }

  function Concat(cs: seq<seq<Value>>): seq<Value>
    decreases |cs|
  {
    if cs == [] then [] else Concat(cs[..|cs| - 1]) + cs[|cs| - 1]
  }

  lemma {:induction false} ConcatCons(c: seq<Value>, cs: seq<seq<Value>>)
    ensures Concat([c] + cs) == c + Concat(cs)
    decreases |cs|
  {
    if cs != [] {
      assert ([c] + cs)[..|[c] + cs| - 1] == [c] + cs[..|cs| - 1];
      ConcatCons(c, cs[..|cs| - 1]);
    }
  }

  lemma {:induction false} ChunksFromConcat(ids: seq<Value>, size: nat, idx: nat)
    requires size > 0 && idx <= |ids|
    ensures Concat(ChunksFrom(ids, size, idx)) == ids[idx..]
    decreases |ids| - idx
  {
    if idx < |ids| {
      var head := ids[idx..Min(idx + size, |ids|)];
      var rest := ChunksFrom(ids, size, idx + size);
      if idx + size <= |ids| {
        ChunksFromConcat(ids, size, idx + size);
        ConcatCons(head, rest);
        assert ids[idx..] == head + ids[idx + size..];
      } else {
        assert rest == [];
        ConcatCons(head, rest);
        assert head == ids[idx..];
      }
    }
  }

  lemma {:induction false} ChunksFromSizes(ids: seq<Value>, size: nat, idx: nat)
    requires size > 0
    ensures forall k :: 0 <= k < |ChunksFrom(ids, size, idx)| ==> 0 < |ChunksFrom(ids, size, idx)[k]| <= size
    ensures forall k :: 0 <= k < |ChunksFrom(ids, size, idx)| - 1 ==> |ChunksFrom(ids, size, idx)[k]| == size
    decreases |ids| - idx
  {
    if idx < |ids| {
      ChunksFromSizes(ids, size, idx + size);
      var cs := ChunksFrom(ids, size, idx);
      var rest := ChunksFrom(ids, size, idx + size);
      var head := ids[idx..Min(idx + size, |ids|)];
      assert cs == [head] + rest;
      assert 0 < |head| <= size;
      assert forall k :: 1 <= k < |cs| ==> cs[k] == rest[k - 1];
      if |cs| > 1 {
        assert rest != [];
        assert idx + size < |ids|;
        assert |cs[0]| == size;
      }
    }
  }

  lemma {:induction false} ChunksFromCount(ids: seq<Value>, size: nat, idx: nat)
    requires size > 0 && idx < |ids|
    ensures var n := |ChunksFrom(ids, size, idx)|;
      (n - 1) * size < |ids| - idx <= n * size
    decreases |ids| - idx
  {
    var n := |ChunksFrom(ids, size, idx)|;
    if idx + size < |ids| {
      ChunksFromCount(ids, size, idx + size);
      var m := |ChunksFrom(ids, size, idx + size)|;
      assert n == m + 1;
      assert (m - 1) * size < |ids| - idx - size <= m * size;
      assert n * size == m * size + size;
      assert (n - 1) * size == m * size;
    } else {
      assert ChunksFrom(ids, size, idx + size) == [];
      assert n == 1;
    }
  }

  /**
   * The chunks partition the collected ids: none is empty, none is longer
   * than the chunk size, all but the last are exactly that long, they
   * concatenate back to the ids in order, and there are ceil(n / size) of them.
   */
  lemma ChunksPartition(ids: seq<Value>, size: nat)
    requires size > 0
    ensures var cs := Chunks(ids, size);
      && Concat(cs) == ids
      && (forall k :: 0 <= k < |cs| ==> 0 < |cs[k]| <= size)
      && (forall k :: 0 <= k < |cs| - 1 ==> |cs[k]| == size)
      && (ids == [] ==> cs == [])
      && (ids != [] ==> (|cs| - 1) * size < |ids| <= |cs| * size)
  {
    ChunksFromConcat(ids, size, 0);
    ChunksFromSizes(ids, size, 0);
    if ids != [] {
      ChunksFromCount(ids, size, 0);
    }
    assert ids[0..] == ids;
  }

  // ---------------------------------------------------------------------
  // The options and abort bookkeeping of a chunk

  /** `pendingFetches.get(id).options` */
  function OptionsAt(entries: map<Value, PendingFetch>, id: Value): seq<Options> {
    if id in entries then entries[id].options else []
  }

  /** Every caller's options in a chunk: id by id, each id's in registration order. */
  function OptionsOf(entries: map<Value, PendingFetch>, ids: seq<Value>): seq<Options>
    decreases |ids|
  {
    if ids == [] then []
    else OptionsOf(entries, ids[..|ids| - 1]) + OptionsAt(entries, ids[|ids| - 1])
  }

  /** `opts.reduce((acc, o) => ({ ...acc, ...o }), acc)` */
  function FoldOptions(acc: Options, opts: seq<Options>): Options
    decreases |opts|
  {
    if opts == [] then acc else MergeOptions(FoldOptions(acc, opts[..|opts| - 1]), opts[|opts| - 1])
  }

  lemma {:induction false} FoldOptionsAppend(acc: Options, a: seq<Options>, b: seq<Options>)
    ensures FoldOptions(acc, a + b) == FoldOptions(FoldOptions(acc, a), b)
    decreases |b|
  {
    if b == [] {
      assert a + b == a;
    } else {
      assert (a + b)[..|a + b| - 1] == a + b[..|b| - 1];
      FoldOptionsAppend(acc, a, b[..|b| - 1]);
    }
  }

  /** Whether some options in the list carry the signal `s`. */
  ghost predicate PassedSignal(opts: seq<Options>, s: Signal) {
    exists i :: 0 <= i < |opts| && opts[i].signal == Some(s)
  }

  /** A field is present in the merged options exactly when some caller set it. */
  lemma {:induction false} FoldOptionsHas(opts: seq<Options>, key: string)
    ensures key in FoldOptions(NoOptions, opts).rest <==> exists i :: 0 <= i < |opts| && key in opts[i].rest
    decreases |opts|
  {
    if opts != [] {
      var init := opts[..|opts| - 1];
      FoldOptionsHas(init, key);
      assert forall i :: 0 <= i < |init| ==> init[i] == opts[i];
    }
  }

  /** In the merged options a field has the value the last caller setting it gave. */
  lemma {:induction false} FoldOptionsLastWins(opts: seq<Options>, key: string, i: nat)
    requires i < |opts| && key in opts[i].rest
    requires forall j :: i < j < |opts| ==> key !in opts[j].rest
    ensures key in FoldOptions(NoOptions, opts).rest && FoldOptions(NoOptions, opts).rest[key] == opts[i].rest[key]
    decreases |opts|
  {
    if i < |opts| - 1 {
      var init := opts[..|opts| - 1];
      assert init[i] == opts[i];
      forall j | i < j < |init| ensures key !in init[j].rest { assert init[j] == opts[j]; }
      FoldOptionsLastWins(init, key, i);
      assert key !in opts[|opts| - 1].rest;
    }
  }

  /** The merged signal is absent exactly when no caller passed one. */
  lemma {:induction false} FoldOptionsSignal(opts: seq<Options>)
    ensures FoldOptions(NoOptions, opts).signal.None? <==> forall i :: 0 <= i < |opts| ==> opts[i].signal.None?
    decreases |opts|
  {
    if opts != [] {
      var init := opts[..|opts| - 1];
      FoldOptionsSignal(init);
      assert forall i :: 0 <= i < |init| ==> init[i] == opts[i];
    }
  }

  /** The merged signal is the last one a caller passed. */
  lemma {:induction false} FoldOptionsLastSignal(opts: seq<Options>, i: nat)
    requires i < |opts| && opts[i].signal.Some?
    requires forall j :: i < j < |opts| ==> opts[j].signal.None?
    ensures FoldOptions(NoOptions, opts).signal == opts[i].signal
    decreases |opts|
  {
    if i < |opts| - 1 {
      var init := opts[..|opts| - 1];
      assert init[i] == opts[i];
      forall j | i < j < |init| ensures init[j].signal.None? { assert init[j] == opts[j]; }
      FoldOptionsLastSignal(init, i);
    }
  }

  /** Register `id` under every signal its callers passed: `idsBySignal.get(signal).add(id)`. */
  function AddSignals(m: map<Signal, set<Value>>, id: Value, opts: seq<Options>): map<Signal, set<Value>>
    decreases |opts|
  {
    if opts == [] then m
    else
      var front := AddSignals(m, id, opts[..|opts| - 1]);
      match opts[|opts| - 1].signal
      case None => front
      case Some(s) => front[s := (if s in front then front[s] else {}) + {id}]
  }

  /** The chunk's ids grouped by the signals their callers passed. */
  function SignalIds(entries: map<Value, PendingFetch>, ids: seq<Value>): map<Signal, set<Value>>
    decreases |ids|
  {
    if ids == [] then map[]
    else
      var last := ids[|ids| - 1];
      AddSignals(SignalIds(entries, ids[..|ids| - 1]), last, OptionsAt(entries, last))
  }

  lemma {:induction false} AddSignalsEffect(m: map<Signal, set<Value>>, id: Value, opts: seq<Options>)
    ensures var r := AddSignals(m, id, opts);
      && (forall s :: s in r <==> s in m || PassedSignal(opts, s))
      && (forall s, x :: s in r && x in r[s] <==> (s in m && x in m[s]) || (x == id && PassedSignal(opts, s)))
    decreases |opts|
  {
    if opts != [] {
      var init := opts[..|opts| - 1];
      AddSignalsEffect(m, id, init);
      assert forall i :: 0 <= i < |init| ==> init[i] == opts[i];
      forall s ensures PassedSignal(opts, s) <==> PassedSignal(init, s) || opts[|opts| - 1].signal == Some(s) {
        if PassedSignal(opts, s) {
          var i :| 0 <= i < |opts| && opts[i].signal == Some(s);
          if i < |init| { assert init[i].signal == Some(s); }
        }
      }
    }
  }

  /**
   * A signal indexes exactly the chunk's ids some caller of which passed it,
   * so the chunk's signals are exactly the signals its callers passed.
   */
  lemma {:induction false} SignalKeysExactly(entries: map<Value, PendingFetch>, ids: seq<Value>)
    requires Elems(ids) <= entries.Keys
    ensures forall s :: s in SignalIds(entries, ids) <==> exists id :: id in ids && PassedSignal(entries[id].options, s)
    decreases |ids|
  {
    if ids != [] {
      var init := ids[..|ids| - 1];
      var last := ids[|ids| - 1];
      assert forall id :: id in ids <==> id in init || id == last by { assert ids == init + [last]; }
      SignalKeysExactly(entries, init);
      AddSignalsEffect(SignalIds(entries, init), last, entries[last].options);
      forall s ensures s in SignalIds(entries, ids) <==> exists id :: id in ids && PassedSignal(entries[id].options, s) {
        if s in SignalIds(entries, init) {
          var id :| id in init && PassedSignal(entries[id].options, s);
          assert id in ids;
        }
        if exists id :: id in ids && PassedSignal(entries[id].options, s) {
          var id :| id in ids && PassedSignal(entries[id].options, s);
          if id in init { assert s in SignalIds(entries, init); }
        }
      }
    }
  }

  lemma {:induction false} SignalPairsExactly(entries: map<Value, PendingFetch>, ids: seq<Value>)
    requires Elems(ids) <= entries.Keys
    ensures forall s, x :: s in SignalIds(entries, ids) && x in SignalIds(entries, ids)[s]
                           <==> x in ids && PassedSignal(entries[x].options, s)
    decreases |ids|
  {
    if ids != [] {
      var init := ids[..|ids| - 1];
      var last := ids[|ids| - 1];
      assert forall id :: id in ids <==> id in init || id == last by { assert ids == init + [last]; }
      SignalPairsExactly(entries, init);
      AddSignalsEffect(SignalIds(entries, init), last, entries[last].options);
    }
  }

  /** Collected ids awaiting one request, and what has become of its signal. */
  datatype Chunk = Chunk(typeName: string, ids: seq<Value>, options: Options,
                         idsBySignal: map<Signal, set<Value>>, aborted: set<Value>,
                         signalAborted: bool, settled: bool)

  ghost predicate ChunkValid(c: Chunk) {
    && |c.ids| > 0
    && Distinct(c.ids)
    && (forall s :: s in c.idsBySignal ==> c.idsBySignal[s] <= Elems(c.ids))
    && (forall id :: id in c.aborted ==> exists s :: s in c.idsBySignal && id in c.idsBySignal[s])
    && c.aborted <= Elems(c.ids)
    && (c.signalAborted <==> |c.aborted| == |c.ids|)
  }

  /**
   * The chunk `purgePendingChunk` builds from the ids' entries: the merged
   * options, the ids by signal, and its own signal (numbered `no`), given
   * only when some caller passed one.
   */
  function ChunkFor(t: string, entries: map<Value, PendingFetch>, ids: seq<Value>, no: nat): Chunk {
    NewChunk(t, ids, FoldOptions(NoOptions, OptionsOf(entries, ids)), SignalIds(entries, ids), no)
  }

  /** A fresh chunk, with its own signal given to the request when some id is listened for. */
  function NewChunk(t: string, ids: seq<Value>, merged: Options, bySignal: map<Signal, set<Value>>, no: nat): Chunk {
    Chunk(t, ids, if |bySignal| > 0 then merged.(signal := Some(ChunkSignal(no))) else merged,
          bySignal, {}, false, false)
  }

  /** Some caller of one of the ids passed a signal. */
  ghost predicate AnySignal(entries: map<Value, PendingFetch>, ids: seq<Value>)
    requires Elems(ids) <= entries.Keys
  {
    exists id, s :: id in ids && PassedSignal(entries[id].options, s)
  }

  lemma ChunkForValid(t: string, entries: map<Value, PendingFetch>, ids: seq<Value>, no: nat)
    requires |ids| > 0 && Distinct(ids)
    ensures ChunkValid(ChunkFor(t, entries, ids, no))
  {
    SignalIdsWithin(entries, ids);
  }

  /** Every id a signal indexes is one of the chunk's ids. */
  lemma {:induction false} SignalIdsWithin(entries: map<Value, PendingFetch>, ids: seq<Value>)
    ensures forall s :: s in SignalIds(entries, ids) ==> SignalIds(entries, ids)[s] <= Elems(ids)
    decreases |ids|
  {
    if ids != [] {
      var init := ids[..|ids| - 1];
      var last := ids[|ids| - 1];
      SignalIdsWithin(entries, init);
      AddSignalsEffect(SignalIds(entries, init), last, OptionsAt(entries, last));
      assert Elems(ids) == Elems(init) + {last} by { assert ids == init + [last]; }
      var m := SignalIds(entries, init);
      var r := SignalIds(entries, ids);
      forall s | s in r ensures r[s] <= Elems(ids) {
        forall x | x in r[s] ensures x in Elems(ids) {
          assert (s in m && x in m[s]) || x == last;
        }
      }
    }
  }

  /**
   * The chunk's request carries the chunk's own signal exactly when some
   * caller passed one, and no signal otherwise; its other fields are the
   * callers' merged options.
   */
  lemma ChunkForSignal(t: string, entries: map<Value, PendingFetch>, ids: seq<Value>, no: nat)
    requires Elems(ids) <= entries.Keys
    ensures var c := ChunkFor(t, entries, ids, no);
      && (c.options.signal == Some(ChunkSignal(no)) <==> AnySignal(entries, ids))
      && (c.options.signal.None? <==> !AnySignal(entries, ids))
      && c.options.rest == FoldOptions(NoOptions, OptionsOf(entries, ids)).rest
  {
    SignalKeysExactly(entries, ids);
    var m := SignalIds(entries, ids);
    if AnySignal(entries, ids) {
      var id, s :| id in ids && PassedSignal(entries[id].options, s);
      assert s in m.Keys;
    } else {
      assert m.Keys == {};
      FoldOptionsNoSignal(entries, ids);
    }
  }

  lemma {:induction false} FoldOptionsNoSignal(entries: map<Value, PendingFetch>, ids: seq<Value>)
    requires Elems(ids) <= entries.Keys
    requires forall id, s :: id in ids ==> !PassedSignal(entries[id].options, s)
    ensures FoldOptions(NoOptions, OptionsOf(entries, ids)).signal.None?
  {
    var opts := OptionsOf(entries, ids);
    FoldOptionsSignal(opts);
    forall i | 0 <= i < |opts| ensures opts[i].signal.None? {
      OptionsOfHas(entries, ids, i);
      var id :| id in ids && opts[i] in entries[id].options;
      var k :| 0 <= k < |entries[id].options| && entries[id].options[k] == opts[i];
      forall sg ensures entries[id].options[k].signal != Some(sg) {
        assert !PassedSignal(entries[id].options, sg);
      }
    }
  }

  lemma {:induction false} OptionsOfHas(entries: map<Value, PendingFetch>, ids: seq<Value>, i: nat)
    requires Elems(ids) <= entries.Keys
    requires i < |OptionsOf(entries, ids)|
    ensures exists id :: id in ids && OptionsOf(entries, ids)[i] in entries[id].options
    decreases |ids|
  {
    var init := ids[..|ids| - 1];
    var last := ids[|ids| - 1];
    var front := OptionsOf(entries, init);
    assert forall id :: id in init ==> id in ids;
    if i < |front| {
      OptionsOfHas(entries, init, i);
      assert OptionsOf(entries, ids)[i] == front[i];
    } else {
      assert OptionsOf(entries, ids)[i] == entries[last].options[i - |front|];
    }
  }

  lemma {:induction false} DistinctCard(s: seq<Value>)
    requires Distinct(s)
    ensures |Elems(s)| == |s|
    decreases |s|
  {
    if s != [] {
      var init := s[..|s| - 1];
      DistinctInit(s);
      DistinctCard(init);
      assert Elems(s) == Elems(init) + {s[|s| - 1]};
    }
  }

  lemma {:induction false} SubsetCard(a: set<Value>, b: set<Value>)
    requires a <= b
    ensures |a| <= |b|
    ensures |a| == |b| ==> a == b
    decreases |b|
  {
    if a != {} {
      var x :| x in a;
      SubsetCard(a - {x}, b - {x});
      if |a| == |b| {
        assert a - {x} == b - {x};
        assert a == (a - {x}) + {x} && b == (b - {x}) + {x};
      }
    }
  }

  /** The chunk's listener on one caller signal: `abortedById` gains that signal's ids. */
  function AbortChunk(c: Chunk, s: Signal): Chunk {
    if s in c.idsBySignal then
      var ab := c.aborted + c.idsBySignal[s];
      c.(aborted := ab, signalAborted := c.signalAborted || |ab| == |c.ids|)
    else c
  }

  /**
   * The chunk's own signal is conjunctive: it has aborted exactly when every
   * id of the chunk has been aborted through some caller's signal, so an id
   * none of whose callers passed a signal keeps it from ever aborting.
   */
  lemma ConjunctiveAbort(c: Chunk)
    requires ChunkValid(c)
    ensures c.signalAborted <==> forall id :: id in c.ids ==> id in c.aborted
    ensures (exists id :: id in c.ids && forall s :: s in c.idsBySignal ==> id !in c.idsBySignal[s]) ==> !c.signalAborted
  {
    DistinctCard(c.ids);
    SubsetCard(c.aborted, Elems(c.ids));
    if forall id :: id in c.ids ==> id in c.aborted {
      assert c.aborted == Elems(c.ids);
    }
  }

  lemma AbortChunkValid(c: Chunk, s: Signal)
    requires ChunkValid(c)
    ensures ChunkValid(AbortChunk(c, s))
    ensures AbortChunk(c, s).aborted == c.aborted + (if s in c.idsBySignal then c.idsBySignal[s] else {})
  {
    if s in c.idsBySignal {
      var ab := c.aborted + c.idsBySignal[s];
      DistinctCard(c.ids);
      SubsetCard(c.aborted, ab);
      SubsetCard(ab, Elems(c.ids));
    }
  }

  /** Every chunk's listener on the signal, in dispatch order. */
  function AbortChunks(cs: seq<Chunk>, s: Signal): (r: seq<Chunk>)
    ensures |r| == |cs| && forall k :: 0 <= k < |cs| ==> r[k] == AbortChunk(cs[k], s)
  {
    seq(|cs|, k requires 0 <= k < |cs| => AbortChunk(cs[k], s))
  }

  // ---------------------------------------------------------------------
  // Completing a chunk

  /** The adapter call a chunk makes. */
  datatype TransportCall = FindOne(typeName: string, id: Value, options: Options)
                         | FindMany(typeName: string, ids: seq<Value>, options: Options)

  function CallFor(c: Chunk): TransportCall {
    if |c.ids| == 1 then FindOne(c.typeName, c.ids[0], c.options) else FindMany(c.typeName, c.ids, c.options)
  }

  /** The chunks `purgePendingFetches` dispatches, numbered from `base`. */
  function NewChunks(t: string, entries: map<Value, PendingFetch>, cs: seq<seq<Value>>, base: nat): (r: seq<Chunk>)
    ensures |r| == |cs| && forall k :: 0 <= k < |cs| ==> r[k] == ChunkFor(t, entries, cs[k], base + k)
  {
    seq(|cs|, k requires 0 <= k < |cs| => ChunkFor(t, entries, cs[k], base + k))
  }

  function CallsOf(cs: seq<Chunk>): (r: seq<TransportCall>)
    ensures |r| == |cs| && forall k :: 0 <= k < |cs| ==> r[k] == CallFor(cs[k])
  {
    seq(|cs|, k requires 0 <= k < |cs| => CallFor(cs[k]))
  }

  /** Entries that agree on their options build the same chunk. */
  lemma {:induction false} SameOptionsSameChunk(e1: map<Value, PendingFetch>, e2: map<Value, PendingFetch>,
                                                ids: seq<Value>)
    requires forall id :: OptionsAt(e1, id) == OptionsAt(e2, id)
    ensures OptionsOf(e1, ids) == OptionsOf(e2, ids)
    ensures SignalIds(e1, ids) == SignalIds(e2, ids)
    decreases |ids|
  {
    if ids != [] {
      SameOptionsSameChunk(e1, e2, ids[..|ids| - 1]);
    }
  }

  /** Marking ids started does not change the chunk built from the registry. */
  lemma ChunkForIgnoresStarted(t: string, reg: Registry, marked: set<Value>, ids: seq<Value>, no: nat)
    ensures ChunkFor(t, MarkStarted(reg, marked).entries, ids, no) == ChunkFor(t, reg.entries, ids, no)
  {
    var e := MarkStarted(reg, marked).entries;
    forall id ensures OptionsAt(e, id) == OptionsAt(reg.entries, id) {
    }
    SameOptionsSameChunk(e, reg.entries, ids);
  }

  /** How the adapter's promise settles: with the decoded JSON body, or with an error. */
  datatype Response = Delivered(payload: Value) | TransportFailed(cause: Value)

  /** What the single-id path decides for its id. */
  function SingleFate(schema: Serializer.Schema, unserialize: Serializer.Transform, t: string, id: Value,
                      response: Response): Fate
  {
    match response
    case TransportFailed(cause) => Reject(Failure(cause))
    case Delivered(payload) =>
      match Serializer.UnserializeSingle(schema, unserialize, t, payload)
      case Err(e) => Reject(e)
      case Ok(None) => Reject(TypeError)
      case Ok(Some(e)) => if IdOf(e) != id then Reject(Mismatch(t, id)) else Resolve(Some(e))
  }

  /**
   * The single-id path resolves its id only with an entity carrying that
   * very id, and otherwise rejects it.
   */
  lemma SingleFateResolves(schema: Serializer.Schema, unserialize: Serializer.Transform, t: string, id: Value,
                           response: Response)
    ensures var f := SingleFate(schema, unserialize, t, id, response);
      f.Resolve? <==> (response.Delivered? &&
        exists e :: Serializer.UnserializeSingle(schema, unserialize, t, response.payload) == Ok(Some(e)) && IdOf(e) == id)
    ensures SingleFate(schema, unserialize, t, id, response).Resolve? ==>
      SingleFate(schema, unserialize, t, id, response).data.Some? &&
      IdOf(SingleFate(schema, unserialize, t, id, response).data.value) == id
  {
    if response.Delivered? {
      var u := Serializer.UnserializeSingle(schema, unserialize, t, response.payload);
      if u.Ok? && u.value.Some? && IdOf(u.value.value) == id {
        assert u == Ok(Some(u.value.value));
      }
    }
  }

  /**
   * The resolve and reject calls of the completion handler of a chunk, in
   * the order the handler makes them.
   */
  function ChunkPlan(schema: Serializer.Schema, unserialize: Serializer.Transform, c: Chunk, response: Response)
    : seq<Step>
    requires |c.ids| > 0
  {
    var t := c.typeName;
    if |c.ids| == 1 then
      var id := c.ids[0];
      match response
      case TransportFailed(cause) => [Step(t, id, Reject(Failure(cause)))]
      case Delivered(payload) =>
        match Serializer.UnserializeSingle(schema, unserialize, t, payload)
        case Err(e) => [Step(t, id, Reject(e))]
        case Ok(None) => [Step(t, id, Reject(TypeError))]
        case Ok(Some(e)) =>
          (if IdOf(e) != id then [Step(t, id, Reject(Mismatch(t, id)))] else []) + [Step(t, id, Resolve(Some(e)))]
    else
      match response
      case TransportFailed(cause) => RejectEach(t, c.ids, Failure(cause))
      case Delivered(payload) =>
        match Serializer.UnserializeList(schema, unserialize, t, payload)
        case Err(e) => RejectEach(t, c.ids, e)
        case Ok(entities) =>
          if !AllPresent(entities) then RejectEach(t, c.ids, TypeError)
          else
            var loaded := LoadedById(Present(entities));
            MissingSteps(t, c.ids, c.aborted, loaded) + ResolveEach(t, c.ids, loaded)
  }

  /**
   * A single-id chunk settles its entry once, with the fate above: in the
   * mismatch case the resolve that follows the rejection does nothing.
   */
  lemma SinglePlanEffect(schema: Serializer.Schema, unserialize: Serializer.Transform, c: Chunk, response: Response,
                         b: Book)
    requires |c.ids| == 1
    ensures Settle(b, ChunkPlan(schema, unserialize, c, response))
         == Apply(b, Step(c.typeName, c.ids[0], SingleFate(schema, unserialize, c.typeName, c.ids[0], response)))
  {
    var t := c.typeName;
    var id := c.ids[0];
    var plan := ChunkPlan(schema, unserialize, c, response);
    var fate := SingleFate(schema, unserialize, t, id, response);
    if response.Delivered? && Serializer.UnserializeSingle(schema, unserialize, t, response.payload).Ok?
       && Serializer.UnserializeSingle(schema, unserialize, t, response.payload).value.Some?
    {
      var e := Serializer.UnserializeSingle(schema, unserialize, t, response.payload).value.value;
      var last := Step(t, id, Resolve(Some(e)));
      if IdOf(e) != id {
        var first := Step(t, id, Reject(Mismatch(t, id)));
        assert plan == [first, last];
        assert plan[..1] == [first];
        SettleOne(b, first);
        SecondSettleIsNoop(b, t, id, first.fate, last.fate);
      } else {
        assert plan == [last];
        SettleOne(b, last);
      }
    } else {
      assert plan == [Step(t, id, fate)];
      SettleOne(b, Step(t, id, fate));
    }
  }

  /** Whatever the response, completing a chunk leaves none of its ids pending. */
  lemma PlanSettlesEveryId(schema: Serializer.Schema, unserialize: Serializer.Transform, c: Chunk, response: Response,
                           b: Book)
    requires ChunkValid(c) && c.typeName in b.registries
    ensures var a := Settle(b, ChunkPlan(schema, unserialize, c, response));
      && c.typeName in a.registries
      && (forall id :: id in c.ids ==> id !in a.registries[c.typeName].entries)
      && a.registries == b.registries[c.typeName := a.registries[c.typeName]]
  {
    var t := c.typeName;
    if |c.ids| == 1 {
      SinglePlanEffect(schema, unserialize, c, response, b);
    } else {
      match response
      case TransportFailed(cause) => RejectEachEffect(b, t, c.ids, Failure(cause));
      case Delivered(payload) =>
        match Serializer.UnserializeList(schema, unserialize, t, payload)
        case Err(e) => RejectEachEffect(b, t, c.ids, e);
        case Ok(entities) =>
          if !AllPresent(entities) {
            RejectEachEffect(b, t, c.ids, TypeError);
          } else {
            ManyResponseEffect(b, t, c.ids, c.aborted, LoadedById(Present(entities)));
          }
    }
  }

  // ---------------------------------------------------------------------
  // A caller's signal aborting

  /** The listener `loadEntityById` attaches to a caller's signal. */
  datatype Listener = Listener(signal: Signal, typeName: string, id: Value)

  /** The rejections the listeners on `s` make, in registration order. */
  function AbortSteps(ls: seq<Listener>, s: Signal): seq<Step>
    decreases |ls|
  {
    if ls == [] then []
    else
      var last := ls[|ls| - 1];
      AbortSteps(ls[..|ls| - 1], s) + (if last.signal == s then [Step(last.typeName, last.id, Reject(Aborted))] else [])
  }

  /**
   * A caller's signal aborting rejects, with Aborted, the whole entry of
   * every id a caller registered with that signal: none of those entries
   * is left, whoever else was waiting on it, and nothing but Aborted
   * rejections is fired.
   */
  lemma AbortRemovesEntries(b: Book, ls: seq<Listener>, s: Signal)
    ensures var a := Settle(b, AbortSteps(ls, s));
      && (forall i :: 0 <= i < |ls| && ls[i].signal == s ==> !Has(a, ls[i].typeName, ls[i].id))
      && |a.settlements| >= |b.settlements| && a.settlements[..|b.settlements|] == b.settlements
      && (forall k :: |b.settlements| <= k < |a.settlements| ==> a.settlements[k].Rejected? && a.settlements[k].reason == Aborted)
  {
    AbortRemovals(b, ls, s);
    AbortStepsReject(ls, s);
    SettleOnlyRejects(b, AbortSteps(ls, s), Aborted);
  }

  lemma {:induction false} AbortRemovals(b: Book, ls: seq<Listener>, s: Signal)
    ensures forall i :: 0 <= i < |ls| && ls[i].signal == s ==> !Has(Settle(b, AbortSteps(ls, s)), ls[i].typeName, ls[i].id)
    decreases |ls|
  {
    if ls != [] {
      var init := ls[..|ls| - 1];
      var last := ls[|ls| - 1];
      AbortRemovals(b, init, s);
      var mid := Settle(b, AbortSteps(init, s));
      assert ls == init + [last];
      if last.signal == s {
        var step := Step(last.typeName, last.id, Reject(Aborted));
        SettleSnoc(b, AbortSteps(init, s), step);
        AbortRemovalsSnoc(mid, init, last, s);
      } else {
        assert AbortSteps(ls, s) == AbortSteps(init, s);
        AbortRemovalsSkip(mid, init, last, s);
      }
    }
  }

  lemma AbortRemovalsSnoc(mid: Book, init: seq<Listener>, last: Listener, s: Signal)
    requires forall i :: 0 <= i < |init| && init[i].signal == s ==> !Has(mid, init[i].typeName, init[i].id)
    ensures forall i :: 0 <= i < |init + [last]| && (init + [last])[i].signal == s ==>
      !Has(Apply(mid, Step(last.typeName, last.id, Reject(Aborted))), (init + [last])[i].typeName, (init + [last])[i].id)
  {
    var ls := init + [last];
    var a := Apply(mid, Step(last.typeName, last.id, Reject(Aborted)));
    assert !Has(a, last.typeName, last.id);
    forall i | 0 <= i < |ls| && ls[i].signal == s ensures !Has(a, ls[i].typeName, ls[i].id) {
      if i < |init| {
        assert ls[i] == init[i];
        ApplyNeverAdds(mid, Step(last.typeName, last.id, Reject(Aborted)), init[i].typeName, init[i].id);
      }
    }
  }

  lemma AbortRemovalsSkip(mid: Book, init: seq<Listener>, last: Listener, s: Signal)
    requires last.signal != s
    requires forall i :: 0 <= i < |init| && init[i].signal == s ==> !Has(mid, init[i].typeName, init[i].id)
    ensures forall i :: 0 <= i < |init + [last]| && (init + [last])[i].signal == s ==>
      !Has(mid, (init + [last])[i].typeName, (init + [last])[i].id)
  {
    var ls := init + [last];
    forall i | 0 <= i < |ls| && ls[i].signal == s ensures !Has(mid, ls[i].typeName, ls[i].id) {
      assert i < |init| && ls[i] == init[i];
    }
  }

  /** Every step an abort takes rejects with Aborted. */
  lemma {:induction false} AbortStepsReject(ls: seq<Listener>, s: Signal)
    ensures forall k :: 0 <= k < |AbortSteps(ls, s)| ==> AbortSteps(ls, s)[k].fate == Reject(Aborted)
    decreases |ls|
  {
    if ls != [] {
      AbortStepsReject(ls[..|ls| - 1], s);
    }
  }

  /**
   * Steps that all reject with one reason keep the settlements so far and
   * add only rejections with that reason.
   */
  lemma {:induction false} SettleOnlyRejects(b: Book, steps: seq<Step>, reason: Error)
    requires forall k :: 0 <= k < |steps| ==> steps[k].fate == Reject(reason)
    ensures |Settle(b, steps).settlements| >= |b.settlements|
    ensures Settle(b, steps).settlements[..|b.settlements|] == b.settlements
    ensures forall k :: |b.settlements| <= k < |Settle(b, steps).settlements| ==>
      Settle(b, steps).settlements[k].Rejected? && Settle(b, steps).settlements[k].reason == reason
    decreases |steps|
  {
    if steps != [] {
      var init := steps[..|steps| - 1];
      var step := steps[|steps| - 1];
      assert forall k :: 0 <= k < |init| ==> init[k] == steps[k];
      SettleOnlyRejects(b, init, reason);
      var mid := Settle(b, init);
      var a := Apply(mid, step);
      assert a == Settle(b, steps);
      if Has(mid, step.typeName, step.id) {
        var fired := Fired(mid.registries[step.typeName].entries[step.id], step.fate);
        assert a.settlements == mid.settlements + fired;
        forall k | |b.settlements| <= k < |a.settlements|
          ensures a.settlements[k].Rejected? && a.settlements[k].reason == reason
        {
          if k >= |mid.settlements| { assert a.settlements[k] == fired[k - |mid.settlements|]; }
          else { assert a.settlements[k] == mid.settlements[k]; }
        }
        assert a.settlements[..|b.settlements|] == mid.settlements[..|b.settlements|];
      }
    }
  }

}
