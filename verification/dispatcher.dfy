/**
 * The fetch coalescer (src/request-dispatcher/index.js) as a class: the
 * registry of pending fetches per type, the listeners on callers' signals,
 * the chunks dispatched and the transport calls made. The debounce timer
 * firing, a signal aborting and a chunk's response arriving are method
 * calls; each caller's promise is a token whose settlements are logged.
 */
module RequestDispatcher {
  import opened Values
  import opened PendingFetches
  import Serializer

  class Dispatcher {
    /** `pendingFetchesByTypeName` */
    var registries: map<string, Registry>
    /** Every resolve and reject call made on a caller's promise, in order. */
    var settlements: seq<Settlement>
    /** The abort listeners `loadEntityById` attached, in registration order. */
    var listeners: seq<Listener>
    /** The caller signals that have aborted. */
    var fired: set<Signal>
    /** Every chunk dispatched, in order; chunk `k` owns signal `ChunkSignal(k)`. */
    var chunks: seq<Chunk>
    /** Every adapter call made, in order. */
    var calls: seq<TransportCall>
    var nextCaller: Caller

    ghost predicate Valid()
      reads this
    {
      && BookValid(Book(registries, settlements))
      && (forall k :: 0 <= k < |chunks| ==> ChunkValid(chunks[k]))
    }

    function BookOf(): Book
      reads this
    {
      Book(registries, settlements)
    }

    constructor()
      ensures Valid()
      ensures registries == map[] && settlements == [] && listeners == [] && fired == {}
      ensures chunks == [] && calls == [] && nextCaller == 0
    {
      registries := map[];
      settlements := [];
      listeners := [];
      fired := {};
      chunks := [];
      calls := [];
      nextCaller := 0;
    }

    /** Join (or create) the pending fetch for `id`. */
    method AddPendingFetch(t: string, id: Value, caller: Caller, opts: Options)
      requires Valid()
      modifies this
      ensures Valid()
      ensures registries == old(registries)[t := AddCaller(RegistryFor(old(registries), t), id, caller, opts)]
      ensures settlements == old(settlements) && listeners == old(listeners) && fired == old(fired)
      ensures chunks == old(chunks) && calls == old(calls) && nextCaller == old(nextCaller)
    {
      var reg := RegistryFor(registries, t);
      AddCallerEffect(reg, id, caller, opts);
      registries := registries[t := AddCaller(reg, id, caller, opts)];
    }

    /**
     * A new caller for (type, id). Scheduling the purge is left to the
     * caller of this model, which calls PurgePendingFetches when the
     * debounce timer fires.
     */
    method LoadEntityById(t: string, id: Value, opts: Options) returns (caller: Caller)
      requires Valid()
      modifies this
      ensures Valid()
      ensures caller == old(nextCaller) && nextCaller == old(nextCaller) + 1
      ensures registries == old(registries)[t := AddCaller(RegistryFor(old(registries), t), id, caller, opts)]
      ensures listeners == old(listeners) + (if opts.signal.Some? then [Listener(opts.signal.value, t, id)] else [])
      ensures settlements == old(settlements) && fired == old(fired) && chunks == old(chunks) && calls == old(calls)
    {
      caller := nextCaller;
      nextCaller := nextCaller + 1;
      AddPendingFetch(t, id, caller, opts);
      if opts.signal.Some? {
        listeners := listeners + [Listener(opts.signal.value, t, id)];
      }
    }

    method ResolvePendingFetch(t: string, id: Value, data: Option<Record>)
      requires Valid()
      modifies this
      ensures Valid()
      ensures BookOf() == Apply(old(BookOf()), Step(t, id, Resolve(data)))
      ensures listeners == old(listeners) && fired == old(fired) && chunks == old(chunks)
      ensures calls == old(calls) && nextCaller == old(nextCaller)
    {
      ApplyValid(BookOf(), Step(t, id, Resolve(data)));
      if t in registries && id in registries[t].entries {
        var f := registries[t].entries[id];
        var i := 0;
        while i < |f.resolves|
          invariant 0 <= i <= |f.resolves|
          invariant settlements == old(settlements) + Fired(f, Resolve(data))[..i]
          invariant registries == old(registries) && listeners == old(listeners) && fired == old(fired)
          invariant chunks == old(chunks) && calls == old(calls) && nextCaller == old(nextCaller)
        {
          settlements := settlements + [Resolved(f.resolves[i], data)];
          i := i + 1;
          assert Fired(f, Resolve(data))[..i] == Fired(f, Resolve(data))[..i - 1] + [Resolved(f.resolves[i - 1], data)];
        }
        assert Fired(f, Resolve(data))[..i] == Fired(f, Resolve(data));
        registries := registries[t := RemoveEntry(registries[t], id)];
      }
    }

    method RejectPendingFetch(t: string, id: Value, reason: Error)
      requires Valid()
      modifies this
      ensures Valid()
      ensures BookOf() == Apply(old(BookOf()), Step(t, id, Reject(reason)))
      ensures listeners == old(listeners) && fired == old(fired) && chunks == old(chunks)
      ensures calls == old(calls) && nextCaller == old(nextCaller)
    {
      ApplyValid(BookOf(), Step(t, id, Reject(reason)));
      if t in registries && id in registries[t].entries {
        var f := registries[t].entries[id];
        var i := 0;
        while i < |f.rejects|
          invariant 0 <= i <= |f.rejects|
          invariant settlements == old(settlements) + Fired(f, Reject(reason))[..i]
          invariant registries == old(registries) && listeners == old(listeners) && fired == old(fired)
          invariant chunks == old(chunks) && calls == old(calls) && nextCaller == old(nextCaller)
        {
          settlements := settlements + [Rejected(f.rejects[i], reason)];
          i := i + 1;
          assert Fired(f, Reject(reason))[..i] == Fired(f, Reject(reason))[..i - 1] + [Rejected(f.rejects[i - 1], reason)];
        }
        assert Fired(f, Reject(reason))[..i] == Fired(f, Reject(reason));
        registries := registries[t := RemoveEntry(registries[t], id)];
      }
    }

    /** Reject every pending fetch of a type, in insertion order; the type is left with none. */
    method RejectAllPendingFetches(t: string, reason: Error)
      requires Valid()
      modifies this
      ensures Valid()
      ensures BookOf() == Settle(old(BookOf()), RejectEach(t, RegistryFor(old(registries), t).order, reason))
      ensures t in old(registries) ==> t in registries && registries[t].entries == map[]
      ensures listeners == old(listeners) && fired == old(fired) && chunks == old(chunks)
      ensures calls == old(calls) && nextCaller == old(nextCaller)
    {
      var order := RegistryFor(registries, t).order;
      var i := 0;
      while i < |order|
        invariant 0 <= i <= |order|
        invariant Valid()
        invariant BookOf() == Settle(old(BookOf()), RejectEach(t, order[..i], reason))
        invariant listeners == old(listeners) && fired == old(fired) && chunks == old(chunks)
        invariant calls == old(calls) && nextCaller == old(nextCaller)
      {
        RejectPendingFetch(t, order[i], reason);
        RejectEachPrefix(t, order, reason, i);
        SettleSnoc(old(BookOf()), RejectEach(t, order[..i], reason), Step(t, order[i], Reject(reason)));
        i := i + 1;
      }
      assert order[..i] == order;
      if t in old(registries) {
        RejectEachEffect(old(BookOf()), t, order, reason);
        assert old(registries)[t].entries.Keys == Elems(order);
      }
    }

    /**
     * The debounce timer firing: collect the ids whose loading has not
     * started, in insertion order, and dispatch them chunk by chunk.
     */
    method PurgePendingFetches(t: string, chunkSize: nat)
      requires Valid()
      requires chunkSize > 0
      modifies this
      ensures Valid()
      ensures var p := NotStarted(RegistryFor(old(registries), t).order, RegistryFor(old(registries), t).entries);
        if t !in old(registries) || p == [] then
          registries == old(registries) && chunks == old(chunks) && calls == old(calls)
        else
          var added := NewChunks(t, old(registries)[t].entries, Chunks(p, chunkSize), |old(chunks)|);
          && registries == old(registries)[t := MarkStarted(old(registries)[t], Elems(p))]
          && chunks == old(chunks) + added
          && calls == old(calls) + CallsOf(added)
      ensures settlements == old(settlements) && listeners == old(listeners) && fired == old(fired)
      ensures nextCaller == old(nextCaller)
    {
      if t !in registries {
        return;
      }
      var reg0 := registries[t];
      var pendingIds := NotStarted(reg0.order, reg0.entries);
      if |pendingIds| == 0 {
        return;
      }
      PendingReady(reg0);
      ghost var done: seq<seq<Value>> := [];
      MarkStartedNone(reg0);
      assert Elems(Concat(done)) == {};
      var idx := 0;
      while idx < |pendingIds|
        invariant Valid()
        invariant ChunkedUpTo(pendingIds, chunkSize, done, idx)
        invariant PurgedSoFar(t, reg0, done, old(registries), old(chunks), old(calls), registries, chunks, calls)
        invariant settlements == old(settlements) && listeners == old(listeners) && fired == old(fired)
        invariant nextCaller == old(nextCaller)
        decreases |pendingIds| - idx
      {
        done, idx := PurgeNextChunk(t, reg0, pendingIds, chunkSize, idx, done, old(registries), old(chunks), old(calls));
      }
      PurgeDone(pendingIds, chunkSize, done, idx);
    }

    /**
     * One turn of the purge loop: dispatch the slice of the collected ids
     * that starts at `idx`, and step `idx` on by the chunk size.
     */
    method PurgeNextChunk(t: string, reg0: Registry, pendingIds: seq<Value>, chunkSize: nat, idx: nat,
                          ghost done: seq<seq<Value>>, ghost regs0: map<string, Registry>,
                          ghost chunks0: seq<Chunk>, ghost calls0: seq<TransportCall>)
        returns (ghost done2: seq<seq<Value>>, idx2: nat)
      requires Valid()
      requires chunkSize > 0 && idx < |pendingIds| && Distinct(pendingIds) && Elems(pendingIds) <= reg0.entries.Keys
      requires ChunkedUpTo(pendingIds, chunkSize, done, idx)
      requires PurgedSoFar(t, reg0, done, regs0, chunks0, calls0, registries, chunks, calls)
      modifies this
      ensures Valid()
      ensures idx2 == idx + chunkSize
      ensures ChunkedUpTo(pendingIds, chunkSize, done2, idx2)
      ensures PurgedSoFar(t, reg0, done2, regs0, chunks0, calls0, registries, chunks, calls)
      ensures settlements == old(settlements) && listeners == old(listeners) && fired == old(fired)
      ensures nextCaller == old(nextCaller)
    {
      var chunkIds := pendingIds[idx..Min(idx + chunkSize, |pendingIds|)];
      NextChunk(pendingIds, chunkSize, idx, done);
      done2 := done + [chunkIds];
      idx2 := idx + chunkSize;
      assert ChunkedUpTo(pendingIds, chunkSize, done2, idx2);
      ghost var regs1, chunks1, calls1 := registries, chunks, calls;
      PurgePendingChunk(t, chunkIds);
      PurgeAdvance(t, reg0, done, chunkIds, regs0, chunks0, calls0, regs1, chunks1, calls1, registries, chunks, calls);
    }

    /**
     * Dispatch one chunk: mark its ids started, merge every caller's
     * options left to right, index the ids by the signals passed, give the
     * request the chunk's own signal when there is any, and call the adapter.
     */
    method PurgePendingChunk(t: string, ids: seq<Value>)
      requires Valid()
      requires t in registries && |ids| > 0 && Distinct(ids) && Elems(ids) <= registries[t].entries.Keys
      modifies this
      ensures Valid()
      ensures registries == old(registries)[t := MarkStarted(old(registries)[t], Elems(ids))]
      ensures chunks == old(chunks) + [ChunkFor(t, old(registries)[t].entries, ids, |old(chunks)|)]
      ensures calls == old(calls) + [CallFor(ChunkFor(t, old(registries)[t].entries, ids, |old(chunks)|))]
      ensures settlements == old(settlements) && listeners == old(listeners) && fired == old(fired)
      ensures nextCaller == old(nextCaller)
    {
      var reg0 := registries[t];
      var reg, combined, bySignal := StartChunk(reg0, ids);
      var no := |chunks|;
      if |bySignal| > 0 {
        combined := combined.(signal := Some(ChunkSignal(no)));
      }
      var chunk := Chunk(t, ids, combined, bySignal, {}, false, false);
      assert chunk == ChunkFor(t, reg0.entries, ids, no);
      DispatchKeepsValid(registries, settlements, chunks, t, ids);
      registries := registries[t := reg];
      chunks := chunks + [chunk];
      calls := calls + [CallFor(chunk)];
    }

    /**
     * A caller's signal aborting. Its listeners run once: every
     * `loadEntityById` listener on it rejects its (type, id) with Aborted,
     * and every chunk listening on it records the ids aborted, aborting the
     * chunk's own signal once all of the chunk's ids are.
     */
    method Abort(s: Signal)
      requires Valid()
      modifies this
      ensures Valid()
      ensures s in old(fired) ==> BookOf() == old(BookOf()) && chunks == old(chunks) && fired == old(fired)
      ensures s !in old(fired) ==>
        && BookOf() == Settle(old(BookOf()), AbortSteps(old(listeners), s))
        && chunks == AbortChunks(old(chunks), s)
        && fired == old(fired) + {s}
      ensures listeners == old(listeners) && calls == old(calls) && nextCaller == old(nextCaller)
    {
      if s in fired {
        return;
      }
      fired := fired + {s};
      RunCallerListeners(s);
      RunChunkListeners(s);
    }

    /** The `loadEntityById` listeners on `s`, in registration order: each rejects its entry with Aborted. */
    method RunCallerListeners(s: Signal)
      requires Valid()
      modifies this
      ensures Valid()
      ensures BookOf() == Settle(old(BookOf()), AbortSteps(listeners, s))
      ensures listeners == old(listeners) && chunks == old(chunks) && fired == old(fired)
      ensures calls == old(calls) && nextCaller == old(nextCaller)
    {
      var i := 0;
      while i < |listeners|
        invariant 0 <= i <= |listeners|
        invariant Valid()
        invariant BookOf() == Settle(old(BookOf()), AbortSteps(listeners[..i], s))
        invariant listeners == old(listeners) && chunks == old(chunks) && fired == old(fired)
        invariant calls == old(calls) && nextCaller == old(nextCaller)
      {
        var l := listeners[i];
        assert listeners[..i + 1][..i] == listeners[..i];
        if l.signal == s {
          RejectPendingFetch(l.typeName, l.id, Aborted);
          SettleSnoc(old(BookOf()), AbortSteps(listeners[..i], s), Step(l.typeName, l.id, Reject(Aborted)));
        } else {
          assert AbortSteps(listeners[..i + 1], s) == AbortSteps(listeners[..i], s);
        }
        i := i + 1;
      }
      assert listeners[..i] == listeners;
    }

    /** The chunks' listeners on `s`: each records the ids `s` aborts and aborts its own signal once all are. */
    method RunChunkListeners(s: Signal)
      requires Valid()
      modifies this
      ensures Valid()
      ensures chunks == AbortChunks(old(chunks), s)
      ensures registries == old(registries) && settlements == old(settlements)
      ensures listeners == old(listeners) && fired == old(fired)
      ensures calls == old(calls) && nextCaller == old(nextCaller)
    {
      var k := 0;
      while k < |chunks|
        invariant 0 <= k <= |chunks| && |chunks| == |old(chunks)|
        invariant forall m :: 0 <= m < |chunks| ==> ChunkValid(chunks[m])
        invariant forall m :: 0 <= m < k ==> chunks[m] == AbortChunk(old(chunks)[m], s)
        invariant forall m :: k <= m < |chunks| ==> chunks[m] == old(chunks)[m]
        invariant registries == old(registries) && settlements == old(settlements)
        invariant listeners == old(listeners) && fired == old(fired)
        invariant calls == old(calls) && nextCaller == old(nextCaller)
      {
        var c := chunks[k];
        if s in c.idsBySignal {
          AbortChunkValid(c, s);
          chunks := chunks[k := AbortChunk(c, s)];
        }
        k := k + 1;
      }
    }

    /**
     * A chunk's response arriving (once): the handler's resolve and reject
     * calls, made in the order the source makes them.
     */
    method CompleteChunk(c: nat, response: Response, schema: Serializer.Schema, unserialize: Serializer.Transform)
      requires Valid()
      requires c < |chunks| && !chunks[c].settled
      modifies this
      ensures Valid()
      ensures BookOf() == Settle(old(BookOf()), ChunkPlan(schema, unserialize, old(chunks[c]), response))
      ensures chunks == old(chunks)[c := old(chunks[c]).(settled := true)]
      ensures listeners == old(listeners) && fired == old(fired) && calls == old(calls)
      ensures nextCaller == old(nextCaller)
    {
      var chunk := chunks[c];
      chunks := chunks[c := chunk.(settled := true)];
      var t := chunk.typeName;
      var ids := chunk.ids;
      ghost var b0 := BookOf();
      if |ids| == 1 {
        var singleId := ids[0];
        match response
        case TransportFailed(cause) =>
          RejectPendingFetch(t, singleId, Failure(cause));
          SettleOne(b0, Step(t, singleId, Reject(Failure(cause))));
        case Delivered(payload) =>
          var unserialized := Serializer.UnserializeSingle(schema, unserialize, t, payload);
          if unserialized.Err? {
            RejectPendingFetch(t, singleId, unserialized.error);
            SettleOne(b0, Step(t, singleId, Reject(unserialized.error)));
          } else if unserialized.value.None? {
            // `entity.id` on null throws.
            RejectPendingFetch(t, singleId, TypeError);
            SettleOne(b0, Step(t, singleId, Reject(TypeError)));
          } else {
            var entity := unserialized.value.value;
            var resolve := Step(t, singleId, Resolve(Some(entity)));
            if IdOf(entity) != singleId {
              var reject := Step(t, singleId, Reject(Mismatch(t, singleId)));
              RejectPendingFetch(t, singleId, Mismatch(t, singleId));
              SettleOne(b0, reject);
              SettleSnoc(b0, [reject], resolve);
              assert [reject] + [resolve] == [reject, resolve];
            } else {
              SettleOne(b0, resolve);
            }
            ResolvePendingFetch(t, singleId, Some(entity));
          }
      } else {
        match response
        case TransportFailed(cause) =>
          RejectIds(t, ids, Failure(cause));
        case Delivered(payload) =>
          var unserialized := Serializer.UnserializeList(schema, unserialize, t, payload);
          if unserialized.Err? {
            RejectIds(t, ids, unserialized.error);
          } else {
            var loaded, complete := IndexById(unserialized.value);
            if !complete {
              // `entity.id` on a null entity throws.
              RejectIds(t, ids, TypeError);
            } else {
              ResolveIds(t, ids, chunk.aborted, loaded);
            }
          }
      }
    }

    /** `ids.forEach(id => this.rejectPendingFetch(typeName, id, error))` */
    method RejectIds(t: string, ids: seq<Value>, reason: Error)
      requires Valid()
      modifies this
      ensures Valid()
      ensures BookOf() == Settle(old(BookOf()), RejectEach(t, ids, reason))
      ensures listeners == old(listeners) && fired == old(fired) && chunks == old(chunks)
      ensures calls == old(calls) && nextCaller == old(nextCaller)
    {
      var i := 0;
      while i < |ids|
        invariant 0 <= i <= |ids|
        invariant Valid()
        invariant BookOf() == Settle(old(BookOf()), RejectEach(t, ids[..i], reason))
        invariant listeners == old(listeners) && fired == old(fired) && chunks == old(chunks)
        invariant calls == old(calls) && nextCaller == old(nextCaller)
      {
        RejectPendingFetch(t, ids[i], reason);
        RejectEachPrefix(t, ids, reason, i);
        SettleSnoc(old(BookOf()), RejectEach(t, ids[..i], reason), Step(t, ids[i], Reject(reason)));
        i := i + 1;
      }
      assert ids[..i] == ids;
    }

    /**
     * The success path for several ids: reject as not found every id
     * neither aborted nor loaded, then resolve every id with what was loaded.
     */
    method ResolveIds(t: string, ids: seq<Value>, aborted: set<Value>, loaded: map<Value, Record>)
      requires Valid()
      modifies this
      ensures Valid()
      ensures BookOf() == Settle(old(BookOf()), MissingSteps(t, ids, aborted, loaded) + ResolveEach(t, ids, loaded))
      ensures listeners == old(listeners) && fired == old(fired) && chunks == old(chunks)
      ensures calls == old(calls) && nextCaller == old(nextCaller)
    {
      RejectMissing(t, ids, aborted, loaded);
      ResolveLoaded(t, ids, loaded);
      SettleAppend(old(BookOf()), MissingSteps(t, ids, aborted, loaded), ResolveEach(t, ids, loaded));
    }

    /** The first `forEach`: reject as not found every id neither aborted nor loaded. */
    method RejectMissing(t: string, ids: seq<Value>, aborted: set<Value>, loaded: map<Value, Record>)
      requires Valid()
      modifies this
      ensures Valid()
      ensures BookOf() == Settle(old(BookOf()), MissingSteps(t, ids, aborted, loaded))
      ensures listeners == old(listeners) && fired == old(fired) && chunks == old(chunks)
      ensures calls == old(calls) && nextCaller == old(nextCaller)
    {
      var i := 0;
      while i < |ids|
        invariant 0 <= i <= |ids|
        invariant Valid()
        invariant BookOf() == Settle(old(BookOf()), MissingSteps(t, ids[..i], aborted, loaded))
        invariant listeners == old(listeners) && fired == old(fired) && chunks == old(chunks)
        invariant calls == old(calls) && nextCaller == old(nextCaller)
      {
        var id := ids[i];
        assert ids[..i + 1][..i] == ids[..i];
        if id !in aborted && id !in loaded {
          RejectPendingFetch(t, id, NotFound(t, id));
          assert MissingSteps(t, ids[..i + 1], aborted, loaded)
              == MissingSteps(t, ids[..i], aborted, loaded) + [Step(t, id, Reject(NotFound(t, id)))];
          SettleSnoc(old(BookOf()), MissingSteps(t, ids[..i], aborted, loaded), Step(t, id, Reject(NotFound(t, id))));
        } else {
          assert MissingSteps(t, ids[..i + 1], aborted, loaded) == MissingSteps(t, ids[..i], aborted, loaded);
        }
        i := i + 1;
      }
      assert ids[..i] == ids;
    }

    /** The second `forEach`: resolve every id with its loaded entity, or with undefined. */
    method ResolveLoaded(t: string, ids: seq<Value>, loaded: map<Value, Record>)
      requires Valid()
      modifies this
      ensures Valid()
      ensures BookOf() == Settle(old(BookOf()), ResolveEach(t, ids, loaded))
      ensures listeners == old(listeners) && fired == old(fired) && chunks == old(chunks)
      ensures calls == old(calls) && nextCaller == old(nextCaller)
    {
      var i := 0;
      while i < |ids|
        invariant 0 <= i <= |ids|
        invariant Valid()
        invariant BookOf() == Settle(old(BookOf()), ResolveEach(t, ids[..i], loaded))
        invariant listeners == old(listeners) && fired == old(fired) && chunks == old(chunks)
        invariant calls == old(calls) && nextCaller == old(nextCaller)
      {
        var id := ids[i];
        var data := LoadedAt(loaded, id);
        ghost var b1 := BookOf();
        ResolvePendingFetch(t, id, data);
        ResolveAdvance(old(BookOf()), t, ids, i, loaded, b1, BookOf());
        i := i + 1;
      }
      assert ids[..i] == ids;
    }
  }

  /** One more resolution settles one more id of the chunk, in order. */
  lemma ResolveAdvance(b0: Book, t: string, ids: seq<Value>, i: nat, loaded: map<Value, Record>, b1: Book, b2: Book)
    requires i < |ids|
    requires b1 == Settle(b0, ResolveEach(t, ids[..i], loaded))
    requires b2 == Apply(b1, Step(t, ids[i], Resolve(LoadedAt(loaded, ids[i]))))
    ensures b2 == Settle(b0, ResolveEach(t, ids[..i + 1], loaded))
  {
    assert ids[..i + 1][..i] == ids[..i];
    ResolveEachSnoc(t, ids[..i + 1], loaded);
    SettleSnoc(b0, ResolveEach(t, ids[..i], loaded), Step(t, ids[i], Resolve(LoadedAt(loaded, ids[i]))));
  }

  /**
   * The loop of `purgePendingChunk` over the chunk's ids: mark each one
   * started and fold its caller's options into the combined options and
   * the index by signal.
   */
  method StartChunk(reg0: Registry, ids: seq<Value>) returns (reg: Registry, combined: Options, bySignal: map<Signal, set<Value>>)
    requires Elems(ids) <= reg0.entries.Keys
    ensures reg == MarkStarted(reg0, Elems(ids))
    ensures combined == FoldOptions(NoOptions, OptionsOf(reg0.entries, ids))
    ensures bySignal == SignalIds(reg0.entries, ids)
  {
    reg := reg0;
    MarkStartedNone(reg0);
    assert Elems(ids[..0]) == {};
    combined := NoOptions;
    bySignal := map[];
    var i := 0;
    while i < |ids|
      invariant 0 <= i <= |ids|
      invariant reg == MarkStarted(reg0, Elems(ids[..i]))
      invariant combined == FoldOptions(NoOptions, OptionsOf(reg0.entries, ids[..i]))
      invariant bySignal == SignalIds(reg0.entries, ids[..i])
    {
      var id := ids[i];
      StartChunkStep(reg0, ids, i);
      reg := MarkStarted(reg, {id});
      var opts := reg.entries[id].options;
      combined, bySignal := MergeCallerOptions(id, opts, combined, bySignal);
      FoldOptionsAppend(NoOptions, OptionsOf(reg0.entries, ids[..i]), opts);
      i := i + 1;
    }
    assert ids[..i] == ids;
  }

  /**
   * The inner `options.forEach` of `purgePendingChunk`: merge one id's
   * callers' options into the combined options, left to right, and index
   * the id under every signal they pass.
   */
  method MergeCallerOptions(id: Value, opts: seq<Options>, combined0: Options, bySignal0: map<Signal, set<Value>>)
    returns (combined: Options, bySignal: map<Signal, set<Value>>)
    ensures combined == FoldOptions(combined0, opts)
    ensures bySignal == AddSignals(bySignal0, id, opts)
  {
    combined := combined0;
    bySignal := bySignal0;
    var j := 0;
    while j < |opts|
      invariant 0 <= j <= |opts|
      invariant combined == FoldOptions(combined0, opts[..j])
      invariant bySignal == AddSignals(bySignal0, id, opts[..j])
    {
      assert opts[..j + 1][..j] == opts[..j];
      combined := MergeOptions(combined, opts[j]);
      var signal := opts[j].signal;
      if signal.Some? {
        var s := signal.value;
        bySignal := bySignal[s := (if s in bySignal then bySignal[s] else {}) + {id}];
      }
      j := j + 1;
    }
    assert opts[..j] == opts;
  }

  /**
   * `entities.forEach(entity => loadedById.set(entity.id, entity))`:
   * `complete` is false when some entity is null, where the source throws.
   */
  method IndexById(entities: seq<Option<Record>>) returns (loaded: map<Value, Record>, complete: bool)
    ensures complete <==> AllPresent(entities)
    ensures complete ==> loaded == LoadedById(Present(entities))
  {
    loaded := map[];
    var n := 0;
    while n < |entities|
      invariant 0 <= n <= |entities|
      invariant AllPresent(entities[..n]) && loaded == LoadedById(Present(entities[..n]))
    {
      if entities[n].None? {
        assert !AllPresent(entities) by { assert !entities[n].Some?; }
        complete := false;
        return;
      }
      assert entities[..n + 1][..n] == entities[..n];
      assert Present(entities[..n + 1]) == Present(entities[..n]) + [entities[n].value];
      loaded := loaded[IdOf(entities[n].value) := entities[n].value];
      n := n + 1;
    }
    assert entities[..n] == entities;
    complete := true;
  }

  /** Dispatching a chunk keeps the registries and the chunks well formed. */
  lemma DispatchKeepsValid(regs: map<string, Registry>, settlements: seq<Settlement>, chunks: seq<Chunk>, t: string, ids: seq<Value>)
    requires BookValid(Book(regs, settlements))
    requires forall k :: 0 <= k < |chunks| ==> ChunkValid(chunks[k])
    requires t in regs && |ids| > 0 && Distinct(ids)
    ensures BookValid(Book(regs[t := MarkStarted(regs[t], Elems(ids))], settlements))
    ensures forall k :: 0 <= k < |chunks| + 1 ==> ChunkValid((chunks + [ChunkFor(t, regs[t].entries, ids, |chunks|)])[k])
  {
    MarkKeepsValid(regs, settlements, t, Elems(ids));
    ChunkForValid(t, regs[t].entries, ids, |chunks|);
    AppendKeepsValid(chunks, ChunkFor(t, regs[t].entries, ids, |chunks|));
  }

  lemma MarkKeepsValid(regs: map<string, Registry>, settlements: seq<Settlement>, t: string, ids: set<Value>)
    requires BookValid(Book(regs, settlements)) && t in regs
    ensures BookValid(Book(regs[t := MarkStarted(regs[t], ids)], settlements))
  {
    MarkStartedEffect(regs[t], ids);
  }

  lemma AppendKeepsValid(chunks: seq<Chunk>, c: Chunk)
    requires forall k :: 0 <= k < |chunks| ==> ChunkValid(chunks[k])
    requires ChunkValid(c)
    ensures forall k :: 0 <= k < |chunks| + 1 ==> ChunkValid((chunks + [c])[k])
  {
    forall k | 0 <= k < |chunks| + 1 ensures ChunkValid((chunks + [c])[k]) {
      if k < |chunks| { assert (chunks + [c])[k] == chunks[k]; }
    }
  }


  /** One id of `StartChunk`'s loop: how each of its three values grows. */
  lemma StartChunkStep(reg0: Registry, ids: seq<Value>, i: nat)
    requires i < |ids| && Elems(ids) <= reg0.entries.Keys
    ensures MarkStarted(MarkStarted(reg0, Elems(ids[..i])), {ids[i]}) == MarkStarted(reg0, Elems(ids[..i + 1]))
    ensures MarkStarted(reg0, Elems(ids[..i + 1])).entries[ids[i]].options == OptionsAt(reg0.entries, ids[i])
    ensures OptionsOf(reg0.entries, ids[..i + 1]) == OptionsOf(reg0.entries, ids[..i]) + OptionsAt(reg0.entries, ids[i])
    ensures SignalIds(reg0.entries, ids[..i + 1]) == AddSignals(SignalIds(reg0.entries, ids[..i]), ids[i], OptionsAt(reg0.entries, ids[i]))
  {
    assert ids[i] in Elems(ids);
    MarkStartedTwice(reg0, Elems(ids[..i]), {ids[i]});
    assert ids[..i + 1][..i] == ids[..i];
    assert Elems(ids[..i + 1]) == Elems(ids[..i]) + {ids[i]} by { assert ids[..i + 1] == ids[..i] + [ids[i]]; }
  }

  /** The ids the timer collects are distinct and all pending. */
  lemma PendingReady(reg: Registry)
    requires RegistryValid(reg)
    ensures Distinct(NotStarted(reg.order, reg.entries))
    ensures Elems(NotStarted(reg.order, reg.entries)) <= reg.entries.Keys
  {
    NotStartedExactly(reg.order, reg.entries);
  }

  /** The chunks dispatched so far, followed by those from `idx` on, are all of them. */
  ghost predicate ChunkedUpTo(ids: seq<Value>, size: nat, done: seq<seq<Value>>, idx: nat)
    requires size > 0
  {
    Chunks(ids, size) == done + ChunksFrom(ids, size, idx)
  }

  /** The next chunk of the collected ids is a non-empty run of distinct ids among them. */
  lemma NextChunk(ids: seq<Value>, size: nat, idx: nat, done: seq<seq<Value>>)
    requires size > 0 && idx < |ids| && Distinct(ids)
    requires ChunkedUpTo(ids, size, done, idx)
    ensures 0 < |ids[idx..Min(idx + size, |ids|)]|
    ensures Distinct(ids[idx..Min(idx + size, |ids|)]) && Elems(ids[idx..Min(idx + size, |ids|)]) <= Elems(ids)
    ensures ChunkedUpTo(ids, size, done + [ids[idx..Min(idx + size, |ids|)]], idx + size)
  {
    var c := ids[idx..Min(idx + size, |ids|)];
    var rest := ChunksFrom(ids, size, idx + size);
    assert ChunksFrom(ids, size, idx) == [c] + rest;
    assert done + ([c] + rest) == (done + [c]) + rest;
    SliceFacts(ids, idx, Min(idx + size, |ids|));
  }

  /** A slice of distinct ids is distinct and among them. */
  lemma SliceFacts(ids: seq<Value>, lo: nat, hi: nat)
    requires lo <= hi <= |ids| && Distinct(ids)
    ensures Distinct(ids[lo..hi]) && Elems(ids[lo..hi]) <= Elems(ids)
  {
    var c := ids[lo..hi];
    forall i, j | 0 <= i < j < |c| ensures c[i] != c[j] { assert c[i] == ids[lo + i] && c[j] == ids[lo + j]; }
    forall x | x in Elems(c) ensures x in Elems(ids) { var i :| 0 <= i < |c| && c[i] == x; assert ids[lo + i] == x; }
  }

  /**
   * After the chunks in `done` have been dispatched from the registry `reg0`
   * of type `t`: their ids are marked started and one chunk and one call per
   * dispatched run have been appended.
   */
  ghost predicate PurgedSoFar(t: string, reg0: Registry, done: seq<seq<Value>>,
                              regs0: map<string, Registry>, chunks0: seq<Chunk>, calls0: seq<TransportCall>,
                              regs: map<string, Registry>, chunks: seq<Chunk>, calls: seq<TransportCall>)
  {
    && regs == regs0[t := MarkStarted(reg0, Elems(Concat(done)))]
    && chunks == chunks0 + NewChunks(t, reg0.entries, done, |chunks0|)
    && calls == calls0 + CallsOf(NewChunks(t, reg0.entries, done, |chunks0|))
  }

  lemma PurgeAdvance(t: string, reg0: Registry, done: seq<seq<Value>>, chunkIds: seq<Value>,
                     regs0: map<string, Registry>, chunks0: seq<Chunk>, calls0: seq<TransportCall>,
                     regs1: map<string, Registry>, chunks1: seq<Chunk>, calls1: seq<TransportCall>,
                     regs2: map<string, Registry>, chunks2: seq<Chunk>, calls2: seq<TransportCall>)
    requires PurgedSoFar(t, reg0, done, regs0, chunks0, calls0, regs1, chunks1, calls1)
    requires regs2 == regs1[t := MarkStarted(regs1[t], Elems(chunkIds))]
    requires chunks2 == chunks1 + [ChunkFor(t, regs1[t].entries, chunkIds, |chunks1|)]
    requires calls2 == calls1 + [CallFor(ChunkFor(t, regs1[t].entries, chunkIds, |chunks1|))]
    ensures PurgedSoFar(t, reg0, done + [chunkIds], regs0, chunks0, calls0, regs2, chunks2, calls2)
  {
    MarkAdvance(t, reg0, done, chunkIds, regs0, regs1, regs2);
    assert |chunks1| == |chunks0| + |done|;
    PurgeStep(t, reg0, done, chunkIds, |chunks1|);
    var x := ChunkFor(t, regs1[t].entries, chunkIds, |chunks1|);
    assert x == ChunkFor(t, reg0.entries, chunkIds, |chunks0| + |done|);
    AppendChunk(t, reg0.entries, done, chunkIds, x, chunks0, calls0, chunks1, calls1, chunks2, calls2);
  }

  lemma MarkAdvance(t: string, reg0: Registry, done: seq<seq<Value>>, chunkIds: seq<Value>,
                    regs0: map<string, Registry>, regs1: map<string, Registry>, regs2: map<string, Registry>)
    requires regs1 == regs0[t := MarkStarted(reg0, Elems(Concat(done)))]
    requires regs2 == regs1[t := MarkStarted(regs1[t], Elems(chunkIds))]
    ensures regs2 == regs0[t := MarkStarted(reg0, Elems(Concat(done + [chunkIds])))]
  {
    var marked := MarkStarted(reg0, Elems(Concat(done)));
    MarkStartedTwice(reg0, Elems(Concat(done)), Elems(chunkIds));
    assert Concat(done + [chunkIds]) == Concat(done) + chunkIds by {
      assert (done + [chunkIds])[..|done|] == done;
    }
    assert Elems(Concat(done) + chunkIds) == Elems(Concat(done)) + Elems(chunkIds);
    assert regs2 == regs0[t := marked][t := MarkStarted(marked, Elems(chunkIds))];
  }

  lemma AppendChunk(t: string, entries: map<Value, PendingFetch>, done: seq<seq<Value>>, chunkIds: seq<Value>, x: Chunk,
                    chunks0: seq<Chunk>, calls0: seq<TransportCall>,
                    chunks1: seq<Chunk>, calls1: seq<TransportCall>,
                    chunks2: seq<Chunk>, calls2: seq<TransportCall>)
    requires x == ChunkFor(t, entries, chunkIds, |chunks0| + |done|)
    requires chunks1 == chunks0 + NewChunks(t, entries, done, |chunks0|)
    requires calls1 == calls0 + CallsOf(NewChunks(t, entries, done, |chunks0|))
    requires chunks2 == chunks1 + [x]
    requires calls2 == calls1 + [CallFor(x)]
    ensures chunks2 == chunks0 + NewChunks(t, entries, done + [chunkIds], |chunks0|)
    ensures calls2 == calls0 + CallsOf(NewChunks(t, entries, done + [chunkIds], |chunks0|))
  {
    var n := NewChunks(t, entries, done, |chunks0|);
    var n2 := NewChunks(t, entries, done + [chunkIds], |chunks0|);
    NewChunksSnoc(t, entries, done, chunkIds, |chunks0|);
    assert n2 == n + [x];
    SnocAssoc(chunks0, n, x);
    CallsOfSnoc(n, x);
    SnocAssoc(calls0, CallsOf(n), CallFor(x));
  }

  lemma CallsOfSnoc(cs: seq<Chunk>, x: Chunk)
    ensures CallsOf(cs + [x]) == CallsOf(cs) + [CallFor(x)]
  {
    var r := CallsOf(cs + [x]);
    forall k | 0 <= k < |r| ensures r[k] == (CallsOf(cs) + [CallFor(x)])[k] {
      if k < |cs| { assert (cs + [x])[k] == cs[k]; }
    }
  }

  lemma SnocAssoc<T>(a: seq<T>, b: seq<T>, x: T)
    ensures (a + b) + [x] == a + (b + [x])
  {
  }

  /** When the loop has passed the last id, the chunks dispatched are all of them, and they cover every id. */
  lemma PurgeDone(ids: seq<Value>, size: nat, done: seq<seq<Value>>, idx: nat)
    requires size > 0
    requires idx >= |ids| && ChunkedUpTo(ids, size, done, idx)
    ensures done == Chunks(ids, size)
    ensures Elems(Concat(done)) == Elems(ids)
  {
    assert ChunksFrom(ids, size, idx) == [];
    ChunksFromConcat(ids, size, 0);
    assert ids[0..] == ids;
  }

  lemma PurgeStep(t: string, reg0: Registry, done: seq<seq<Value>>, chunkIds: seq<Value>, no: nat)
    ensures ChunkFor(t, MarkStarted(reg0, Elems(Concat(done))).entries, chunkIds, no) == ChunkFor(t, reg0.entries, chunkIds, no)
  {
    ChunkForIgnoresStarted(t, reg0, Elems(Concat(done)), chunkIds, no);
  }

  lemma NewChunksSnoc(t: string, entries: map<Value, PendingFetch>, done: seq<seq<Value>>, ids: seq<Value>, base: nat)
    ensures NewChunks(t, entries, done + [ids], base) == NewChunks(t, entries, done, base) + [ChunkFor(t, entries, ids, base + |done|)]
  {
    var before := NewChunks(t, entries, done, base);
    var after := NewChunks(t, entries, done + [ids], base);
    var c := ChunkFor(t, entries, ids, base + |done|);
    forall k | 0 <= k < |after| ensures after[k] == (before + [c])[k] {
      if k < |done| { assert (done + [ids])[k] == done[k]; }
    }
  }

}
