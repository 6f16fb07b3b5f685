# hamster-redux, modelled in Dafny

hamster-redux is a client-side entity cache for Redux applications. A
**store** answers `find`/`peek` requests for entities of a named type from a
Redux-held table and loads missing entities through a **request dispatcher**.
The dispatcher coalesces individual `loadEntityById` calls, which arrive over
a short debounce window, into batched fetches of at most `getChunkSize()` ids
each. It carries the callers' abort signals through to the batched request.
An **adapter** builds the REST URLs and fetch options. A **serializer** maps
payloads to and from records, field by field, through a schema of transforms.
A **reducer** keeps the per-type tables; its UPDATE merges records and its
REMOVE deletes them.

The project models these six source files:

| file | module | form |
|---|---|---|
| `values.dfy` | `Values` | JavaScript values, truthiness, `?.`, records, errors |
| `utils.dfy` | `Utils` | `pluralize`, `isNone`, `isEmpty` |
| `reducer.dfy` | `Reducer` | the reducer as a pure function on the state |
| `serializer.dfy` | `Serializer` | payload and entity (un)serialisation; the two field-filling loops as methods |
| `adapter.dfy` | `Adapter` | URL building (a method that pushes the present segments, then joins them), the call table, `getFetchOptions` over a mutable `Headers` object |
| `pending.dfy` | `PendingFetches` | the dispatcher's bookkeeping as values: registries, settling, chunking, merged options, abort bookkeeping, response fan-out |
| `dispatcher.dfy` | `RequestDispatcher` | the `Dispatcher` class, whose methods change the registries step by step and are proved against `PendingFetches` |
| `store.dfy` | `EntityStore` | the `Store` class: its table, subscriptions, notifications and error log, plus the pure facts about peeks, loads and commits |

A caller's promise is a `Caller` token. Each resolve or reject it receives is
appended to the dispatcher's `settlements` log. The events that come from
outside are method calls made by the environment:

- the debounce timer firing (`PurgePendingFetches`);
- a caller's signal aborting (`Abort`);
- a chunk's response arriving (`CompleteChunk`).

In the store, `Notification` records each subscriber call and `logged` records
each `console.error`.

### Behaviour of the code worth knowing

- **An abort rejects the whole entry.** The abort listener attached by
  `loadEntityById` calls `rejectPendingFetch(typeName, id, …)`. That call
  rejects every caller waiting on the id, not only the one that aborted
  (`AbortRemovesEntries`).
- **A late caller joins a started entry.** `addPendingFetch` joins an
  existing entry even after its loading has started. No new fetch is
  queued, and the late caller settles with the in-flight request
  (`AddCallerEffect`).
- **A chunk's signal aborts only when every id is aborted.** The chunk's
  listeners mark an id aborted when any signal passed for it fires. The
  chunk's own signal aborts only once every id of the chunk is marked, so
  one id whose callers passed no signal keeps the request alive
  (`ConjunctiveAbort`).
- **A batch fails as a whole.** A transport failure, an unreadable payload or
  a `null` entity in a multi-id response rejects every id of the chunk with
  the same error. A `null` entity makes `entity.id` throw (`ChunkPlan`,
  `RejectEachEffect`).
- **A `null` entity in a query commits half the list.** The store's `query`
  commits its entities one by one. The `null` entity throws at `entity.id`
  after the entities before it are written, so those stay cached, nobody is
  notified and the TypeError is logged (`EntityStore.Store.Query`,
  `QueryPartialCommit`).
- **A failed load leaves a stub.** The stub `{ id }` that `loadEntityById`
  writes before fetching stays in the cache. A later `findEntityById` returns
  the stub and does not reload (`FailedLoadLeavesStub`).
- **A failed batch load throws a TypeError.** `findEntitiesByIds` fails with a
  TypeError when the batch load failed. `loadEntitiesByIds` then yields
  `undefined`, and spreading it throws (`Store.FindEntitiesByIds`).
- **`removeAllEntities` notifies twice.** It calls `removeEntitiesByIds`,
  which notifies, and then notifies again (`Store.RemoveAllEntities`).

## Model

| member | source | states |
|---|---|---|
| Utils.Pluralize | src/utils/index.js:1-7 | the plural is the word followed by "es" exactly when the word is non-empty and ends in 's', and by "s" otherwise |
| Utils.PluralizeEmpty | src/utils/index.js:1-7 | the empty string pluralises to "s" |
| Utils.PluralizeChanges | src/utils/index.js:1-7 | the plural never equals the singular, so the singular and plural payload keys never coincide |
| Utils.PluralizeNotInjective | src/utils/index.js:1-7 | "bus" and "buse" share the plural "buses" |
| Utils.PluralizeInjectiveOnLength | src/utils/index.js:1-7 | two words of the same length with the same plural are equal |
| Utils.IsNone | src/utils/index.js:9-11 | no contract of its own (`null` or `undefined`); stated by NoneIsEmpty |
| Utils.IsEmpty | src/utils/index.js:13-15 | no contract of its own (`null`, `undefined`, '' or an empty array); stated by NoneIsEmpty and EmptyVersusFalsy |
| Utils.NoneIsEmpty | src/utils/index.js:9-15 | every value `isNone` accepts, `isEmpty` accepts |
| Utils.EmptyVersusFalsy | src/utils/index.js:13-15 | an empty value other than `[]` is falsy; a falsy value that is not empty is `false` or `0` |
| Reducer.Reduce | src/reducer/index.js:3-38 | no contract of its own; stated by UpdateEffect, RemoveEffect, OtherActionUnchanged, ReduceIdempotent and ReducePreservesWellKeyed |
| Reducer.Merge | src/reducer/index.js:12-15 | `{...stored, ...entity}` has both key sets; the incoming fields win, and the others keep the stored value |
| Reducer.LastWith | src/reducer/index.js:9-18 | the entity picked for an id carries that id |
| Reducer.MergeDataAt | src/reducer/index.js:9-18 | after the fold an id is present iff it was in the table or some entity carries it; a carried id holds the stored record merged with the LAST entity carrying it; other ids keep their records |
| Reducer.CarriesFront | src/reducer/index.js:9-18 | some entity carries an id iff the last one does or an earlier one does |
| Reducer.MergeDataKeys | src/reducer/index.js:9-18 | the keys after the fold are the old keys plus the ids of the entities |
| Reducer.UpdateEffect | src/reducer/index.js:5-20 | UPDATE adds the type, keeps every other type, and gives each carried id the old record merged with the last entity carrying it; ids no entity carries keep their records |
| Reducer.MergeDataIdempotent | src/reducer/index.js:9-18 | folding the same data over its own result changes nothing |
| Reducer.DeleteIdsIdempotent | src/reducer/index.js:25-27 | deleting the same ids twice equals deleting them once |
| Reducer.ReduceIdempotent | src/reducer/index.js:3-38 | every action applied twice gives the state it gives once |
| Reducer.SuccessiveUpdates | src/reducer/index.js:5-20 | two single-entity UPDATEs of one id merge both entities, in order, over the stored record |
| Reducer.BatchedUpdate | src/reducer/index.js:9-18 | within ONE UPDATE a later entity with the same id replaces the earlier one's fields, because every step merges over the original state |
| Reducer.DeleteIdsRemoves | src/reducer/index.js:23-27 | the REMOVE loop deletes exactly the listed ids |
| Reducer.RemoveEffect | src/reducer/index.js:22-33 | REMOVE adds the type, keeps every other type, and leaves that type's table minus the listed ids, all other records unchanged |
| Reducer.OtherActionUnchanged | src/reducer/index.js:35-36 | any other action returns the state unchanged |
| Reducer.ReducePreservesWellKeyed | src/reducer/index.js:3-38 | every action keeps each record filed under its own `id` field |
| Serializer.FieldNamesSnoc | src/serializer/index.js:30 | the schema's field names grow one at a time along its entries |
| Serializer.FieldsShape | src/serializer/index.js:29-36 | the filled record has exactly the schema's fields, each the transform of the entity's field |
| Serializer.FieldsKeys | src/serializer/index.js:29-36 | the filled record's keys are the schema's field names |
| Serializer.FieldsAt | src/serializer/index.js:29-36 | each schema field holds its transform applied to `entity?.[key]` |
| Serializer.UnserializedEntity | src/serializer/index.js:24-41 | no contract of its own; stated by UnserializedEntityShape, and UnserializeEntity's loop is proved to compute it |
| Serializer.UnserializeEntity | src/serializer/index.js:24-41 | the field-by-field loop computes the record `unserializeEntity` returns |
| Serializer.UnserializedEntityShape | src/serializer/index.js:24-41 | the result is null iff there is no id field or the translated id is empty; otherwise it has exactly the schema's fields, each unserialised |
| Serializer.UnserializeSingle | src/serializer/index.js:9-14 | no contract of its own; stated by SingleKeyChoice and UnserializePayload |
| Serializer.UnserializeList | src/serializer/index.js:15-21 | no contract of its own; stated by ListKeyChoice and UnserializePayload |
| Serializer.UnserializePayload | src/serializer/index.js:8-22 | the result is one entity when `isSingle` is set and a list otherwise; a `null` or `undefined` payload throws a TypeError on either path |
| Serializer.SingleKeyChoice | src/serializer/index.js:9-14 | single mode reads the singular key first and the plural key second; with neither key it yields null |
| Serializer.ListKeyChoice | src/serializer/index.js:15-21 | list mode reads the plural key first; with neither key it yields `[]`; an array maps entity by entity; a truthy non-array makes `.map` throw a TypeError |
| Serializer.UnserializeMeta | src/serializer/index.js:43-45 | `payload?.meta`: the meta field of an object, undefined for an object without one and for a non-object |
| Serializer.SerializedEntity | src/serializer/index.js:55-74 | no contract of its own; stated by SerializedEntityShape and RoundTrip, and SerializeEntity's loop is proved to compute it |
| Serializer.SerializeEntity | src/serializer/index.js:55-74 | the field-by-field loop, followed by the deletion of an empty id, computes the record `serializeEntity` returns |
| Serializer.SerializedEntityShape | src/serializer/index.js:55-74 | every non-id field is serialised; the id is kept iff its serialised value is not empty; no other key appears |
| Serializer.SerializePayload | src/serializer/index.js:47-53 | null iff the entity is falsy; otherwise an object whose one key is the type name |
| Serializer.RoundTrip | src/serializer/index.js:8-74 | unserialising the serialised payload of a schema-shaped record with a non-empty id gives the record back, when the transforms are inverse on its fields |
| Adapter.GetChunkSize | src/adapter/index.js:16-18 | the chunk size is `DEFAULT_CHUNK_SIZE`, 20 |
| Adapter.GetPathForType | src/adapter/index.js:28-30 | the base class's path is the plural of the type name and is never empty |
| Adapter.Url | src/adapter/index.js:32-65 | no contract of its own; BuildUrl is proved to compute it, and UrlAllSegments, EmptyPathDropped, UrlRootedWithoutHost, DefaultUrls, ZeroIdDropped and CollectionUrlHasNoId state it |
| Adapter.BuildUrl | src/adapter/index.js:32-65 | the straight-line pushes, then the join, yield the present segments (host, namespace, path, encoded id) joined by '/', prefixed with '/' when there is no host |
| Adapter.JoinSnoc | src/adapter/index.js:58 | `join` of a non-empty list with one more part puts one separator before that part |
| Adapter.UrlAllSegments | src/adapter/index.js:32-65 | with every segment present the URL is host/namespace/path/encoded-id |
| Adapter.EmptyPathDropped | src/adapter/index.js:46-52 | a `getPathForType` override answering '' adds no path segment, as if no type name were given |
| Adapter.UrlRootedWithoutHost | src/adapter/index.js:60-62 | without a host the URL starts with '/' |
| Adapter.DefaultUrls | src/adapter/index.js:20-65 | the default adapter gives "/" + plural for a falsy id, and "/" + plural + "/" + encoded id otherwise |
| Adapter.ZeroIdDropped | src/adapter/index.js:54-56 | the id 0 is falsy and is dropped from the URL, as if no id were given |
| Adapter.FindEntity | src/adapter/index.js:67-71 | no contract of its own; stated by CallTable |
| Adapter.FindEntities | src/adapter/index.js:73-77 | no contract of its own; stated by CallTable |
| Adapter.Query | src/adapter/index.js:79-83 | no contract of its own; stated by CallTable |
| Adapter.CreateEntity | src/adapter/index.js:85-89 | no contract of its own; stated by CallTable |
| Adapter.UpdateEntity | src/adapter/index.js:91-95 | no contract of its own; stated by CallTable |
| Adapter.DeleteEntity | src/adapter/index.js:97-101 | no contract of its own; stated by CallTable |
| Adapter.CallTable | src/adapter/index.js:67-101 | find, update and delete use the record URL; findMany, query and create use the collection URL; the methods are GET, GET (`{ids}` as query), GET, POST, PUT and DELETE, with the body passed through |
| Adapter.CollectionUrlHasNoId | src/adapter/index.js:54-56 | a falsy id adds no segment; a truthy id adds exactly one |
| Adapter.Headers.constructor | src/adapter/index.js:105 | a headers object holds the fields it is given |
| Adapter.WithDefaultContentType | src/adapter/index.js:115-117 | content-type is added, with the default value, only when neither spelling is set; every other header is kept |
| Adapter.GetFetchOptions | src/adapter/index.js:103-127 | the signal is passed through; without a sendable body the headers are untouched and there is no body; with one the headers are created if absent and given a default content-type, and an object body is JSON-encoded while any other body is passed as is |
| PendingFetches.AddCaller | src/request-dispatcher/index.js:41-59 | no contract of its own; stated by AddCallerEffect, and Dispatcher.AddPendingFetch is proved to compute it |
| PendingFetches.AddCallerEffect | src/request-dispatcher/index.js:41-59 | an entry is created only for an absent id (at the end of the key order); otherwise the existing entry is joined even when started; exactly one resolve, one reject and one options element are appended; every other entry is unchanged |
| PendingFetches.WithoutKey | src/request-dispatcher/index.js:67 | deleting a key takes exactly that key out of the insertion order |
| PendingFetches.WithoutDistinct | src/request-dispatcher/index.js:67 | taking a key out keeps the key order free of repeats |
| PendingFetches.RemoveEntryValid | src/request-dispatcher/index.js:67 | deleting an entry keeps the registry well formed |
| PendingFetches.NotStartedExactly | src/request-dispatcher/index.js:111 | the collected ids are exactly the registered ids not started, without repeats, in key order |
| PendingFetches.MarkStarted | src/request-dispatcher/index.js:135-136 | marking keeps the key order and the key set |
| PendingFetches.MarkStartedEffect | src/request-dispatcher/index.js:135-136 | marking changes only the started flag, and a later collection never returns a marked id |
| PendingFetches.MarkStartedNone | src/request-dispatcher/index.js:135-136 | marking no id changes nothing |
| PendingFetches.MarkStartedTwice | src/request-dispatcher/index.js:135-136 | marking in two rounds equals marking the union once |
| PendingFetches.Fired | src/request-dispatcher/index.js:66 | settling an entry calls every resolve (or every reject) it holds, in registration order, with the same value |
| PendingFetches.Apply | src/request-dispatcher/index.js:61-79 | no contract of its own; stated by ApplyEffect, ApplyValid, SecondSettleIsNoop, ApplyElsewhere and ApplyNeverAdds |
| PendingFetches.Settle | src/request-dispatcher/index.js:61-79 | no contract of its own (one `Apply` per step, in order); stated by SettleValid, SettleAppend, SettleNeverAdds and SettleDistinct |
| PendingFetches.ApplyValid | src/request-dispatcher/index.js:61-79 | a resolve or reject keeps every registry well formed |
| PendingFetches.SettleValid | src/request-dispatcher/index.js:61-79 | any sequence of resolves and rejects keeps every registry well formed |
| PendingFetches.SettleAppend | src/request-dispatcher/index.js:61-79 | settling two runs of calls is settling them one after the other |
| PendingFetches.ApplyEffect | src/request-dispatcher/index.js:61-79 | for a present entry, resolve or reject fires its continuations and deletes only that entry; for an absent entry it does nothing |
| PendingFetches.SecondSettleIsNoop | src/request-dispatcher/index.js:61-79 | once an id is resolved or rejected, a second resolve or reject of it does nothing |
| PendingFetches.ApplyElsewhere | src/request-dispatcher/index.js:61-79 | settling one id leaves every other entry exactly as it was |
| PendingFetches.ApplyNeverAdds | src/request-dispatcher/index.js:61-79 | settling never creates an entry |
| PendingFetches.SettleNeverAdds | src/request-dispatcher/index.js:61-79 | no sequence of settlements creates an entry |
| PendingFetches.SettleDistinct | src/request-dispatcher/index.js:61-79 | settling distinct ids of one type removes exactly those entries, fires each entry once in call order, and touches no other type |
| PendingFetches.LogIgnores | src/request-dispatcher/index.js:61-79 | entries the calls do not name make no difference to what they fire |
| PendingFetches.RejectEach | src/request-dispatcher/index.js:216-218 | one reject per id, in order, all with the same error |
| PendingFetches.RejectEachPrefix | src/request-dispatcher/index.js:216-218 | the rejections of a longer prefix extend those of the shorter one by one |
| PendingFetches.RejectEachEffect | src/request-dispatcher/index.js:215-219 | a failed batch removes every entry of the chunk, and all it fires are rejections with that one error |
| PendingFetches.LogRejects | src/request-dispatcher/index.js:76 | calls that all reject with one error fire only rejections with it |
| PendingFetches.LoadedById | src/request-dispatcher/index.js:199-203 | no contract of its own; stated by LoadedByIdShape and LoadedByIdLastWins, and IndexById is proved to compute it |
| PendingFetches.LoadedByIdShape | src/request-dispatcher/index.js:199-203 | the map's ids are exactly the ids the response's entities carry, each mapped to an entity with that id |
| PendingFetches.LoadedByIdLastWins | src/request-dispatcher/index.js:199-203 | when several entities carry an id, the last of them is kept |
| PendingFetches.ResolveEach | src/request-dispatcher/index.js:211-213 | one resolve per id, in order, with what the response holds for that id |
| PendingFetches.MissingStepsShape | src/request-dispatcher/index.js:205-209 | one not-found rejection per id that is neither aborted nor loaded, in chunk order, without repeats |
| PendingFetches.FoundStepsShape | src/request-dispatcher/index.js:205-213 | the resolves that still find their entry are those of the ids not missing, without repeats, each with its loaded entity |
| PendingFetches.FoundStepsFates | src/request-dispatcher/index.js:211-213 | each of those resolves carries `loadedById.get(id)` |
| PendingFetches.FoundStepsIds | src/request-dispatcher/index.js:205-213 | their ids are exactly the ids not missing |
| PendingFetches.FoundStepsDistinct | src/request-dispatcher/index.js:211-213 | no id is resolved twice |
| PendingFetches.ResolveEachSnoc | src/request-dispatcher/index.js:211-213 | resolving one more id appends one more resolve |
| PendingFetches.ResolveEachSkipsMissing | src/request-dispatcher/index.js:205-213 | once the missing ids are rejected, their resolves do nothing |
| PendingFetches.ManyResponseEffect | src/request-dispatcher/index.js:196-214 | a multi-id response rejects the missing ids as not found, resolves every other id once (an aborted id the response lacks gets undefined), and removes all the chunk's entries |
| PendingFetches.MissingStage | src/request-dispatcher/index.js:205-209 | the first pass removes exactly the missing ids and logs their rejections |
| PendingFetches.FoundStage | src/request-dispatcher/index.js:211-213 | the second pass removes the rest of the chunk's ids and logs only the found ids' resolves |
| PendingFetches.Chunks | src/request-dispatcher/index.js:120-124 | no contract of its own; stated by ChunksPartition, ChunksFromConcat, ChunksFromSizes and ChunksFromCount, and PurgePendingFetches is proved to dispatch it |
| PendingFetches.ChunksFromElems | src/request-dispatcher/index.js:120-124 | every chunk is a run of the collected ids without repeats |
| PendingFetches.ConcatCons | src/request-dispatcher/index.js:120-124 | concatenation of chunks unfolds from the front |
| PendingFetches.ChunksFromConcat | src/request-dispatcher/index.js:120-124 | the chunks from an index concatenate to the ids from that index |
| PendingFetches.ChunksFromSizes | src/request-dispatcher/index.js:120-124 | no chunk is empty or longer than the chunk size, and all but the last are exactly that long |
| PendingFetches.ChunksFromCount | src/request-dispatcher/index.js:120-124 | there are ceil(n / size) chunks |
| PendingFetches.ChunksPartition | src/request-dispatcher/index.js:120-124 | the chunks partition the ids, in order: none empty, none longer than the size, all but the last full, ceil(n / size) of them |
| PendingFetches.FoldOptions | src/request-dispatcher/index.js:135-157 | no contract of its own; stated by FoldOptionsAppend, FoldOptionsHas, FoldOptionsLastWins, FoldOptionsSignal and FoldOptionsLastSignal |
| PendingFetches.FoldOptionsAppend | src/request-dispatcher/index.js:140-146 | merging options in two runs is merging them in one |
| PendingFetches.FoldOptionsHas | src/request-dispatcher/index.js:140-146 | a field is in the merged options iff some caller set it |
| PendingFetches.FoldOptionsLastWins | src/request-dispatcher/index.js:140-146 | a merged field has the value of the last caller that set it |
| PendingFetches.FoldOptionsSignal | src/request-dispatcher/index.js:140-146 | the merged signal is absent iff no caller passed one |
| PendingFetches.FoldOptionsLastSignal | src/request-dispatcher/index.js:140-146 | the merged signal is the last one a caller passed |
| PendingFetches.AddSignalsEffect | src/request-dispatcher/index.js:147-154 | an id is listed under a signal iff it was listed before or one of its callers passed that signal |
| PendingFetches.SignalKeysExactly | src/request-dispatcher/index.js:135-157 | the chunk's signals are exactly the signals its callers passed |
| PendingFetches.SignalPairsExactly | src/request-dispatcher/index.js:135-157 | a signal lists exactly the chunk's ids one of whose callers passed it |
| PendingFetches.ChunkFor | src/request-dispatcher/index.js:131-174 | no contract of its own; stated by ChunkForValid, SignalIdsWithin, ChunkForSignal, SameOptionsSameChunk and ChunkForIgnoresStarted |
| PendingFetches.ChunkForValid | src/request-dispatcher/index.js:127-174 | the chunk built from distinct ids is well formed: its signals index only its own ids, nothing is aborted yet, and its signal has not fired |
| PendingFetches.SignalIdsWithin | src/request-dispatcher/index.js:150-153 | a signal indexes only ids of the chunk |
| PendingFetches.ChunkForSignal | src/request-dispatcher/index.js:159-163 | the request carries the chunk's own signal iff some caller passed a signal and no signal otherwise; its other fields are the merged options |
| PendingFetches.FoldOptionsNoSignal | src/request-dispatcher/index.js:140-146 | with no caller signal, the merged options carry none |
| PendingFetches.OptionsOfHas | src/request-dispatcher/index.js:138-140 | every merged options object comes from a caller of one of the chunk's ids |
| PendingFetches.AbortChunk | src/request-dispatcher/index.js:165-173 | no contract of its own; stated by ConjunctiveAbort, AbortChunkValid and AbortChunks |
| PendingFetches.ConjunctiveAbort | src/request-dispatcher/index.js:165-172 | the chunk's signal has aborted iff every id of the chunk is aborted; an id with no caller signal keeps it from ever aborting |
| PendingFetches.AbortChunkValid | src/request-dispatcher/index.js:166-171 | a listener run adds exactly the ids of that signal to the aborted set and keeps the chunk well formed |
| PendingFetches.AbortChunks | src/request-dispatcher/index.js:165-173 | every chunk's listener on the signal runs, chunk by chunk |
| PendingFetches.NewChunks | src/request-dispatcher/index.js:120-124 | one chunk per run of ids, numbered in dispatch order |
| PendingFetches.CallsOf | src/request-dispatcher/index.js:179-196 | one adapter call per chunk, in order |
| PendingFetches.SameOptionsSameChunk | src/request-dispatcher/index.js:135-157 | entries with the same options build the same merged options and signal index |
| PendingFetches.ChunkForIgnoresStarted | src/request-dispatcher/index.js:135-157 | marking ids started does not change the chunk built from them |
| PendingFetches.SingleFateResolves | src/request-dispatcher/index.js:179-194 | the single-id path resolves only with an entity carrying the requested id and otherwise rejects (transport error, unreadable payload, null entity, other id) |
| PendingFetches.ChunkPlan | src/request-dispatcher/index.js:179-220 | no contract of its own; stated by SingleFateResolves, SinglePlanEffect, ManyResponseEffect, RejectEachEffect and PlanSettlesEveryId, and CompleteChunk is proved to settle it |
| PendingFetches.SinglePlanEffect | src/request-dispatcher/index.js:184-190 | on an id mismatch the reject wins and the resolve that follows does nothing |
| PendingFetches.PlanSettlesEveryId | src/request-dispatcher/index.js:179-221 | whatever the response, completing a chunk leaves none of its ids pending and no other type changed |
| PendingFetches.AbortRemovesEntries | src/request-dispatcher/index.js:33-37 | a caller's signal aborting rejects the WHOLE entry of every id registered with it, and fires nothing but Aborted rejections |
| PendingFetches.AbortRemovals | src/request-dispatcher/index.js:33-37 | after the abort no entry registered with the signal is left |
| PendingFetches.AbortStepsReject | src/request-dispatcher/index.js:35 | every abort step rejects with Aborted |
| PendingFetches.SettleOnlyRejects | src/request-dispatcher/index.js:76 | rejections with one error keep earlier settlements and append only that error |
| RequestDispatcher.Dispatcher.constructor | src/request-dispatcher/index.js:18-24 | a new dispatcher has no pending fetches, listeners or chunks |
| RequestDispatcher.Dispatcher.AddPendingFetch | src/request-dispatcher/index.js:41-59 | the type's registry becomes `AddCaller` of the old one; nothing else changes |
| RequestDispatcher.Dispatcher.LoadEntityById | src/request-dispatcher/index.js:26-39 | a fresh caller is registered, and a listener is attached only when a signal is given |
| RequestDispatcher.Dispatcher.ResolvePendingFetch | src/request-dispatcher/index.js:61-69 | the registries and settlements become `Apply` of a resolve |
| RequestDispatcher.Dispatcher.RejectPendingFetch | src/request-dispatcher/index.js:71-79 | the registries and settlements become `Apply` of a reject |
| RequestDispatcher.Dispatcher.RejectAllPendingFetches | src/request-dispatcher/index.js:81-91 | every entry of the type is rejected in key order, and the type is left with none |
| RequestDispatcher.Dispatcher.PurgePendingFetches | src/request-dispatcher/index.js:103-125 | with no registry or nothing pending nothing happens; otherwise exactly the not-started ids are marked started and one chunk and one adapter call per `Chunks` run are appended |
| RequestDispatcher.Dispatcher.PurgeNextChunk | src/request-dispatcher/index.js:120-124 | one loop step dispatches the next run and keeps the loop's account of what was dispatched |
| RequestDispatcher.Dispatcher.PurgePendingChunk | src/request-dispatcher/index.js:127-196 | the chunk's ids are marked started, and the chunk `ChunkFor` describes and its adapter call are appended |
| RequestDispatcher.Dispatcher.Abort | src/request-dispatcher/index.js:33-37 | a signal fires once: its caller listeners reject their entries and every chunk's listener records its aborted ids; firing again does nothing |
| RequestDispatcher.Dispatcher.RunCallerListeners | src/request-dispatcher/index.js:34-36 | the caller listeners on the signal reject their entries, in registration order |
| RequestDispatcher.Dispatcher.RunChunkListeners | src/request-dispatcher/index.js:165-173 | every chunk becomes `AbortChunk` of itself |
| RequestDispatcher.Dispatcher.CompleteChunk | src/request-dispatcher/index.js:179-221 | the response is applied as `ChunkPlan` describes, and the chunk is marked settled |
| RequestDispatcher.Dispatcher.RejectIds | src/request-dispatcher/index.js:215-219 | each id of the chunk is rejected with the error, in order |
| RequestDispatcher.Dispatcher.ResolveIds | src/request-dispatcher/index.js:205-213 | the two passes run in order: the not-found rejections, then the resolves |
| RequestDispatcher.Dispatcher.RejectMissing | src/request-dispatcher/index.js:205-209 | the first pass rejects exactly the ids `MissingSteps` lists |
| RequestDispatcher.Dispatcher.ResolveLoaded | src/request-dispatcher/index.js:211-213 | the second pass resolves every id with `loadedById.get(id)` |
| RequestDispatcher.ResolveAdvance | src/request-dispatcher/index.js:211-213 | one more resolve extends the pass by one id |
| RequestDispatcher.StartChunk | src/request-dispatcher/index.js:135-157 | the loop over the ids marks them started, merges their options and indexes their signals |
| RequestDispatcher.MergeCallerOptions | src/request-dispatcher/index.js:140-156 | the inner loop merges one id's options and lists it under each signal passed |
| RequestDispatcher.IndexById | src/request-dispatcher/index.js:199-203 | the index is built iff no entity is null, and then it is `LoadedById` |
| RequestDispatcher.DispatchKeepsValid | src/request-dispatcher/index.js:127-174 | dispatching a chunk keeps the registries and the chunks well formed |
| RequestDispatcher.PendingReady | src/request-dispatcher/index.js:111 | the collected ids are distinct and all registered |
| RequestDispatcher.NextChunk | src/request-dispatcher/index.js:120-121 | the next slice is a non-empty run of distinct collected ids |
| RequestDispatcher.PurgeAdvance | src/request-dispatcher/index.js:120-124 | one more dispatched chunk extends the loop's account by that chunk |
| RequestDispatcher.PurgeDone | src/request-dispatcher/index.js:120-124 | at loop exit the chunks dispatched are `Chunks` of the ids and cover all of them |
| EntityStore.PeekEntityById | src/store/index.js:9-16 | the record is returned iff the type's table holds the id, and it is the stored record |
| EntityStore.PeekEntitiesByIds | src/store/index.js:48-55 | at most one record per requested id |
| EntityStore.PeekManyInOrder | src/store/index.js:48-55 | the records of the cached requested ids, in request order, repeats kept |
| EntityStore.PeekManyAllCached | src/store/index.js:48-55 | with every id cached, exactly one record per id, in order |
| EntityStore.PeekManyMembers | src/store/index.js:48-55 | a record is returned iff it is stored under a requested id |
| EntityStore.FirstOccurrences | src/store/index.js:97-110 | iterating `new Set(ids)` gives each requested id exactly once, in the order of its first occurrence |
| EntityStore.FirstOccurrencesSnoc | src/store/index.js:97-110 | adding a repeated id to the list leaves the Set's iteration unchanged; adding a new id puts it last |
| EntityStore.Without | src/store/index.js:104-108 | deleting the cached ids leaves exactly the others, without repeats |
| EntityStore.PeekedIds | src/store/index.js:96-98 | in a well-keyed cache the ids of the peeked records are exactly the cached requested ids |
| EntityStore.MissingIdsExactly | src/store/index.js:104-110 | the ids loaded are distinct and are exactly the requested ids the cache lacks |
| EntityStore.AllCachedBySize | src/store/index.js:97-102 | the size test succeeds iff every requested id is cached |
| EntityStore.Stubs | src/store/index.js:60 | one stub per id |
| EntityStore.Fulfilled | src/store/index.js:66-76 | no contract of its own; stated by SettledSplit, and SplitSettled's loop is proved to compute it |
| EntityStore.FailReasons | src/store/index.js:66-76 | no contract of its own; stated by SettledSplit, and SplitSettled's loop is proved to compute it |
| EntityStore.SettledSplit | src/store/index.js:66-76 | every settled fetch is either fulfilled or failed, and none failed iff all succeeded |
| EntityStore.AfterLoad | src/store/index.js:18-36 | no contract of its own; stated by FailedLoadLeavesStub, LoadCommits and LoadLeavesOthers, and Store.LoadEntityById is proved to commit it |
| EntityStore.FailedLoadLeavesStub | src/store/index.js:18-36 | after a failed load the cache holds the stored record merged with the stub `{ id }` |
| EntityStore.LoadCommits | src/store/index.js:18-30 | after a successful load the cache holds the record merged with the stub and then with the entity |
| EntityStore.LoadLeavesOthers | src/store/index.js:18-36 | a load changes no other id and no other type |
| EntityStore.UpdateLeaves | src/store/index.js:175-177 | a single-entity update changes no other id and no other type |
| EntityStore.StubsCarry | src/store/index.js:60 | the stubs carry exactly the requested ids |
| EntityStore.AfterLoadMany | src/store/index.js:57-93 | no contract of its own; stated by LoadManyCaches and LoadManyCommits, and Store.LoadEntitiesByIds is proved to commit it |
| EntityStore.LoadManyCaches | src/store/index.js:57-81 | after a batch load every requested id is cached, whether or not its fetch succeeded |
| EntityStore.LoadManyCommits | src/store/index.js:78-81 | each fulfilled entity's fields are cached under its id (the last one's, for a repeated id) |
| EntityStore.UpdateEach | src/store/index.js:160-163 | no contract of its own; stated by UpdateOne, QueryCommits, QueryLeavesOthers and UpdateEachWellKeyed |
| EntityStore.UpdateOne | src/store/index.js:175-177 | a single-entity UPDATE writes the old record merged with the entity under the entity's id |
| EntityStore.QueryCommits | src/store/index.js:160-163 | after the commit every returned entity's id is cached with the fields of the last entity carrying it |
| EntityStore.QueryLeavesOthers | src/store/index.js:160-163 | the commit keeps every id no entity carries, and every other type |
| EntityStore.UpdateEachWellKeyed | src/store/index.js:161-163 | the commit keeps each record under its own id |
| EntityStore.PeekAllEntities | src/store/index.js:117-124 | no contract of its own (the type's records, listed in `keyOrder`); stated by PeekAllIds and RemoveAllEmpties |
| EntityStore.PeekAllIds | src/store/index.js:148-150 | in a well-keyed cache the ids of all records are the table's keys, in key order |
| EntityStore.RemoveAllEmpties | src/store/index.js:148-152 | removing every key empties the type's table and keeps every other type |
| EntityStore.Calls | src/store/index.js:199-207 | no contract of its own; stated by CallsAppend, CallsCarry, SubscribeThenNotify and UnsubscribeThenNotify, and Store.Notify is proved to append it |
| EntityStore.CallsAppend | src/store/index.js:199-207 | notifying two runs of slots is notifying their concatenation |
| EntityStore.CallsCarry | src/store/index.js:199-207 | every call carries the ids and action notified, and goes to a callback that is still subscribed |
| EntityStore.SubscribeThenNotify | src/store/index.js:189-207 | a new subscriber is called last, once |
| EntityStore.UnsubscribeThenNotify | src/store/index.js:194-207 | after unsubscribing, the slot's callback is no longer called and the others are |
| EntityStore.SplitSettled | src/store/index.js:66-76 | the loop over the settled results gives the fulfilled values and the failure reasons, in order |
| EntityStore.Store.constructor | src/store/index.js:4-7 | a new store has no records, subscriptions, notifications or log |
| EntityStore.Store.UpdateEntities | src/store/index.js:179-187 | the table becomes the reducer's UPDATE of the old one |
| EntityStore.Store.UpdateEntity | src/store/index.js:175-177 | the table becomes the UPDATE of one entity |
| EntityStore.Store.Notify | src/store/index.js:199-207 | each non-null subscriber of the type is called once, in order, with (ids, action) |
| EntityStore.Store.Subscribe | src/store/index.js:189-193 | the callback is appended, and its index is returned |
| EntityStore.Store.Unsubscribe | src/store/index.js:194-196 | that slot becomes null and the slot list keeps its length |
| EntityStore.Store.LoadEntityById | src/store/index.js:18-36 | stub, notify, then on success commit, notify and yield the entity; on failure log the error and yield undefined |
| EntityStore.Store.FindEntityById | src/store/index.js:38-46 | a cached id is returned without loading or notifying; otherwise the id is loaded |
| EntityStore.Store.LoadEntitiesByIds | src/store/index.js:57-93 | stubs and notify, then commit and notify the fulfilled entities if there are any; yield them, or log the FIRST failure and yield undefined |
| EntityStore.Store.FindEntitiesByIds | src/store/index.js:95-115 | with every id cached, the peek is returned unchanged; otherwise only the missing ids are loaded, and the result is the cached records followed by the loaded ones, or a TypeError when the load failed |
| EntityStore.Store.RemoveEntitiesByIds | src/store/index.js:137-146 | the table becomes the REMOVE of the ids, and the type's subscribers are notified once |
| EntityStore.Store.RemoveEntityById | src/store/index.js:126-135 | the table becomes the REMOVE of one id, and the subscribers are notified |
| EntityStore.Store.RemoveAllEntities | src/store/index.js:148-154 | the type's table becomes empty, and the subscribers are notified twice with all ids |
| EntityStore.Store.Query | src/store/index.js:156-173 | on success the entities are committed one by one up to the first `null`; with no `null` the type's subscribers get one notification with all the ids and the entities are returned; at a `null` a TypeError is logged, nobody is notified and undefined is returned; on a failed request the error is logged and nothing is committed |
| EntityStore.Store.CommitLead | src/store/index.js:160-163 | the `forEach` commits, one UPDATE each and in order, exactly the entities before the first `null`, and notifies and logs nothing |
| EntityStore.Lead | src/store/index.js:160-163 | the records before the first `null` of the list, in order |
| EntityStore.LeadUnique | src/store/index.js:160-163 | any list of records that matches the entries up to a `null` or the end is that prefix |
| EntityStore.LeadAllPresent | src/store/index.js:160-167 | with no `null`, the committed records are the whole list |
| EntityStore.QueryPartialCommit | src/store/index.js:160-163 | when the first `null` is at position j, every entity before j is cached, holding the fields of the last entity with its id |

## Left out

- Timers: the 50 ms debounce of `schedulePurgePendingFetches`
  (src/request-dispatcher/index.js:93-101) is not modelled. Its firing is a
  call to `PurgePendingFetches`, which the environment may make at any time.
- Promise interleaving: each asynchronous continuation is a method call the
  environment makes: `Abort`, `CompleteChunk`, and the dispatcher outcomes the
  store methods take as parameters. Interleavings the model does not
  enumerate are left to those calls.
- The order of listeners on one signal: when a signal fires, the model runs
  all caller listeners before all chunk listeners. The two kinds change
  disjoint state (registries and settlements, against chunks), so the final
  state does not depend on how the source interleaves them.
- The transport: `request`, `fetch`, the query-string encoding and JSON
  parsing (src/adapter/index.js:129-160) are not modelled. A response is the
  `Response` value passed to `CompleteChunk`. When a chunk's own signal
  aborts, the transport rejects its request; that arrives as a
  `TransportFailed` response.
- `encodeURIComponent` is the `encode` parameter of the URL functions.
  `getHost`, `getNamespace` and `getPathForType` are fields of a `Config`
  value, because subclasses override them. An override is a value; one
  with side effects is not modelled.
- The container (src/container/index.js) is not part of this model. Schemas
  are parameters, and field transforms are `Transform` functions passed in;
  the transform files are not part of this model.
- Redux is replaced by the table the `Store` class owns. A dispatch of an
  action is the reducer applied to that table.
- `console.error` is the `logged` list of errors; the arguments other than
  the error are not kept.
- JavaScript property-key coercion is not modelled: an id is a `Value`
  compared structurally, so `1` and `"1"` are different keys.
- Floating-point numbers are not modelled: numbers are integers.
- Option spreads: an options object carrying `signal: undefined`, which would
  clear an earlier caller's signal when spread, is not distinguished from
  one without a signal. A `null` options element, which the merge skips, is
  not modelled either.
- RequestDispatcher.Dispatcher.PurgePendingFetches requires a positive chunk
  size; with size 0 the source loops forever.
- The dispatcher's `query`, `createEntity`, `updateEntity` and
  `deleteEntity` (src/request-dispatcher/index.js:224-265) are not modelled.
  They pass calls through to the adapter and the serializer, which are
  modelled themselves (`Adapter.CallTable`, `Serializer.UnserializePayload`,
  `Serializer.SerializePayload`).
- `peekAllEntities` takes the order of `Object.values` as the `keyOrder`
  parameter.
- EntityStore.Store.LoadEntityById and EntityStore.Store.LoadEntitiesByIds:
  the dispatcher's outcome for one id is a `Result<Record>` parameter; the
  two classes are not wired together. For a live entry the dispatcher
  resolves only with a record: the single path checks the id, and the
  batched path rejects a lacking id first. One race is not covered. An id
  is aborted through a caller's signal and registered again before its
  chunk's response arrives, and the response lacks it. The new entry is
  then resolved with `undefined`, and the reducer throws on `undefined.id`
  in the store's commit. That throw, which the store catches and logs, is
  not modelled.
- EntityStore.Store.Notify: subscriber callbacks are tokens, so a callback
  cannot call back into the store. `forEach` fixes the length of the slot
  list before the first call, so a slot subscribed during the pass is
  called by neither the source nor the model. A later slot that an earlier
  callback unsubscribes during the pass is skipped by the source, but
  Notify, which calls the slots the list held when the pass began, still
  calls it.
- `Object.prototype.toString(body) === '[object Object]'` is modelled as
  "the body is an object value" (`Adapter.GetFetchOptions`). Values carry
  no prototype.
