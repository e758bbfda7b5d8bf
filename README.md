# Deferred DAO listener (kwery mapper) in Dafny

This project models the listener side of kwery's data-access objects. A DAO reports
every insert, update and delete of a row to its listeners as an event. There are
five event kinds. `PreInsertEvent` and `PreUpdateEvent` are reported before the
write. Their `transformed` value starts as the new row and may be replaced by an
observer. `InsertEvent`, `DeleteEvent` and `UpdateEvent` are reported after the write.

`DeferredListener` holds events back until the transaction that produced them
resolves. Outside a transaction each event goes to `onCommit(true, [event])` at
once. Inside transaction `t`, the first event creates an empty list for `t` and
registers one commit hook with the transaction. Every event, the first included,
is appended to that list. When the hook runs, it takes the list, removes the
entry and calls `onCommit(committed, events)`. A post-commit hook (`postCommit =
true`, the default) passes on the transaction's outcome. A pre-commit hook always
passes `true`.

Files:

- `events.dfy` (module `Events`): the five event kinds as one datatype, the two
  constructors with their default `transformed`, and the observer's assignment
  to `transformed`.
- `buffer.dfy` (module `Buffer`): the listener's state as a value. This is the
  table of lists, the hooks registered and not yet run, and the log of delivered
  batches. The module has the two transitions (`OnEvent`, `Fire`), the invariant
  "one pending hook exactly for each buffered transaction", and lemmas about any
  interleaving of reports and hook runs from several transactions.
- `listener.dfy` (module `Listener`): the class `DeferredListener`. Its field
  `eventsByTransaction` is updated in place. Each method is proved to change the
  object's state exactly as the matching `Buffer` function changes a value.

The session's current transaction is an `Option<TxId>` argument. The transaction
id is a Kotlin `Long`, modelled as `int`. The id is only compared, never computed
with. Table references and `Any` payloads are type parameters. A nullable `Any?`
is an `Option`. Running a hook is an explicit call, `FireHook(h, outcome)`, made
on behalf of the transaction. The abstract `onCommit` appends to a ghost log.

## Model

| member | source | states |
|---|---|---|
| `Events.NewPreInsert` | mapper/src/main/kotlin/com/github/andrewoma/kwery/mapper/listener/DaoListener.kt:44-49 | a new pre-insert event carries its table, id and new row, and its `transformed` equals the new row |
| `Events.NewPreUpdate` | mapper/src/main/kotlin/com/github/andrewoma/kwery/mapper/listener/DaoListener.kt:51-57 | a new pre-update event carries table, id, new row and nullable old row, and its `transformed` equals the new row |
| `Events.SetTransformed` | mapper/src/main/kotlin/com/github/andrewoma/kwery/mapper/listener/DaoListener.kt:39-42 | only a transforming event can be rewritten; `transformed` becomes the given value and kind, table, id, `new` and `old` are kept; writing back the current value changes nothing |
| `Events.TransformBackToNew` | mapper/src/main/kotlin/com/github/andrewoma/kwery/mapper/listener/DaoListener.kt:44-57 | after any rewrite, setting `transformed` back to the new row gives back the freshly built event |
| `Buffer.ModeOf` | mapper/src/main/kotlin/com/github/andrewoma/kwery/mapper/listener/DaoListener.kt:89-93 | the listener registers post-commit hooks exactly when `postCommit` is set |
| `Buffer.Initial` | mapper/src/main/kotlin/com/github/andrewoma/kwery/mapper/listener/DaoListener.kt:63-64 | a new listener has no lists, no hooks and no deliveries, and satisfies the invariant in either mode |
| `Buffer.AddCommitHook` | mapper/src/main/kotlin/com/github/andrewoma/kwery/mapper/listener/DaoListener.kt:80-94 | for a transaction without a list, an empty list is stored and exactly one hook of the listener's kind is added for it; other lists, other transactions' hooks and the deliveries are unchanged |
| `Buffer.OnEvent` | mapper/src/main/kotlin/com/github/andrewoma/kwery/mapper/listener/DaoListener.kt:66-78 | without a transaction, exactly one batch `(true, [event])` is delivered and lists and hooks are unchanged; inside `t`, nothing is delivered, `t`'s list becomes the old list (or empty) with the event at the end, other lists are unchanged, a new hook is added only when `t` had no list, and no other transaction's hook count changes |
| `Buffer.Committed` | mapper/src/main/kotlin/com/github/andrewoma/kwery/mapper/listener/DaoListener.kt:89-92 | a pre-commit hook reports `true`; a post-commit hook reports exactly the outcome |
| `Buffer.Fire` | mapper/src/main/kotlin/com/github/andrewoma/kwery/mapper/listener/DaoListener.kt:83-87 | running a registered hook fails (the `!!`) exactly when its transaction has no list; otherwise one batch is delivered holding the whole list, flagged per `Committed`, the entry is removed, every other list is unchanged, and exactly one hook of that transaction is used up |
| `Buffer.Resolved` | mapper/src/main/kotlin/com/github/andrewoma/kwery/mapper/listener/DaoListener.kt:83-87 | a transaction running one of its hooks: a hook that is not pending changes nothing; otherwise only that transaction's list can go, no hook count grows, and batches are only appended to the delivery log |
| `Buffer.AddCommitHookValid` | mapper/src/main/kotlin/com/github/andrewoma/kwery/mapper/listener/DaoListener.kt:80-81 | creating a list together with its hook keeps "exactly one pending hook for each transaction with a list, none for others" |
| `Buffer.OnEventValid` | mapper/src/main/kotlin/com/github/andrewoma/kwery/mapper/listener/DaoListener.kt:72-76 | every `onEvent` keeps that invariant, so a transaction never has a second hook |
| `Buffer.FireFindsEntry` | mapper/src/main/kotlin/com/github/andrewoma/kwery/mapper/listener/DaoListener.kt:83-86 | in a valid state a registered hook always finds its list, so the `!!` never fails, and running it keeps the invariant |
| `Buffer.OnEventBufferOf` | mapper/src/main/kotlin/com/github/andrewoma/kwery/mapper/listener/DaoListener.kt:72-76 | one report extends exactly the list of its own transaction by its event and leaves every other list as it was |
| `Buffer.RunValid` | mapper/src/main/kotlin/com/github/andrewoma/kwery/mapper/listener/DaoListener.kt:66-81 | any interleaving of reports and hook runs keeps the invariant |
| `Buffer.RunSeparates` | mapper/src/main/kotlin/com/github/andrewoma/kwery/mapper/listener/DaoListener.kt:72-76 | under any interleaving of reports and of other transactions' hooks running, each transaction's list is its previous list followed by its own events in reporting order, and it has a list exactly when it had one or reported something |
| `Buffer.RunDelivers` | mapper/src/main/kotlin/com/github/andrewoma/kwery/mapper/listener/DaoListener.kt:67-70 | deliveries are only ever appended; while no hook runs, the only deliveries are one committed single-event batch per report made outside a transaction, in order |
| `Buffer.PendingHook` | mapper/src/main/kotlin/com/github/andrewoma/kwery/mapper/listener/DaoListener.kt:80-93 | a transaction with a list has a pending hook, and it is the hook this listener registers |
| `Buffer.DeliveredOnce` | mapper/src/main/kotlin/com/github/andrewoma/kwery/mapper/listener/DaoListener.kt:63-96 | a transaction that reported events, while only other transactions' hooks ran, holds exactly one hook; running it delivers all of its events in reporting order as one batch (flag = outcome after commit, `true` before), and leaves neither list nor hook |
| `Buffer.NothingAfterDelivery` | mapper/src/main/kotlin/com/github/andrewoma/kwery/mapper/listener/DaoListener.kt:72-86 | a transaction with neither list nor hook keeps neither while it reports nothing, whatever else runs, and running any hook of it changes nothing: provided it reports nothing after its hook ran, nothing more is delivered for it |
| `Listener.DeferredListener.constructor` | mapper/src/main/kotlin/com/github/andrewoma/kwery/mapper/listener/DaoListener.kt:63-64 | keeps the `postCommit` flag, `true` when not given, and starts in `Buffer.Initial` |
| `Listener.DeferredListener.OnEvent` | mapper/src/main/kotlin/com/github/andrewoma/kwery/mapper/listener/DaoListener.kt:66-78 | keeps the invariant and moves the object's state exactly as `Buffer.OnEvent` |
| `Listener.DeferredListener.AddCommitHook` | mapper/src/main/kotlin/com/github/andrewoma/kwery/mapper/listener/DaoListener.kt:80-94 | keeps the invariant and moves the object's state exactly as `Buffer.AddCommitHook` |
| `Listener.DeferredListener.FireHook` | mapper/src/main/kotlin/com/github/andrewoma/kwery/mapper/listener/DaoListener.kt:83-92 | keeps the invariant; the hook finds its list and the new state is exactly `Buffer.Fire`'s |
| `Listener.DeferredListener.OnCommit` | mapper/src/main/kotlin/com/github/andrewoma/kwery/mapper/listener/DaoListener.kt:96 | appends `(committed, events)` to the delivery log and changes nothing else |

## Left out

- The cache adapter `GuavaCache` (example/src/main/kotlin/com/github/andrewoma/kwery/example/film/dao/GuavaCache.kt:29-33) only forwards to Guava's cache, a library that is not part of this model.
- Concurrency. `eventsByTransaction` is a `ConcurrentHashMap` used from several threads, and the containment check at line 72 and the insertion at line 81 are not atomic. The model is sequential: one call at a time, with no interleaving inside a call. Interleavings of whole `onEvent` calls and hook runs are the traces of `Buffer.Run`.
- Buffer.DeliveredOnce: assumes no hook of the transaction runs before the one it fires. Exactly-once delivery also assumes the transaction reports nothing after its hook ran. If it does, for example a write made by a pre-commit listener during the commit attempt, lines 72-73 create a new list and register a second hook, and the model does the same.
- Events are buffered and delivered as values. Kotlin stores and delivers the event objects themselves (lines 64, 76 and 86), and `transformed` is a `var` (lines 41, 48 and 56). So a write to `transformed` made after `onEvent` returned shows in the batch given to `onCommit` in Kotlin, but not in the model, which delivers each event as it was when reported. Aliasing of event objects is not modelled.
- `Session` and `Transaction` are not part of this model. The current transaction is an optional id. How a transaction stores and runs its hooks is replaced by a ghost list of pending hooks and an explicit `FireHook` call. That each hook runs at most once is the transaction's promise, modelled by removing the hook when it runs.
- The `Listener` interface (lines 30-32) is only a method signature. `DeferredListener.OnEvent` is its implementation here.
- What observers do with `transformed`, and what concrete listeners do in `onCommit`, is caller code. `onCommit` is a log of delivered batches.
- Transactions that never resolve keep their list and hook forever, as in the source. The model has no eviction, and neither does the source.
