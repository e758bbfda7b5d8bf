/**
  The deferred listener as an object, as the data-access layer uses it.

  `eventsByTransaction` is the listener's table from transaction id to buffered
  events. The commit hooks it has registered and not yet seen run, and the batches
  it has passed to `onCommit`, are ghost state: the transaction keeps the hooks and
  the concrete listener consumes the batches, and neither is visible here. Each
  method is proved to move the object's state exactly as the matching function of
  module Buffer moves a `State`, so every lemma proved there holds of the object.
 */
module Listener {
  import opened Events
  import opened Buffer

  class DeferredListener<T, A> {
    /** Run hooks after the transaction resolves (true) or just before it commits. */
    const postCommit: bool
    var eventsByTransaction: map<TxId, seq<Event<T, A>>>
    /** Hooks registered with their transactions and not yet run. */
    ghost var hooks: seq<Hook>
    /** Every `onCommit(committed, events)` call so far, oldest first. */
    ghost var delivered: seq<Batch<T, A>>

    ghost function Model(): State<T, A>
      reads this
    {
      State(eventsByTransaction, hooks, delivered)
    }

    ghost predicate Valid()
      reads this
    {
      Buffer.Valid(postCommit, Model())
    }

    constructor (postCommit: bool := true)
      ensures Valid() && this.postCommit == postCommit
      ensures Model() == Initial()
    {
      this.postCommit := postCommit;
      eventsByTransaction := map[];
      hooks := [];
      delivered := [];
    }

    /** `onEvent`, with the session's current transaction given as `tx`. */
    method OnEvent(tx: Option<TxId>, event: Event<T, A>)
      requires Valid()
      modifies this
      ensures Valid()
      ensures Model() == Buffer.OnEvent(postCommit, old(Model()), tx, event)
    {
      ghost var before := Model();
      match tx {
        case None =>
          OnCommit(true, [event]);
        case Some(t) =>
          if t !in eventsByTransaction {
            AddCommitHook(t);
          }
          if t in eventsByTransaction {
            eventsByTransaction := eventsByTransaction[t := eventsByTransaction[t] + [event]];
          }
      }
      OnEventValid(postCommit, before, tx, event);
    }

    /** Stores an empty list for `t` and registers one hook of this listener's kind. */
    method AddCommitHook(t: TxId)
      requires Valid() && t !in eventsByTransaction
      modifies this
      ensures Valid()
      ensures Model() == Buffer.AddCommitHook(postCommit, old(Model()), t)
    {
      AddCommitHookValid(postCommit, Model(), t);
      eventsByTransaction := eventsByTransaction[t := []];
      hooks := hooks + [Hook(t, ModeOf(postCommit))];
    }

    /**
      The transaction running hook `h`, having resolved with `outcome`: the hook
      takes the list for its transaction, removes the entry and passes the list to
      `onCommit`. A pre-commit hook reports `true` whatever happens next.
     */
    method FireHook(h: Hook, outcome: bool)
      requires Valid() && h in hooks
      modifies this
      ensures Valid()
      ensures Fire(old(Model()), h, outcome) == Done(Model())
    {
      FireFindsEntry(postCommit, Model(), h, outcome);
      var committed := Committed(h.mode, outcome);
      var events := eventsByTransaction[h.tx];
      eventsByTransaction := eventsByTransaction - {h.tx};
      hooks := RemoveFirst(hooks, h);
      OnCommit(committed, events);
    }

    /** The concrete listener's `onCommit`, recorded as one more delivered batch. */
    method OnCommit(committed: bool, events: seq<Event<T, A>>)
      modifies this
      ensures delivered == old(delivered) + [Batch(committed, events)]
      ensures eventsByTransaction == old(eventsByTransaction) && hooks == old(hooks)
    {
      delivered := delivered + [Batch(committed, events)];
    }
  }
}
