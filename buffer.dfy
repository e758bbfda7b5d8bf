/**
  The deferred event buffer as a state machine on values.

  A `State` holds the table from transaction id to the events buffered for it,
  the commit hooks registered with transactions and not yet fired, and the log of
  batches handed to `onCommit`, in delivery order. `OnEvent` and `Fire` are the
  two transitions: an event reported by the data-access layer, and a commit hook
  being run by its transaction. The class in module Listener is proved to follow
  these functions step for step.
 */
module Buffer {
  import opened Events

  /** A transaction id (a `Long` in the source). */
  type TxId = int

  /** Whether a hook was registered as a pre-commit or a post-commit handler. */
  datatype Mode = PreCommit | PostCommit

  /** A registered commit hook: the transaction it belongs to and its kind. */
  datatype Hook = Hook(tx: TxId, mode: Mode)

  /** One call of `onCommit(committed, events)`. */
  datatype Batch<T, A> = Batch(committed: bool, events: seq<Event<T, A>>)

  datatype State<T, A> = State(
    buffers: map<TxId, seq<Event<T, A>>>,
    hooks: seq<Hook>,
    delivered: seq<Batch<T, A>>)

  /** A hook firing either delivers, or fails at the `!!` when the entry is gone. */
  datatype Outcome<T, A> = Done(state: State<T, A>) | MissingEntry

  /** The kind of hook a listener registers, chosen by its `postCommit` flag. */
  function ModeOf(postCommit: bool): (m: Mode)
    ensures m == PostCommit <==> postCommit
  {
    if postCommit then PostCommit else PreCommit
  }

  /** The events buffered for `t`, or none. */
  function BufferOf<T, A>(s: State<T, A>, t: TxId): seq<Event<T, A>> {
    if t in s.buffers then s.buffers[t] else []
  }

  /** The number of pending hooks registered for transaction `t`. */
  function Count(hooks: seq<Hook>, t: TxId): (n: nat)
    ensures n <= |hooks|
    ensures n == 0 <==> forall i :: 0 <= i < |hooks| ==> hooks[i].tx != t
  {
    if hooks == [] then 0
    else (if hooks[0].tx == t then 1 else 0) + Count(hooks[1..], t)
  }

  /** `hooks` with the first occurrence of `h` taken out: a hook runs once. */
  function RemoveFirst(hooks: seq<Hook>, h: Hook): (r: seq<Hook>)
    ensures h in hooks ==> multiset(r) == multiset(hooks) - multiset{h}
    ensures h !in hooks ==> r == hooks
  {
    if hooks == [] then []
    else
      assert hooks == [hooks[0]] + hooks[1..];
      if hooks[0] == h then hooks[1..]
      else [hooks[0]] + RemoveFirst(hooks[1..], h)
  }

  lemma {:induction false} CountAppend(hooks: seq<Hook>, h: Hook, t: TxId)
    ensures Count(hooks + [h], t) == Count(hooks, t) + (if h.tx == t then 1 else 0)
  {
    if hooks != [] {
      assert (hooks + [h])[1..] == hooks[1..] + [h];
      CountAppend(hooks[1..], h, t);
    }
  }

  lemma {:induction false} CountRemoveFirst(hooks: seq<Hook>, h: Hook, t: TxId)
    requires h in hooks
    ensures Count(RemoveFirst(hooks, h), t) == Count(hooks, t) - (if h.tx == t then 1 else 0)
  {
    if hooks[0] != h {
      CountRemoveFirst(hooks[1..], h, t);
      assert ([hooks[0]] + RemoveFirst(hooks[1..], h))[1..] == RemoveFirst(hooks[1..], h);
    }
  }

  /**
    The invariant the listener keeps: a transaction has a buffer exactly when it
    has a pending hook, and then exactly one; every hook is of the listener's kind.
   */
  ghost predicate Valid<T, A>(postCommit: bool, s: State<T, A>) {
    && (forall t :: Count(s.hooks, t) == (if t in s.buffers then 1 else 0))
    && (forall h :: h in s.hooks ==> h.mode == ModeOf(postCommit))
  }

  /** The listener before any event: nothing buffered, registered or delivered. */
  function Initial<T, A>(): (s: State<T, A>)
    ensures forall postCommit :: Valid(postCommit, s)
    ensures forall t :: BufferOf(s, t) == [] && Count(s.hooks, t) == 0
    ensures s.delivered == []
  {
    State(map[], [], [])
  }

  /**
    The first event of a transaction: an empty list is stored for `t` and one hook
    of the listener's kind is registered for it.
   */
  function AddCommitHook<T, A>(postCommit: bool, s: State<T, A>, t: TxId): (r: State<T, A>)
    requires t !in s.buffers
    ensures t in r.buffers && r.buffers[t] == []
    ensures r.buffers.Keys == s.buffers.Keys + {t}
    ensures forall u :: u in s.buffers ==> r.buffers[u] == s.buffers[u]
    ensures Count(r.hooks, t) == Count(s.hooks, t) + 1
    ensures forall u :: u != t ==> Count(r.hooks, u) == Count(s.hooks, u)
    ensures Hook(t, ModeOf(postCommit)) in r.hooks
    ensures forall h :: h in r.hooks ==> h in s.hooks || h == Hook(t, ModeOf(postCommit))
    ensures r.delivered == s.delivered
  {
    var h := Hook(t, ModeOf(postCommit));
    forall u ensures Count(s.hooks + [h], u) == Count(s.hooks, u) + (if u == t then 1 else 0) {
      CountAppend(s.hooks, h, u);
    }
    State(s.buffers[t := []], s.hooks + [h], s.delivered)
  }

  /**
    `onEvent`. Without a transaction the event is delivered alone, committed.
    Inside transaction `t` it is appended to `t`'s list, which is created (with its
    hook) when `t` has none; nothing is delivered and other transactions are untouched.
   */
  function OnEvent<T, A>(postCommit: bool, s: State<T, A>, tx: Option<TxId>, e: Event<T, A>): (r: State<T, A>)
    ensures tx.None? ==> r.buffers == s.buffers && r.hooks == s.hooks
    ensures tx.None? ==> r.delivered == s.delivered + [Batch(true, [e])]
    ensures tx.Some? ==> r.delivered == s.delivered
    ensures tx.Some? ==> r.buffers.Keys == s.buffers.Keys + {tx.value}
    ensures tx.Some? ==> r.buffers[tx.value] == BufferOf(s, tx.value) + [e]
    ensures tx.Some? ==> forall u :: u in s.buffers && u != tx.value ==> r.buffers[u] == s.buffers[u]
    ensures tx.Some? && tx.value in s.buffers ==> r.hooks == s.hooks
    ensures tx.Some? && tx.value !in s.buffers ==>
              Count(r.hooks, tx.value) == Count(s.hooks, tx.value) + 1
    ensures forall u :: (tx.None? || u != tx.value) ==> Count(r.hooks, u) == Count(s.hooks, u)
  {
    match tx
    case None => s.(delivered := s.delivered + [Batch(true, [e])])
    case Some(t) =>
      var s1 := if t !in s.buffers then AddCommitHook(postCommit, s, t) else s;
      if t in s1.buffers then s1.(buffers := s1.buffers[t := s1.buffers[t] + [e]]) else s1
  }

  /** The `committed` flag a hook passes on: the outcome after commit, `true` before. */
  function Committed(mode: Mode, outcome: bool): (c: bool)
    ensures mode == PreCommit ==> c
    ensures mode == PostCommit ==> (c <==> outcome)
  {
    match mode
    case PreCommit => true
    case PostCommit => outcome
  }

  /**
    The hook `h` being run by its transaction, which resolved with `outcome`. It
    delivers the whole list buffered for `h.tx` and drops that entry; the hook is
    used up. Without an entry the `!!` fails and nothing changes.
   */
  function Fire<T, A>(s: State<T, A>, h: Hook, outcome: bool): (r: Outcome<T, A>)
    requires h in s.hooks
    ensures r.MissingEntry? <==> h.tx !in s.buffers
    ensures r.Done? ==> r.state.delivered == s.delivered + [Batch(Committed(h.mode, outcome), s.buffers[h.tx])]
    ensures r.Done? ==> r.state.buffers.Keys == s.buffers.Keys - {h.tx}
    ensures r.Done? ==> forall u :: u in r.state.buffers ==> r.state.buffers[u] == s.buffers[u]
    ensures r.Done? ==> Count(r.state.hooks, h.tx) + 1 == Count(s.hooks, h.tx)
    ensures r.Done? ==> forall u :: u != h.tx ==> Count(r.state.hooks, u) == Count(s.hooks, u)
    ensures r.Done? ==> forall g :: g in r.state.hooks ==> g in s.hooks
  {
    if h.tx !in s.buffers then MissingEntry
    else
      var hooks := RemoveFirst(s.hooks, h);
      forall u ensures Count(hooks, u) == Count(s.hooks, u) - (if h.tx == u then 1 else 0) {
        CountRemoveFirst(s.hooks, h, u);
      }
      assert forall g :: g in hooks ==> g in multiset(hooks);
      Done(State(s.buffers - {h.tx}, hooks, s.delivered + [Batch(Committed(h.mode, outcome), s.buffers[h.tx])]))
  }

  /** Registering the first hook of a transaction keeps the invariant. */
  lemma AddCommitHookValid<T, A>(postCommit: bool, s: State<T, A>, t: TxId)
    requires Valid(postCommit, s) && t !in s.buffers
    ensures Valid(postCommit, AddCommitHook(postCommit, s, t))
  {
  }

  /** Every report keeps the invariant. */
  lemma OnEventValid<T, A>(postCommit: bool, s: State<T, A>, tx: Option<TxId>, e: Event<T, A>)
    requires Valid(postCommit, s)
    ensures Valid(postCommit, OnEvent(postCommit, s, tx, e))
  {
  }

  /** A registered hook always finds its entry, so the `!!` never fails. */
  lemma {:induction false} FireFindsEntry<T, A>(postCommit: bool, s: State<T, A>, h: Hook, outcome: bool)
    requires Valid(postCommit, s) && h in s.hooks
    ensures Fire(s, h, outcome).Done?
    ensures Valid(postCommit, Fire(s, h, outcome).state)
    ensures h.mode == ModeOf(postCommit)
  {
  }

  /**
    The transaction holding hook `h` runs it, having resolved with `outcome`. A
    transaction runs only hooks registered with it, so a hook that is not pending
    changes nothing; nor does a failing `!!`, which throws before any update.
   */
  function Resolved<T, A>(s: State<T, A>, h: Hook, outcome: bool): (r: State<T, A>)
    ensures h !in s.hooks ==> r == s
    ensures r.buffers.Keys <= s.buffers.Keys
    ensures forall u :: u != h.tx ==> BufferOf(r, u) == BufferOf(s, u) && (u in r.buffers <==> u in s.buffers)
    ensures forall u :: Count(r.hooks, u) <= Count(s.hooks, u)
    ensures s.delivered <= r.delivered
  {
    if h in s.hooks then
      match Fire(s, h, outcome)
      case Done(r) => r
      case MissingEntry => s
    else s
  }

  /** One step the listener sees: an `onEvent` call, or a transaction running a hook. */
  datatype Step<T, A> =
    | Report(tx: Option<TxId>, event: Event<T, A>)
    | Resolve(hook: Hook, outcome: bool)

  function Apply<T, A>(postCommit: bool, s: State<T, A>, step: Step<T, A>): State<T, A> {
    match step
    case Report(tx, e) => OnEvent(postCommit, s, tx, e)
    case Resolve(h, outcome) => Resolved(s, h, outcome)
  }

  /** The state after the steps of `trace`, in order. */
  function Run<T, A>(postCommit: bool, s: State<T, A>, trace: seq<Step<T, A>>): State<T, A>
    decreases |trace|
  {
    if trace == [] then s
    else Apply(postCommit, Run(postCommit, s, trace[..|trace| - 1]), trace[|trace| - 1])
  }

  /** The events of `trace` reported inside transaction `t`, in reporting order. */
  function EventsOf<T, A>(trace: seq<Step<T, A>>, t: TxId): (es: seq<Event<T, A>>)
    ensures |es| <= |trace|
    decreases |trace|
  {
    if trace == [] then []
    else
      var last := trace[|trace| - 1];
      EventsOf(trace[..|trace| - 1], t) + (if last.Report? && last.tx == Some(t) then [last.event] else [])
  }

  /** One committed single-event batch per report made outside any transaction, in order. */
  function AutoCommits<T, A>(trace: seq<Step<T, A>>): (bs: seq<Batch<T, A>>)
    ensures |bs| <= |trace|
    ensures forall i :: 0 <= i < |bs| ==> bs[i].committed && |bs[i].events| == 1
    decreases |trace|
  {
    if trace == [] then []
    else
      var last := trace[|trace| - 1];
      AutoCommits(trace[..|trace| - 1]) + (if last.Report? && last.tx.None? then [Batch(true, [last.event])] else [])
  }

  /** No step of `trace` runs a hook. */
  predicate ReportsOnly<T, A>(trace: seq<Step<T, A>>) {
    forall i :: 0 <= i < |trace| ==> trace[i].Report?
  }

  /** Every hook run in `trace` belongs to a transaction other than `t`. */
  predicate OthersResolve<T, A>(trace: seq<Step<T, A>>, t: TxId) {
    forall i :: 0 <= i < |trace| ==> trace[i].Resolve? ==> trace[i].hook.tx != t
  }

  /** Reports and hook runs in any interleaving keep the invariant. */
  lemma {:induction false} RunValid<T, A>(postCommit: bool, s: State<T, A>, trace: seq<Step<T, A>>)
    requires Valid(postCommit, s)
    ensures Valid(postCommit, Run(postCommit, s, trace))
    decreases |trace|
  {
    if trace != [] {
      var mid := Run(postCommit, s, trace[..|trace| - 1]);
      RunValid(postCommit, s, trace[..|trace| - 1]);
      match trace[|trace| - 1]
      case Report(tx, e) => OnEventValid(postCommit, mid, tx, e);
      case Resolve(h, outcome) =>
        if h in mid.hooks {
          FireFindsEntry(postCommit, mid, h, outcome);
        }
    }
  }

  /**
    However the steps of different transactions interleave, and whichever other
    transactions resolve meanwhile, a transaction's list is its own events in
    reporting order, and it has a list exactly when it had one or reported something.
   */
  lemma {:induction false} RunSeparates<T, A>(postCommit: bool, s: State<T, A>, trace: seq<Step<T, A>>, t: TxId)
    requires OthersResolve(trace, t)
    ensures BufferOf(Run(postCommit, s, trace), t) == BufferOf(s, t) + EventsOf(trace, t)
    ensures t in Run(postCommit, s, trace).buffers <==> t in s.buffers || EventsOf(trace, t) != []
    decreases |trace|
  {
    if trace != [] {
      var init := trace[..|trace| - 1];
      assert OthersResolve(init, t) by {
        forall i | 0 <= i < |init| ensures init[i] == trace[i] { }
      }
      RunSeparates(postCommit, s, init, t);
      match trace[|trace| - 1]
      case Report(tx, e) => OnEventBufferOf(postCommit, Run(postCommit, s, init), tx, e, t);
      case Resolve(h, outcome) =>
    }
  }

  /**
    Batches are only ever added to the delivery log; while no hook runs, the only
    ones added are the reports made outside a transaction, one per batch.
   */
  lemma {:induction false} RunDelivers<T, A>(postCommit: bool, s: State<T, A>, trace: seq<Step<T, A>>)
    ensures s.delivered <= Run(postCommit, s, trace).delivered
    ensures ReportsOnly(trace) ==> Run(postCommit, s, trace).delivered == s.delivered + AutoCommits(trace)
    decreases |trace|
  {
    if trace != [] {
      var init := trace[..|trace| - 1];
      RunDelivers(postCommit, s, init);
      if ReportsOnly(trace) {
        assert trace[|trace| - 1].Report?;
        assert ReportsOnly(init) by {
          forall i | 0 <= i < |init| ensures init[i] == trace[i] { }
        }
      }
    }
  }

  /** What one report does to the list of one transaction. */
  lemma OnEventBufferOf<T, A>(postCommit: bool, s: State<T, A>, tx: Option<TxId>, e: Event<T, A>, t: TxId)
    ensures BufferOf(OnEvent(postCommit, s, tx, e), t)
            == BufferOf(s, t) + (if tx == Some(t) then [e] else [])
    ensures t in OnEvent(postCommit, s, tx, e).buffers <==> t in s.buffers || tx == Some(t)
  {
  }

  /** A registered hook belongs to the listener's kind and so is the one the listener built. */
  lemma PendingHook<T, A>(postCommit: bool, s: State<T, A>, t: TxId)
    requires Valid(postCommit, s) && t in s.buffers
    ensures Hook(t, ModeOf(postCommit)) in s.hooks
  {
  }

  /**
    Exactly-once delivery: a transaction that was not buffering, after any
    interleaving of steps in which only other transactions resolve, holds one hook;
    running it delivers all of its events, in reporting order, as one batch flagged
    with the outcome (post-commit) or `true` (pre-commit), and leaves neither an
    entry nor a hook for it.
   */
  lemma {:induction false} DeliveredOnce<T, A>(postCommit: bool, s: State<T, A>, trace: seq<Step<T, A>>, t: TxId, outcome: bool)
    requires Valid(postCommit, s) && t !in s.buffers && EventsOf(trace, t) != []
    requires OthersResolve(trace, t)
    ensures var r := Run(postCommit, s, trace);
            var h := Hook(t, ModeOf(postCommit));
            && h in r.hooks && Count(r.hooks, t) == 1
            && Fire(r, h, outcome).Done?
            && Fire(r, h, outcome).state.delivered
               == r.delivered + [Batch(if postCommit then outcome else true, EventsOf(trace, t))]
            && t !in Fire(r, h, outcome).state.buffers
            && Count(Fire(r, h, outcome).state.hooks, t) == 0
  {
    RunValid(postCommit, s, trace);
    RunSeparates(postCommit, s, trace, t);
    var r := Run(postCommit, s, trace);
    PendingHook(postCommit, r, t);
    assert BufferOf(r, t) == EventsOf(trace, t);
  }

  /**
    Once a transaction has neither list nor hook, it stays so while it reports
    nothing, whatever else happens, and running any hook of it changes nothing:
    nothing more is delivered for it. (A new report would start a new list and
    register a new hook, as for an unseen transaction.)
   */
  lemma {:induction false} NothingAfterDelivery<T, A>(postCommit: bool, s: State<T, A>, trace: seq<Step<T, A>>, t: TxId)
    requires t !in s.buffers && Count(s.hooks, t) == 0 && EventsOf(trace, t) == []
    ensures var r := Run(postCommit, s, trace);
            && t !in r.buffers && Count(r.hooks, t) == 0
            && forall m: Mode, outcome: bool :: Resolved(r, Hook(t, m), outcome) == r
    decreases |trace|
  {
    var r := Run(postCommit, s, trace);
    if trace != [] {
      var init := trace[..|trace| - 1];
      NothingAfterDelivery(postCommit, s, init, t);
    }
    forall m: Mode, outcome: bool ensures Resolved(r, Hook(t, m), outcome) == r {
      if Hook(t, m) in r.hooks {
        var i :| 0 <= i < |r.hooks| && r.hooks[i] == Hook(t, m);
        assert r.hooks[i].tx == t;
      }
    }
  }
}
