/**
  The mutation events a data-access object reports to its listeners.

  Every event names the table it belongs to and the primary key of the affected
  row. The table type and the `Any` payloads are type parameters: `T` stands for
  the table and `A` for ids and row values. A nullable `Any?` becomes `Option<A>`.
  Dafny reserves `new`, so the new and old row values are `newValue` and `oldValue`.
 */
module Events {

  datatype Option<+X> = None | Some(value: X)

  /** The five event kinds. Only the two pre-write kinds carry `transformed`. */
  datatype Event<T, A> =
    | PreInsertEvent(table: T, id: A, newValue: A, transformed: A)
    | PreUpdateEvent(table: T, id: A, newValue: A, oldValue: Option<A>, transformed: A)
    | InsertEvent(table: T, id: A, inserted: A)
    | DeleteEvent(table: T, id: A, deleted: Option<A>)
    | UpdateEvent(table: T, id: A, newValue: A, oldValue: Option<A>)
  {
    /** The kinds that implement the transforming-event interface. */
    predicate IsTransforming() {
      PreInsertEvent? || PreUpdateEvent?
    }
  }

  /** Builds a pre-insert event with the default `transformed`, which is the new row. */
  function NewPreInsert<T, A>(table: T, id: A, newValue: A): (e: Event<T, A>)
    ensures e.PreInsertEvent? && e.IsTransforming()
    ensures e.table == table && e.id == id && e.newValue == newValue
    ensures e.transformed == e.newValue
  {
    PreInsertEvent(table, id, newValue, newValue)
  }

  /** Builds a pre-update event with the default `transformed`, which is the new row. */
  function NewPreUpdate<T, A>(table: T, id: A, newValue: A, oldValue: Option<A>): (e: Event<T, A>)
    ensures e.PreUpdateEvent? && e.IsTransforming()
    ensures e.table == table && e.id == id && e.newValue == newValue && e.oldValue == oldValue
    ensures e.transformed == e.newValue
  {
    PreUpdateEvent(table, id, newValue, oldValue, newValue)
  }

  /**
    An observer assigning `transformed`: the replacement value is what will be
    persisted, while the kind, table, id and the immutable `new`/`old` values stay.
   */
  function SetTransformed<T, A>(e: Event<T, A>, v: A): (r: Event<T, A>)
    requires e.IsTransforming()
    ensures r.IsTransforming() && r.transformed == v
    ensures r.PreInsertEvent? == e.PreInsertEvent?
    ensures r.table == e.table && r.id == e.id && r.newValue == e.newValue
    ensures r.PreUpdateEvent? ==> r.oldValue == e.oldValue
    ensures v == e.transformed ==> r == e
  {
    match e
    case PreInsertEvent(t, id, n, _) => PreInsertEvent(t, id, n, v)
    case PreUpdateEvent(t, id, n, o, _) => PreUpdateEvent(t, id, n, o, v)
  }

  /** Transforming back to the new row restores a freshly built event. */
  lemma TransformBackToNew<T, A>(table: T, id: A, newValue: A, oldValue: Option<A>, v: A)
    ensures SetTransformed(SetTransformed(NewPreInsert(table, id, newValue), v), newValue)
            == NewPreInsert(table, id, newValue)
    ensures SetTransformed(SetTransformed(NewPreUpdate(table, id, newValue, oldValue), v), newValue)
            == NewPreUpdate(table, id, newValue, oldValue)
  {
  }
}
