/** handleRowsEvent and handleQueryEvent (canal/sync.go): build the domain
    event for the table GetTable resolves and pass it to the handler chain. */
module Handlers {
  import opened Binlog

  /** The row action of a rows event's type; None for a type the switch does
      not list. */
  function RowAction(t: byte): (r: Option<Action>)
    ensures r != Some(Alter)
  {
    if t == WriteRowsV1 || t == WriteRowsV2 then Some(Insert)
    else if t == DeleteRowsV1 || t == DeleteRowsV2 then Some(Delete)
    else if t == UpdateRowsV1 || t == UpdateRowsV2 then Some(Update)
    else None
  }

  /** The event types the loop accepts for each action (v1 and v2 encodings). */
  function TypesOf(a: Action): set<byte> {
    match a
    case Insert => {WriteRowsV1, WriteRowsV2}
    case Delete => {DeleteRowsV1, DeleteRowsV2}
    case Update => {UpdateRowsV1, UpdateRowsV2}
    case Alter => {}
  }

  /** RowAction and TypesOf are inverse: each type maps to the action whose
      encodings list it, and the v0 encodings and every other type map to none. */
  lemma RowActionInverse(t: byte, a: Action)
    ensures RowAction(t) == Some(a) <==> t in TypesOf(a)
    ensures RowAction(t) == None <==> t !in TypesOf(Insert) + TypesOf(Delete) + TypesOf(Update)
    ensures t in {WriteRowsV0, UpdateRowsV0, DeleteRowsV0} ==> RowAction(t) == None
  {
  }

  /** The calls a handler makes and the error it returns, if any. */
  datatype Handled = Handled(effects: seq<Effect>, err: Option<Error>)

  predicate NoRowsDispatch(effects: seq<Effect>) {
    forall i :: 0 <= i < |effects| ==> !effects[i].RowsHandlers?
  }

  /** handleRowsEvent: GetTable first, then the event type decides the action,
      then the rows handler chain gets one event carrying the rows unchanged. */
  function HandleRowsEvent(eventType: byte, schema: string, table: string, rows: seq<Row>, replies: Replies): (h: Handled)
    ensures |h.effects| >= 1 && h.effects[0] == GetTable(schema, table)
    ensures NoPersist(h.effects)
    // a GetTable failure is returned before the event type is looked at
    ensures !replies.tableFound ==> h == Handled([GetTable(schema, table)], Some(TableNotFound(schema, table)))
    // an unlisted type is an error and nothing is dispatched
    ensures replies.tableFound && RowAction(eventType).None? ==>
              h.err == Some(UnsupportedEventType(eventType)) && NoRowsDispatch(h.effects)
    // a listed type dispatches exactly one event, tagged with its action
    ensures replies.tableFound && RowAction(eventType).Some? ==>
              h.effects == [GetTable(schema, table), RowsHandlers(RowAction(eventType).value, schema, table, rows)]
    ensures h.err.None? <==> replies.tableFound && RowAction(eventType).Some? && replies.handlersOk
  {
    if !replies.tableFound then
      Handled([GetTable(schema, table)], Some(TableNotFound(schema, table)))
    else
      match RowAction(eventType)
      case None =>
        Handled([GetTable(schema, table)], Some(UnsupportedEventType(eventType)))
      case Some(action) =>
        Handled([GetTable(schema, table), RowsHandlers(action, schema, table, rows)],
                if replies.handlersOk then None else Some(RowsHandlerFailed))
  }

  /** handleQueryEvent: GetTable, then one Alter event to the query handler chain. */
  function HandleQueryEvent(schema: string, table: string, query: string, replies: Replies): (h: Handled)
    ensures |h.effects| >= 1 && h.effects[0] == GetTable(schema, table)
    ensures NoPersist(h.effects)
    ensures !replies.tableFound ==> h == Handled([GetTable(schema, table)], Some(TableNotFound(schema, table)))
    ensures replies.tableFound ==> h.effects == [GetTable(schema, table), QueryHandlers(schema, table, query)]
    ensures h.err.None? <==> replies.tableFound && replies.handlersOk
    ensures h.err.Some? ==> h.err == Some(TableNotFound(schema, table)) || h.err == Some(QueryHandlerFailed)
  {
    if !replies.tableFound then
      Handled([GetTable(schema, table)], Some(TableNotFound(schema, table)))
    else
      Handled([GetTable(schema, table), QueryHandlers(schema, table, query)],
              if replies.handlersOk then None else Some(QueryHandlerFailed))
  }
}
