/** The values the sync loop consumes and produces: binlog events as the event
    source hands them over, the per-event answers of the collaborators the
    loop calls, the calls themselves, and the loop's errors. */
module Binlog {
  import opened Positions

  newtype byte = x: int | 0 <= x < 256

  datatype Option<T> = None | Some(value: T)

  // Binlog event type codes of the rows events (MySQL replication protocol).
  const WriteRowsV0: byte := 20
  const UpdateRowsV0: byte := 21
  const DeleteRowsV0: byte := 22
  const WriteRowsV1: byte := 23
  const UpdateRowsV1: byte := 24
  const DeleteRowsV1: byte := 25
  const WriteRowsV2: byte := 30
  const UpdateRowsV2: byte := 31
  const DeleteRowsV2: byte := 32

  /** The common event header: the event type and the offset of the next event. */
  datatype Header = Header(eventType: byte, logPos: uint32)

  /** One row image; column values are kept opaque. */
  type Row = seq<string>

  /** The decoded body of an event, by the payload kinds the loop tells apart. */
  datatype Body =
    | RotateEvent(nextLogName: string, position: uint64)
    | RowsEvent(schema: string, table: string, rows: seq<Row>)
    | XidEvent
    | QueryEvent(schema: string, query: string)
    | OtherEvent

  /** What one call of the event source's GetEvent gives back. */
  datatype Fetch =
    | DeadlineExceeded
    | FetchError(reason: string)
    | Fetched(header: Header, body: Body)

  /** The answers of the collaborators the loop consults while handling one
      event: whether GetTable finds the table, and whether every registered
      handler of the chain the event goes to returns without error. */
  datatype Replies = Replies(tableFound: bool, handlersOk: bool)

  /** One iteration's input: the fetch result and the collaborators' answers. */
  datatype Tick = Tick(fetch: Fetch, replies: Replies)

  datatype Action = Insert | Update | Delete | Alter

  /** A call the loop makes to a collaborator, recorded in the order made. */
  datatype Effect =
    | GetTable(schema: string, table: string)
    | ClearTableCache(schema: string, table: string)
    | RowsHandlers(action: Action, schema: string, table: string, rows: seq<Row>)
    | QueryHandlers(schema: string, table: string, query: string)
    | MasterUpdate(at: Position)
    | MasterSave(force: bool)

  datatype Error =
    | StartSyncFailed(at: Position, reason: string)
    | FetchFailed(reason: string)
    | TableNotFound(schema: string, table: string)
    | UnsupportedEventType(eventType: byte)
    | RowsHandlerFailed
    | QueryHandlerFailed

  /** The calls that touch the master position: Update and Save. */
  predicate IsPersist(e: Effect) {
    e.MasterUpdate? || e.MasterSave?
  }

  predicate NoPersist(effects: seq<Effect>) {
    forall i :: 0 <= i < |effects| ==> !IsPersist(effects[i])
  }
}
