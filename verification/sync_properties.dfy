/** What one iteration of the startSyncBinlog loop and a run of iterations
    guarantee, stated against independent descriptions of the events. */
module SyncProperties {
  import opened Positions
  import opened Binlog
  import opened Handlers
  import opened AlterTable
  import opened Sync

  /** The fetched event is one the loop records with an Update and a Save
      (when its handlers succeed). */
  predicate Recorded(t: Tick) {
    t.fetch.Fetched? &&
    match t.fetch.body
    case QueryEvent(_, query) => DetectAlterTable(query).Some?
    case OtherEvent => false
    case _ => true
  }

  /** The fetched event is one whose Save is forced: a rotation, or an ALTER
      TABLE on a table neither filter lists. */
  predicate Forced(f: Filters, t: Tick) {
    t.fetch.Fetched? &&
    match t.fetch.body
    case RotateEvent(_, _) => true
    case QueryEvent(_, query) =>
      DetectAlterTable(query).Some? && !Ignored(f, DetectAlterTable(query).value.table)
    case _ => false
  }

  /** The iteration on t makes the loop return: a fetch error, a rows event
      whose table, type or handlers fail, or a handled ALTER whose table or
      handlers fail. */
  predicate Fails(f: Filters, t: Tick) {
    match t.fetch
    case DeadlineExceeded => false
    case FetchError(_) => true
    case Fetched(header, body) =>
      match body
      case RowsEvent(_, _, _) =>
        !(t.replies.tableFound && RowAction(header.eventType).Some? && t.replies.handlersOk)
      case QueryEvent(_, query) =>
        DetectAlterTable(query).Some? && !Ignored(f, DetectAlterTable(query).value.table) &&
        !(t.replies.tableFound && t.replies.handlersOk)
      case _ => false
  }

  /** The loop's locals after one iteration: a timeout doubles the backoff and
      keeps the position; any event resets the backoff and takes its offset
      from the header, and only a rotation changes the file name. */
  lemma StepLocals(f: Filters, s: Loop, t: Tick)
    ensures var r := StepOf(f, s, t);
      (!t.fetch.Fetched? ==> r.next.pos == s.pos) &&
      (t.fetch.DeadlineExceeded? ==> r.next.timeout == Double(s.timeout)) &&
      (t.fetch.Fetched? ==> r.next.timeout == Second) &&
      (t.fetch.Fetched? && !t.fetch.body.RotateEvent? ==>
         r.next.pos == Position(s.pos.name, t.fetch.header.logPos)) &&
      (t.fetch.Fetched? && t.fetch.body.RotateEvent? ==>
         r.next.pos == Position(t.fetch.body.nextLogName, Truncate32(t.fetch.body.position)))
  {
  }

  /** The loop returns exactly on the failures Fails lists, with no call
      made when nothing was fetched. */
  lemma StepOutcome(f: Filters, s: Loop, t: Tick)
    ensures var r := StepOf(f, s, t);
      (r.outcome.Fail? <==> Fails(f, t)) && (!t.fetch.Fetched? ==> r.effects == [])
  {
  }

  /** A rows event that is handled is recorded without forcing the save; a
      failed one is not recorded. */
  lemma RowsStepSaves(pos: Position, eventType: byte, schema: string, table: string, rows: seq<Row>, replies: Replies)
    ensures var r := RowsStep(pos, eventType, schema, table, rows, replies);
      (r.outcome.Continue? ==> EndsWithPersist(r.effects, pos, false)) &&
      (r.outcome.Fail? ==> NoPersist(r.effects))
  {
    PersistAtEnd(HandleRowsEvent(eventType, schema, table, rows, replies).effects, pos, false);
  }

  /** A recognised ALTER is recorded, with a forced save exactly when its
      table is not filtered, unless the query handling fails. */
  lemma AlterStepSaves(f: Filters, pos: Position, db: string, table: string, query: string, replies: Replies)
    ensures var r := AlterStep(f, pos, db, table, query, replies);
      (r.outcome.Continue? ==> EndsWithPersist(r.effects, pos, !Ignored(f, table))) &&
      (r.outcome.Fail? ==> NoPersist(r.effects))
  {
    var clear := [ClearTableCache(db, table)];
    assert NoPersist(clear);
    if Ignored(f, table) {
      PersistAtEnd(clear, pos, false);
    } else {
      var h := HandleQueryEvent(db, table, query, replies);
      NoPersistConcat(clear, h.effects);
      PersistAtEnd(clear + h.effects, pos, true);
    }
  }

  /** The master's position is written only at the end of an iteration that
      recorded its event and did not fail, and then by exactly one Update of
      the new position followed by one Save, forced for a rotation or an
      ALTER on an unfiltered table; every other iteration leaves it alone. */
  lemma StepSaves(f: Filters, s: Loop, t: Tick)
    ensures var r := StepOf(f, s, t);
      (Recorded(t) && !Fails(f, t) ==> EndsWithPersist(r.effects, r.next.pos, Forced(f, t))) &&
      (!Recorded(t) || Fails(f, t) ==> NoPersist(r.effects))
  {
    StepOutcome(f, s, t);
    assert NoPersist([]);
    if t.fetch.Fetched? {
      var e := t.fetch;
      var pos := s.pos.(pos := e.header.logPos);
      match e.body {
      case RotateEvent(name, p) =>
        PersistAtEnd([], Position(name, Truncate32(p)), true);
      case RowsEvent(schema, table, rows) =>
        RowsStepSaves(pos, e.header.eventType, schema, table, rows, t.replies);
      case XidEvent =>
        PersistAtEnd([], pos, false);
      case QueryEvent(schema, query) =>
        match DetectAlterTable(query) {
        case None =>
        case Some(m) =>
          AlterStepSaves(f, pos, AlterSchema(schema, m), m.table, query, t.replies);
        }
      case OtherEvent =>
      }
    }
  }

  /** A recognised ALTER TABLE clears the table cache before anything else,
      filtered or not, and reaches the query handlers only for an unfiltered
      table that GetTable finds. */
  lemma AlterClearsCacheFirst(f: Filters, pos: Position, db: string, table: string, query: string, replies: Replies)
    ensures var r := AlterStep(f, pos, db, table, query, replies);
      |r.effects| > 0 && r.effects[0] == ClearTableCache(db, table) &&
      (QueryHandlers(db, table, query) in r.effects <==> !Ignored(f, table) && replies.tableFound)
  {
    var clear := [ClearTableCache(db, table)];
    var q := QueryHandlers(db, table, query);
    if Ignored(f, table) {
      assert (clear + Persist(pos, false))[0] == ClearTableCache(db, table);
      assert q !in clear + Persist(pos, false);
    } else {
      var h := HandleQueryEvent(db, table, query, replies);
      assert (clear + h.effects)[0] == ClearTableCache(db, table);
      assert q in h.effects <==> replies.tableFound;
      if h.err.None? {
        assert clear + h.effects + Persist(pos, true) == clear + (h.effects + Persist(pos, true));
      }
    }
  }

  /** A recognised ALTER TABLE acts on the schema the statement names or,
      when it names none, on the query event's own schema: the cache clear,
      GetTable and the query handlers all get that schema. */
  lemma AlterUsesEventSchema(f: Filters, s: Loop, t: Tick)
    requires t.fetch.Fetched? && t.fetch.body.QueryEvent? && DetectAlterTable(t.fetch.body.query).Some?
    ensures var m := DetectAlterTable(t.fetch.body.query).value;
      var db := if m.schema == [] then t.fetch.body.schema else m.schema;
      var r := StepOf(f, s, t);
      |r.effects| > 0 && r.effects[0] == ClearTableCache(db, m.table) &&
      (!Ignored(f, m.table) ==> |r.effects| > 1 && r.effects[1] == GetTable(db, m.table)) &&
      (QueryHandlers(db, m.table, t.fetch.body.query) in r.effects <==> !Ignored(f, m.table) && t.replies.tableFound)
  {
    var e := t.fetch;
    var m := DetectAlterTable(e.body.query).value;
    var db := AlterSchema(e.body.schema, m);
    var pos := s.pos.(pos := e.header.logPos);
    AlterClearsCacheFirst(f, pos, db, m.table, e.body.query, t.replies);
    if !Ignored(f, m.table) {
      var h := HandleQueryEvent(db, m.table, e.body.query, t.replies);
      assert (([ClearTableCache(db, m.table)] + h.effects) + Persist(pos, true))[1] == h.effects[0];
    }
  }

  /** A rows event reaches the handlers for action a exactly when GetTable
      finds its table and its type is one of a's. */
  lemma RowsDispatch(f: Filters, s: Loop, t: Tick, a: Action)
    requires t.fetch.Fetched? && t.fetch.body.RowsEvent?
    ensures var b := t.fetch.body;
      RowsHandlers(a, b.schema, b.table, b.rows) in StepOf(f, s, t).effects <==>
      t.replies.tableFound && t.fetch.header.eventType in TypesOf(a)
  {
    var e := t.fetch;
    var b := e.body;
    var pos := s.pos.(pos := e.header.logPos);
    var h := HandleRowsEvent(e.header.eventType, b.schema, b.table, b.rows, t.replies);
    var d := RowsHandlers(a, b.schema, b.table, b.rows);
    RowActionInverse(e.header.eventType, a);
    assert d in h.effects <==> t.replies.tableFound && RowAction(e.header.eventType) == Some(a);
    if h.err.None? {
      assert d !in Persist(pos, false);
    }
  }

  /** Positions are not kept monotonic: an event whose header carries a
      smaller offset moves the loop, and the saved position, backwards. */
  lemma OffsetMayDecrease(f: Filters, s: Loop, t: Tick)
    requires t.fetch.Fetched? && t.fetch.body.XidEvent? && t.fetch.header.logPos < s.pos.pos
    ensures var r := StepOf(f, s, t);
      !AtLeast(r.next.pos, s.pos) && MasterUpdate(r.next.pos) in r.effects
  {
    assert StepOf(f, s, t).effects[0] == MasterUpdate(s.pos.(pos := t.fetch.header.logPos));
  }

  /** The backoff after k doublings. */
  function DoubleN(d: int64, k: nat): int64 {
    if k == 0 then d else Double(DoubleN(d, k - 1))
  }

  function Pow2(k: nat): (r: nat)
    ensures r >= 1
  {
    if k == 0 then 1 else 2 * Pow2(k - 1)
  }

  lemma {:induction false} Pow2Grows(j: nat, k: nat)
    requires j <= k
    ensures Pow2(j) <= Pow2(k)
    decreases k
  {
    if j < k {
      Pow2Grows(j, k - 1);
    }
  }

  /** k consecutive fetch timeouts: no call, no error, the position kept and
      the backoff doubled k times. */
  lemma {:induction false} TimeoutsDouble(f: Filters, s: Loop, ticks: seq<Tick>)
    requires forall i :: 0 <= i < |ticks| ==> ticks[i].fetch.DeadlineExceeded?
    ensures RunTicks(f, s, ticks) == Run(s.(timeout := DoubleN(s.timeout, |ticks|)), [], None)
    decreases |ticks|
  {
    if ticks != [] {
      TimeoutsDouble(f, s, ticks[..|ticks| - 1]);
    }
  }

  lemma {:induction false} Pow2Split(a: nat, b: nat)
    ensures Pow2(a + b) == Pow2(a) * Pow2(b)
  {
    if a > 0 {
      Pow2Split(a - 1, b);
    }
  }

  lemma Pow2Bound(k: nat)
    requires k <= 32
    ensures Pow2(k) <= 0x1_0000_0000
  {
    Pow2Grows(k, 32);
    Pow2Of32();
  }

  lemma Pow2Of32()
    ensures Pow2(32) == 0x1_0000_0000
  {
    assert Pow2(4) == 16;
    Pow2Split(4, 4);
    assert Pow2(8) == 256;
    Pow2Split(8, 8);
    assert Pow2(16) == 0x1_0000;
    Pow2Split(16, 16);
  }

  /** From the initial one second, 33 doublings stay exact: 2^k seconds. */
  lemma {:induction false} DoublingExact(k: nat)
    requires k <= 33
    ensures DoubleN(Second, k) as int == 1_000_000_000 * Pow2(k)
  {
    if k > 0 {
      DoublingExact(k - 1);
      Pow2Bound(k - 1);
      var d := DoubleN(Second, k - 1);
      assert 0 < d as int <= 1_000_000_000 * 0x1_0000_0000;
    }
  }

  /** The rows handlers called, in call order. */
  function Dispatched(effects: seq<Effect>): seq<Effect>
    decreases |effects|
  {
    if effects == [] then []
    else
      var last := effects[|effects| - 1];
      Dispatched(effects[..|effects| - 1]) + (if last.RowsHandlers? then [last] else [])
  }

  lemma {:induction false} DispatchedConcat(a: seq<Effect>, b: seq<Effect>)
    ensures Dispatched(a + b) == Dispatched(a) + Dispatched(b)
    decreases |b|
  {
    if b == [] {
      assert a + b == a;
    } else {
      var init, last := b[..|b| - 1], b[|b| - 1];
      assert (a + b)[..|a + b| - 1] == a + init;
      DispatchedConcat(a, init);
      var tail := if last.RowsHandlers? then [last] else [];
      assert Dispatched(a + b) == Dispatched(a) + Dispatched(init) + tail;
    }
  }

  /** An event of a transaction that applies cleanly: a rows event of a
      supported type whose table is found and whose handlers succeed, or
      the XID that commits it. */
  predicate Applies(t: Tick) {
    t.fetch.Fetched? &&
    ((t.fetch.body.RowsEvent? && t.replies.tableFound && t.replies.handlersOk &&
      RowAction(t.fetch.header.eventType).Some?) ||
     t.fetch.body.XidEvent?)
  }

  /** The rows-handler call a cleanly applying event should make, if any. */
  function ExpectedOf(t: Tick): seq<Effect> {
    if t.fetch.Fetched? && t.fetch.body.RowsEvent? && RowAction(t.fetch.header.eventType).Some? then
      [RowsHandlers(RowAction(t.fetch.header.eventType).value, t.fetch.body.schema,
                    t.fetch.body.table, t.fetch.body.rows)]
    else []
  }

  /** One rows-handler call per rows event, in binlog order. */
  function Expected(ticks: seq<Tick>): seq<Effect>
    decreases |ticks|
  {
    if ticks == [] then [] else Expected(ticks[..|ticks| - 1]) + ExpectedOf(ticks[|ticks| - 1])
  }

  lemma StepDispatch(f: Filters, s: Loop, t: Tick)
    requires Applies(t)
    ensures StepOf(f, s, t).outcome.Continue? && Dispatched(StepOf(f, s, t).effects) == ExpectedOf(t)
  {
    var e := t.fetch;
    var pos := s.pos.(pos := e.header.logPos);
    var p := Persist(pos, false);
    assert Dispatched(p) == [] by {
      assert p[..1] == [MasterUpdate(pos)];
      assert Dispatched(p[..1]) == [];
    }
    if e.body.RowsEvent? {
      var b := e.body;
      var h := HandleRowsEvent(e.header.eventType, b.schema, b.table, b.rows, t.replies);
      var d := RowsHandlers(RowAction(e.header.eventType).value, b.schema, b.table, b.rows);
      assert h.effects == [GetTable(b.schema, b.table), d];
      assert Dispatched([GetTable(b.schema, b.table)]) == [];
      DispatchedConcat(h.effects, p);
    }
  }

  /** A run of cleanly applying transaction events calls the rows handlers
      once per rows event, in the order the binlog delivered them, and does
      not stop. */
  lemma {:induction false} TransactionOrder(f: Filters, s: Loop, ticks: seq<Tick>)
    requires forall i :: 0 <= i < |ticks| ==> Applies(ticks[i])
    ensures RunTicks(f, s, ticks).err == None
    ensures Dispatched(RunTicks(f, s, ticks).effects) == Expected(ticks)
    decreases |ticks|
  {
    if ticks != [] {
      var init := ticks[..|ticks| - 1];
      var t := ticks[|ticks| - 1];
      TransactionOrder(f, s, init);
      var r := RunTicks(f, s, init);
      StepDispatch(f, r.state, t);
      DispatchedConcat(r.effects, StepOf(f, r.state, t).effects);
    }
  }

  /** A StartSync failure ends startSyncBinlog before any event is fetched
      and without any call. */
  lemma StartFailureCallsNothing(f: Filters, m: Position, reason: string, ticks: seq<Tick>)
    ensures SyncBinlog(f, m, Some(reason), ticks).effects == []
    ensures SyncBinlog(f, m, Some(reason), ticks).err == Some(StartSyncFailed(m, reason))
  {
  }

  /** After a run whose last event was recorded, the master holds the
      position the loop has reached. */
  lemma MasterFollowsLastRecorded(f: Filters, s: Loop, ticks: seq<Tick>, m: Position)
    requires ticks != [] && Recorded(ticks[|ticks| - 1]) && RunTicks(f, s, ticks).err == None
    ensures MasterAfter(m, RunTicks(f, s, ticks).effects) == RunTicks(f, s, ticks).state.pos
  {
    var r0 := RunTicks(f, s, ticks[..|ticks| - 1]);
    var t := ticks[|ticks| - 1];
    var st := StepOf(f, r0.state, t);
    assert r0.err == None && RunTicks(f, s, ticks) == Run(st.next, r0.effects + st.effects, None);
    StepOutcome(f, r0.state, t);
    StepSaves(f, r0.state, t);
    MasterAfterConcat(m, r0.effects, st.effects);
    MasterAfterEnds(MasterAfter(m, r0.effects), st.effects, st.next.pos, Forced(f, t));
  }
}
