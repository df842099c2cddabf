/** startSyncBinlog (canal/sync.go): the binlog consumption loop. StepOf and
    RunTicks say what one iteration and a sequence of iterations do;
    Canal.StartSyncBinlog is the loop itself, proved to behave as RunTicks. */
module Sync {
  import opened Positions
  import opened Binlog
  import opened Handlers
  import opened AlterTable

  /** time.Duration: signed 64-bit nanoseconds. */
  newtype int64 = x: int | -0x8000_0000_0000_0000 <= x < 0x8000_0000_0000_0000

  const Second: int64 := 1_000_000_000

  /** `2 * timeout` on a Duration; Go's signed multiplication wraps around. */
  function Double(d: int64): (r: int64)
    ensures -0x4000_0000_0000_0000 <= d as int < 0x4000_0000_0000_0000 ==> r as int == 2 * d as int
    ensures (r as int - 2 * d as int) % 0x1_0000_0000_0000_0000 == 0
  {
    ((2 * d as int + 0x8000_0000_0000_0000) % 0x1_0000_0000_0000_0000 - 0x8000_0000_0000_0000) as int64
  }

  /** The filter sets an ALTER TABLE is checked against: FilterTabs (a table
      is in it when it maps to true) and the keys of Cfg_Tc. */
  datatype Filters = Filters(filterTabs: map<string, bool>, cfgTc: set<string>)

  predicate InFilterTabs(f: Filters, table: string) {
    table in f.filterTabs && f.filterTabs[table]
  }

  /** The table name alone decides; the schema plays no part. */
  predicate Ignored(f: Filters, table: string) {
    InFilterTabs(f, table) || table in f.cfgTc
  }

  /** The loop's locals that outlive an iteration: the position and the backoff. */
  datatype Loop = Loop(pos: Position, timeout: int64)

  datatype Outcome = Continue | Fail(err: Error)

  /** One iteration: the locals after it, the calls it made, how it ended. */
  datatype Step = Step(next: Loop, effects: seq<Effect>, outcome: Outcome)

  /** c.master.Update then c.master.Save: how a recognised event ends. */
  function Persist(pos: Position, force: bool): seq<Effect> {
    [MasterUpdate(pos), MasterSave(force)]
  }

  /** The calls end with one Update of pos and one Save, and touch the master
      nowhere else. */
  predicate EndsWithPersist(effects: seq<Effect>, pos: Position, force: bool) {
    |effects| >= 2 && effects[|effects| - 2..] == Persist(pos, force) && NoPersist(effects[..|effects| - 2])
  }

  lemma NoPersistConcat(a: seq<Effect>, b: seq<Effect>)
    requires NoPersist(a) && NoPersist(b)
    ensures NoPersist(a + b)
  {
    assert forall i :: 0 <= i < |a + b| ==> (a + b)[i] == if i < |a| then a[i] else b[i - |a|];
  }

  lemma PersistAtEnd(a: seq<Effect>, pos: Position, force: bool)
    requires NoPersist(a)
    ensures EndsWithPersist(a + Persist(pos, force), pos, force)
  {
    var e := a + Persist(pos, force);
    assert e[..|e| - 2] == a;
    assert e[|e| - 2..] == Persist(pos, force);
  }

  /** One iteration of the loop on one fetch result. */
  function StepOf(f: Filters, s: Loop, t: Tick): Step {
    match t.fetch
    case DeadlineExceeded => Step(s.(timeout := Double(s.timeout)), [], Continue)
    case FetchError(reason) => Step(s, [], Fail(FetchFailed(reason)))
    case Fetched(header, body) =>
      EventStep(f, s.pos.(pos := header.logPos), header.eventType, body, t.replies)
  }

  /** The switch on the event's payload, once the offset has been taken from
      the header into pos. */
  function EventStep(f: Filters, pos: Position, eventType: byte, body: Body, replies: Replies): Step {
    var next := Loop(pos, Second);
    match body
    case RotateEvent(name, p) =>
      var rotated := Position(name, Truncate32(p));
      Step(Loop(rotated, Second), Persist(rotated, true), Continue)
    case RowsEvent(schema, table, rows) => RowsStep(pos, eventType, schema, table, rows, replies)
    case XidEvent => Step(next, Persist(pos, false), Continue)
    case QueryEvent(schema, query) => QueryStep(f, pos, schema, query, replies)
    case OtherEvent => Step(next, [], Continue)
  }

  /** A rows event: handled, then recorded unless the handling failed. */
  function RowsStep(pos: Position, eventType: byte, schema: string, table: string, rows: seq<Row>, replies: Replies): Step {
    var h := HandleRowsEvent(eventType, schema, table, rows, replies);
    if h.err.Some? then Step(Loop(pos, Second), h.effects, Fail(h.err.value))
    else Step(Loop(pos, Second), h.effects + Persist(pos, false), Continue)
  }

  /** The schema an ALTER applies to: the captured one, or the query event's
      own schema when the statement names none. */
  function AlterSchema(eventSchema: string, m: Capture): string {
    if |m.schema| == 0 then eventSchema else m.schema
  }

  /** A query event: only a statement the detector recognises is handled. */
  function QueryStep(f: Filters, pos: Position, schema: string, query: string, replies: Replies): Step {
    match DetectAlterTable(query)
    case None => Step(Loop(pos, Second), [], Continue)
    case Some(m) => AlterStep(f, pos, AlterSchema(schema, m), m.table, query, replies)
  }

  /** A recognised ALTER TABLE on db.table: the table cache is cleared first;
      an ignored table is then only recorded, any other goes to the query
      handlers and, when they succeed, forces the save. */
  function AlterStep(f: Filters, pos: Position, db: string, table: string, query: string, replies: Replies): Step {
    var next := Loop(pos, Second);
    var clear := [ClearTableCache(db, table)];
    if Ignored(f, table) then Step(next, clear + Persist(pos, false), Continue)
    else
      var h := HandleQueryEvent(db, table, query, replies);
      if h.err.Some? then Step(next, clear + h.effects, Fail(h.err.value))
      else Step(next, clear + h.effects + Persist(pos, true), Continue)
  }

  /** Where a sequence of iterations has got to: the locals, every call made,
      and the error that ended the loop, if one did. */
  datatype Run = Run(state: Loop, effects: seq<Effect>, err: Option<Error>)

  /** The iterations over ticks, in order, stopping at the first failure. */
  function RunTicks(f: Filters, s: Loop, ticks: seq<Tick>): Run
    decreases |ticks|
  {
    if ticks == [] then Run(s, [], None)
    else
      var r := RunTicks(f, s, ticks[..|ticks| - 1]);
      if r.err.Some? then r
      else
        var st := StepOf(f, r.state, ticks[|ticks| - 1]);
        Run(st.next, r.effects + st.effects, if st.outcome.Fail? then Some(st.outcome.err) else None)
  }

  /** startSyncBinlog from the master's position: a StartSync failure returns
      before any event is fetched; otherwise the loop starts with a one-second
      backoff. */
  function SyncBinlog(f: Filters, master: Position, start: Option<string>, ticks: seq<Tick>): Run {
    if start.Some? then Run(Loop(master, Second), [], Some(StartSyncFailed(master, start.value)))
    else RunTicks(f, Loop(master, Second), ticks)
  }

  /** The master's position after a sequence of calls: the last Update, if any. */
  function MasterAfter(m: Position, effects: seq<Effect>): Position
    decreases |effects|
  {
    if effects == [] then m
    else if effects[|effects| - 1].MasterUpdate? then effects[|effects| - 1].at
    else MasterAfter(m, effects[..|effects| - 1])
  }

  lemma {:induction false} MasterAfterConcat(m: Position, a: seq<Effect>, b: seq<Effect>)
    ensures MasterAfter(m, a + b) == MasterAfter(MasterAfter(m, a), b)
    decreases |b|
  {
    if b == [] {
      assert a + b == a;
    } else {
      assert (a + b)[..|a + b| - 1] == a + b[..|b| - 1];
      MasterAfterConcat(m, a, b[..|b| - 1]);
    }
  }

  /** Once an iteration has failed, the ticks after it change nothing. */
  lemma {:induction false} RunStopsAtFailure(f: Filters, s: Loop, a: seq<Tick>, b: seq<Tick>)
    requires RunTicks(f, s, a).err.Some?
    ensures RunTicks(f, s, a + b) == RunTicks(f, s, a)
    decreases |b|
  {
    if b == [] {
      assert a + b == a;
    } else {
      assert (a + b)[..|a + b| - 1] == a + b[..|b| - 1];
      RunStopsAtFailure(f, s, a, b[..|b| - 1]);
    }
  }

  /** One more iteration of a run that has not failed. */
  lemma RunTicksNext(f: Filters, s: Loop, ticks: seq<Tick>, i: nat)
    requires i < |ticks| && RunTicks(f, s, ticks[..i]).err.None?
    ensures var r := RunTicks(f, s, ticks[..i]);
      var st := StepOf(f, r.state, ticks[i]);
      RunTicks(f, s, ticks[..i + 1]) ==
        Run(st.next, r.effects + st.effects, if st.outcome.Fail? then Some(st.outcome.err) else None)
  {
    assert ticks[..i + 1][..i] == ticks[..i];
  }

  /** The step function's result on t, split into the locals for the next
      pass, the calls made and the error returned. */
  predicate StepTaken(f: Filters, s: Loop, t: Tick, next: Loop, effects: seq<Effect>, err: Option<Error>) {
    var st := StepOf(f, s, t);
    next == st.next && effects == st.effects &&
    err == (if st.outcome.Fail? then Some(st.outcome.err) else None)
  }

  lemma RunTicksAdvance(f: Filters, s0: Loop, ticks: seq<Tick>, i: nat, s: Loop, done: seq<Effect>,
                        next: Loop, effects: seq<Effect>, err: Option<Error>)
    requires i < |ticks| && RunTicks(f, s0, ticks[..i]) == Run(s, done, None)
    requires StepTaken(f, s, ticks[i], next, effects, err)
    ensures RunTicks(f, s0, ticks[..i + 1]) == Run(next, done + effects, err)
  {
    RunTicksNext(f, s0, ticks, i);
  }

  /** The calls and the master's position after one more pass. */
  lemma CallsAdvance(calls0: seq<Effect>, m0: Position, done: seq<Effect>, calls1: seq<Effect>, master1: Position,
                     effects: seq<Effect>, calls2: seq<Effect>, master2: Position)
    requires calls1 == calls0 + done && master1 == MasterAfter(m0, done)
    requires calls2 == calls1 + effects && master2 == MasterAfter(master1, effects)
    ensures calls2 == calls0 + (done + effects) && master2 == MasterAfter(m0, done + effects)
  {
    MasterAfterConcat(m0, done, effects);
  }

  lemma FailedPrefixIsFinal(f: Filters, s: Loop, ticks: seq<Tick>, i: nat)
    requires i <= |ticks| && RunTicks(f, s, ticks[..i]).err.Some?
    ensures RunTicks(f, s, ticks) == RunTicks(f, s, ticks[..i])
  {
    RunStopsAtFailure(f, s, ticks[..i], ticks[i..]);
    assert ticks[..i] + ticks[i..] == ticks;
  }

  /** The part of a Canal the loop changes. */
  class Canal {
    const filters: Filters
    /** The position c.master holds, as set by c.master.Update. */
    var master: Position
    /** Every call the loop has made to a collaborator, in order. */
    var calls: seq<Effect>

    constructor(filters: Filters, master: Position)
      ensures this.filters == filters && this.master == master && calls == []
    {
      this.filters := filters;
      this.master := master;
      calls := [];
    }

    /** c.master.Update(name, pos, ...). */
    method Update(pos: Position)
      modifies this
      ensures master == pos && calls == old(calls) + [MasterUpdate(pos)]
    {
      master := pos;
      calls := calls + [MasterUpdate(pos)];
    }

    /** c.master.Save(force); how Save stores the position is not modelled. */
    method Save(force: bool)
      modifies this
      ensures master == old(master) && calls == old(calls) + [MasterSave(force)]
    {
      calls := calls + [MasterSave(force)];
    }

    /** The Update of pos and the Save that end a recorded event. */
    method Record(pos: Position, force: bool)
      modifies this
      ensures master == pos && calls == old(calls) + Persist(pos, force)
    {
      Update(pos);
      Save(force);
    }

    /** c.ClearTableCache(schema, table). */
    method ClearTableCache(schema: string, table: string)
      modifies this
      ensures master == old(master) && calls == old(calls) + [Effect.ClearTableCache(schema, table)]
    {
      calls := calls + [Effect.ClearTableCache(schema, table)];
    }

    /** The calls a handler made (GetTable and a handler chain). */
    method Perform(h: Handled)
      requires NoPersist(h.effects)
      modifies this
      ensures master == old(master) && calls == old(calls) + h.effects
    {
      calls := calls + h.effects;
    }

    /** One pass of the loop's body on the fetch result t: returns the locals
        for the next pass and, when the loop must stop, the error. */
    method Iteration(pos: Position, timeout: int64, t: Tick)
      returns (pos': Position, timeout': int64, err: Option<Error>, ghost effects: seq<Effect>)
      modifies this
      ensures StepTaken(filters, Loop(pos, timeout), t, Loop(pos', timeout'), effects, err)
      ensures calls == old(calls) + effects && master == MasterAfter(old(master), effects)
    {
      if t.fetch.DeadlineExceeded? {
        return pos, Double(timeout), None, [];
      }
      if t.fetch.FetchError? {
        return pos, timeout, Some(FetchFailed(t.fetch.reason)), [];
      }
      var ev := t.fetch;
      pos', err, effects := Event(pos.(pos := ev.header.logPos), ev.header.eventType, ev.body, t.replies);
      timeout' := Second;
    }

    /** The switch on the event's payload, with pos already holding the
        header's offset. Each early return here is a `continue` or a `return`
        of the source loop. */
    method Event(pos: Position, eventType: byte, body: Body, replies: Replies)
      returns (pos': Position, err: Option<Error>, ghost effects: seq<Effect>)
      modifies this
      ensures var st := EventStep(filters, pos, eventType, body, replies);
        st.next == Loop(pos', Second) && effects == st.effects &&
        err == (if st.outcome.Fail? then Some(st.outcome.err) else None)
      ensures calls == old(calls) + effects && master == MasterAfter(old(master), effects)
    {
      pos', err, effects := pos, None, [];
      ghost var m0 := master;
      match body {
        case RotateEvent(name, p) =>
          pos' := Position(name, Truncate32(p));
          var forceSavePos := true;
          Record(pos', forceSavePos);
          effects := Persist(pos', true);
          MasterAfterPersist(m0, [], pos', true);
          assert effects == [] + effects;
        case RowsEvent(schema, table, rows) =>
          err, effects := Rows(pos, eventType, schema, table, rows, replies);
        case XidEvent =>
          var forceSavePos := false;
          Record(pos', forceSavePos);
          effects := Persist(pos', false);
          MasterAfterPersist(m0, [], pos', false);
          assert effects == [] + effects;
        case QueryEvent(schema, query) =>
          var mb := DetectAlterTable(query);
          if mb.Some? {
            err, effects := Alter(pos, AlterSchema(schema, mb.value), mb.value.table, query, replies);
          }
        case OtherEvent =>
      }
    }

    /** The rows event branch: handleRowsEvent, then the Update and
        (unforced) Save at the end of the loop body. */
    method Rows(pos: Position, eventType: byte, schema: string, table: string, rows: seq<Row>, replies: Replies)
      returns (err: Option<Error>, ghost effects: seq<Effect>)
      modifies this
      ensures var st := RowsStep(pos, eventType, schema, table, rows, replies);
        effects == st.effects && err == (if st.outcome.Fail? then Some(st.outcome.err) else None)
      ensures calls == old(calls) + effects && master == MasterAfter(old(master), effects)
    {
      ghost var m0 := master;
      var h := HandleRowsEvent(eventType, schema, table, rows, replies);
      Perform(h);
      effects := h.effects;
      MasterAfterNoPersist(m0, h.effects);
      if h.err.Some? {
        return h.err, effects;
      }
      var forceSavePos := false;
      Record(pos, forceSavePos);
      effects := h.effects + Persist(pos, false);
      MasterAfterPersist(m0, h.effects, pos, false);
      err := None;
    }

    /** The ALTER TABLE branch of the loop for a recognised statement on
        db.table, down to the Update and Save that end the iteration. */
    method Alter(pos: Position, db: string, table: string, query: string, replies: Replies)
      returns (err: Option<Error>, ghost effects: seq<Effect>)
      modifies this
      ensures var st := AlterStep(filters, pos, db, table, query, replies);
        effects == st.effects && err == (if st.outcome.Fail? then Some(st.outcome.err) else None)
      ensures calls == old(calls) + effects && master == MasterAfter(old(master), effects)
    {
      ghost var m0 := master;
      var forceSavePos := false;
      ClearTableCache(db, table);
      var clear := [Effect.ClearTableCache(db, table)];
      assert NoPersist(clear);
      effects := clear + Persist(pos, false);
      if InFilterTabs(filters, table) {
        Record(pos, forceSavePos);
        MasterAfterPersist(m0, clear, pos, false);
        return None, effects;
      }
      if table in filters.cfgTc {
        Record(pos, forceSavePos);
        MasterAfterPersist(m0, clear, pos, false);
        return None, effects;
      }
      var h := HandleQueryEvent(db, table, query, replies);
      Perform(h);
      effects := clear + h.effects;
      NoPersistConcat(clear, h.effects);
      MasterAfterNoPersist(m0, effects);
      if h.err.Some? {
        return h.err, effects;
      }
      forceSavePos := true;
      Record(pos, forceSavePos);
      MasterAfterPersist(m0, effects, pos, true);
      effects := effects + Persist(pos, true);
      err := None;
    }

    /** startSyncBinlog over the fetch results ticks: returns the error that
        ended the loop, or None once the ticks are used up (the source loop
        never returns otherwise). */
    method StartSyncBinlog(start: Option<string>, ticks: seq<Tick>) returns (err: Option<Error>)
      modifies this
      ensures var r := SyncBinlog(filters, old(master), start, ticks);
        err == r.err && calls == old(calls) + r.effects && master == MasterAfter(old(master), r.effects)
    {
      var pos := master;
      if start.Some? {
        assert calls == old(calls) + [] && MasterAfter(pos, []) == pos;
        return Some(StartSyncFailed(pos, start.value));
      }
      err := Consume(pos, ticks);
    }

    /** Iteration on ticks[i], carrying the run of the first i ticks along. */
    method Pass(ghost s0: Loop, ticks: seq<Tick>, i: nat, pos: Position, timeout: int64,
                ghost done: seq<Effect>, ghost calls0: seq<Effect>, ghost m0: Position)
      returns (pos': Position, timeout': int64, err: Option<Error>, ghost done': seq<Effect>)
      modifies this
      requires i < |ticks| && RunTicks(filters, s0, ticks[..i]) == Run(Loop(pos, timeout), done, None)
      requires calls == calls0 + done && master == MasterAfter(m0, done)
      ensures RunTicks(filters, s0, ticks[..i + 1]) == Run(Loop(pos', timeout'), done', err)
      ensures calls == calls0 + done' && master == MasterAfter(m0, done')
    {
      ghost var effects: seq<Effect>;
      ghost var calls1, master1 := calls, master;
      pos', timeout', err, effects := Iteration(pos, timeout, ticks[i]);
      RunTicksAdvance(filters, s0, ticks, i, Loop(pos, timeout), done, Loop(pos', timeout'), effects, err);
      CallsAdvance(calls0, m0, done, calls1, master1, effects, calls, master);
      done' := done + effects;
    }

    /** The `for` loop of startSyncBinlog, from pos with a one-second backoff. */
    method Consume(pos0: Position, ticks: seq<Tick>) returns (err: Option<Error>)
      modifies this
      ensures var r := RunTicks(filters, Loop(pos0, Second), ticks);
        err == r.err && calls == old(calls) + r.effects && master == MasterAfter(old(master), r.effects)
    {
      ghost var m0, calls0 := master, calls;
      ghost var s0 := Loop(pos0, Second);
      var pos, timeout := pos0, Second;
      err := None;
      ghost var done: seq<Effect> := [];
      assert calls == calls0 + done && MasterAfter(m0, done) == m0;
      var i := 0;
      while i < |ticks|
        invariant 0 <= i <= |ticks|
        invariant RunTicks(filters, s0, ticks[..i]) == Run(Loop(pos, timeout), done, None)
        invariant calls == calls0 + done && master == MasterAfter(m0, done) && err == None
      {
        pos, timeout, err, done := Pass(s0, ticks, i, pos, timeout, done, calls0, m0);
        i := i + 1;
        if err.Some? {
          FailedPrefixIsFinal(filters, s0, ticks, i);
          return;
        }
      }
      assert ticks[..|ticks|] == ticks;
    }
  }

  lemma {:induction false} MasterAfterNoPersist(m: Position, a: seq<Effect>)
    requires NoPersist(a)
    ensures MasterAfter(m, a) == m
    decreases |a|
  {
    if a != [] {
      MasterAfterNoPersist(m, a[..|a| - 1]);
    }
  }

  lemma MasterAfterPersist(m: Position, a: seq<Effect>, pos: Position, force: bool)
    requires NoPersist(a)
    ensures MasterAfter(m, a + Persist(pos, force)) == pos
  {
    var e := a + Persist(pos, force);
    assert e[..|e| - 1][|e| - 2] == MasterUpdate(pos);
  }

  /** A call list that ends with Update(pos) and a Save leaves the master at pos. */
  lemma MasterAfterEnds(m: Position, e: seq<Effect>, pos: Position, force: bool)
    requires EndsWithPersist(e, pos, force)
    ensures MasterAfter(m, e) == pos
  {
    var prefix := e[..|e| - 2];
    assert e == prefix + Persist(pos, force) by {
      assert e == prefix + e[|e| - 2..];
    }
    MasterAfterPersist(m, prefix, pos, force);
  }
}
