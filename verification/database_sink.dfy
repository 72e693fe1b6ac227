/** pages/api/v1/lineage/database-version.js: events are rows of the
    `openlineage_events` table. The next counter is one more than the
    largest stored counter, obtained by inserting a placeholder row with
    event id `temp` and deleting it again; any failure there falls back to
    the clock reading. The table is a sequence of rows (id SERIAL and
    created_at are left out); whether each statement gets an answer from
    the database, the clock and the random token are inputs.

    The schema declares `counter INTEGER` (32 bits), which cannot hold a
    millisecond clock reading, so a request whose counter fell back to the
    clock can never be stored. `HandleAsWritten` keeps that column type,
    `Handle` widens it to BIGINT; both are instances of `HandleWith`. */
module DatabaseSink {
  import opened Wrappers
  import opened Decimal
  import opened Naming
  import opened Sequences

  /** Largest value of a Postgres INTEGER column, as the schema declares `counter`. */
  const IntegerMax: nat := 2147483647
  /** Largest value of a Postgres BIGINT column. */
  const BigIntMax: nat := 9223372036854775807
  const TempEventId := "temp"
  const EmptyPayload := "{}"
  /** VARCHAR(255): event_id, job_namespace, job_name, run_id. */
  const VarcharMax: nat := 255
  /** VARCHAR(50): event_type. */
  const EventTypeMax: nat := 50

  const MethodNotAllowedText := "Method not allowed"
  const SaveFailedText := "Failed to save event"

  /** A row; `None` is SQL NULL. Counters are never negative: only this
      handler writes the table. */
  datatype Row = Row(
    eventId: string,
    counter: nat,
    eventType: Option<string>,
    eventTime: Option<string>,
    jobNamespace: Option<string>,
    jobName: Option<string>,
    runId: Option<string>,
    payload: string)

  type Table = seq<Row>

  /** `COALESCE(MAX(counter), 0)`. */
  function MaxCounter(t: Table): (m: nat)
    ensures forall i :: 0 <= i < |t| ==> t[i].counter <= m
    ensures |t| == 0 ==> m == 0
    ensures |t| > 0 ==> exists i :: 0 <= i < |t| && t[i].counter == m
  {
    if |t| == 0 then 0
    else
      var m := MaxCounter(t[..|t| - 1]);
      if t[|t| - 1].counter > m then t[|t| - 1].counter else m
  }

  predicate FitsLength(o: Option<string>, n: nat) {
    o.None? || |o.value| <= n
  }

  /** The row's values fit their column types. */
  predicate FitsColumns(r: Row, counterMax: nat) {
    && |r.eventId| <= VarcharMax
    && r.counter <= counterMax
    && FitsLength(r.eventType, EventTypeMax)
    && FitsLength(r.jobNamespace, VarcharMax)
    && FitsLength(r.jobName, VarcharMax)
    && FitsLength(r.runId, VarcharMax)
  }

  /** No row holds event id `id` (event_id is UNIQUE). */
  predicate IdFree(t: Table, id: string) {
    forall i :: 0 <= i < |t| ==> t[i].eventId != id
  }

  /** An INSERT succeeds when the database answers, the row fits the
      columns and its event id is not taken; it then appends the row. */
  predicate InsertSucceeds(t: Table, r: Row, counterMax: nat, answers: bool) {
    answers && FitsColumns(r, counterMax) && IdFree(t, r.eventId)
  }

  /** Whether each statement gets an answer from the database. */
  datatype Backend = Backend(tempInsertAnswers: bool, tempDeleteAnswers: bool, insertAnswers: bool)

  predicate AllAnswer(b: Backend) {
    b.tempInsertAnswers && b.tempDeleteAnswers && b.insertAnswers
  }

  /** The placeholder row `getNextCounter` inserts. */
  function TempRow(t: Table): Row {
    Row(TempEventId, MaxCounter(t) + 1, None, None, None, None, None, EmptyPayload)
  }

  datatype Counted = Counted(table: Table, counter: nat)

  /** `getNextCounter`. When the placeholder insert and its delete both
      succeed, the counter is one more than the largest stored counter
      (so above every one of them) and the table is as before. When the
      insert fails the clock reading is returned. When only the delete
      fails, the clock reading is returned and the placeholder row stays
      behind. */
  function NextCounter(t: Table, b: Backend, now: nat, counterMax: nat): (c: Counted)
    ensures !InsertSucceeds(t, TempRow(t), counterMax, b.tempInsertAnswers) ==> c == Counted(t, now)
    ensures InsertSucceeds(t, TempRow(t), counterMax, b.tempInsertAnswers) && !b.tempDeleteAnswers ==>
              c == Counted(t + [TempRow(t)], now)
    ensures InsertSucceeds(t, TempRow(t), counterMax, b.tempInsertAnswers) && b.tempDeleteAnswers ==>
              && c.table == t
              && c.counter == MaxCounter(t) + 1
  {
    var temp := TempRow(t);
    if !InsertSucceeds(t, temp, counterMax, b.tempInsertAnswers) then Counted(t, now)
    else if !b.tempDeleteAnswers then Counted(t + [temp], now)
    else Counted(t, temp.counter)
  }

  datatype Job = Job(namespace: Option<string>, name: Option<string>)
  datatype RunFacet = RunFacet(runId: Option<string>)

  /** The fields of an event the handler looks at, and its serialised
      JSON. `None` is an absent field. */
  datatype Event = Event(
    eventType: Option<string>,
    eventTime: Option<string>,
    job: Option<Job>,
    run: Option<RunFacet>,
    json: string)

  /** A string field that JavaScript treats as true: present and not empty. */
  predicate Present(field: Option<string>) {
    field.Some? && field.value != ""
  }

  /** `field || fallback` for a string field: absent or empty takes the fallback. */
  function OrElse(field: Option<string>, fallback: string): (s: string)
    ensures field.None? || field.value == "" ==> s == fallback
    ensures field.Some? && field.value != "" ==> s == field.value
  {
    if Present(field) then field.value else fallback
  }

  /** `payload.job?.namespace`, `payload.job?.name` and
      `payload.run?.runId`: absent when the enclosing object is. */
  function JobNamespace(e: Event): Option<string> {
    if e.job.Some? then e.job.value.namespace else None
  }

  function JobName(e: Event): Option<string> {
    if e.job.Some? then e.job.value.name else None
  }

  function RunId(e: Event): Option<string> {
    if e.run.Some? then e.run.value.runId else None
  }

  datatype Request = Request(
    verb: string,
    event: Event,
    bodyIsNull: bool,    // the JSON body is `null`: reading a field of it throws
    stamp: nat,          // Date.now() for the event id
    token: string,       // the random part of the event id
    nowIso: string,      // new Date().toISOString()
    fallbackNow: nat,    // Date.now() inside the counter fallback
    backend: Backend)

  /** The row the handler inserts for an event. */
  function EventRow(req: Request, counter: nat): (r: Row)
    ensures r.eventId == EventId(req.stamp, req.token) && r.counter == counter
    ensures r.payload == req.event.json
    ensures req.event.job.None? ==> r.jobNamespace == Some("default") && r.jobName == Some("unknown")
    ensures req.event.run.None? ==> r.runId == Some("unknown")
    ensures !Present(req.event.eventType) ==> r.eventType == Some("UNKNOWN")
    ensures Present(req.event.eventType) ==> r.eventType == req.event.eventType
    ensures !Present(req.event.eventTime) ==> r.eventTime == Some(req.nowIso)
    ensures Present(req.event.eventTime) ==> r.eventTime == req.event.eventTime
    ensures !Present(JobNamespace(req.event)) ==> r.jobNamespace == Some("default")
    ensures Present(JobNamespace(req.event)) ==> r.jobNamespace == JobNamespace(req.event)
    ensures !Present(JobName(req.event)) ==> r.jobName == Some("unknown")
    ensures Present(JobName(req.event)) ==> r.jobName == JobName(req.event)
    ensures !Present(RunId(req.event)) ==> r.runId == Some("unknown")
    ensures Present(RunId(req.event)) ==> r.runId == RunId(req.event)
  {
    var e := req.event;
    Row(EventId(req.stamp, req.token), counter,
        Some(OrElse(e.eventType, "UNKNOWN")),
        Some(OrElse(e.eventTime, req.nowIso)),
        Some(OrElse(JobNamespace(e), "default")),
        Some(OrElse(JobName(e), "unknown")),
        Some(OrElse(RunId(e), "unknown")),
        e.json)
  }

  /** Whatever the event leaves out, the inserted row has every text column
      filled: the defaults are non-empty, and so is the ISO clock reading. */
  lemma EventRowComplete(req: Request, counter: nat)
    requires req.nowIso != ""
    ensures var r := EventRow(req, counter);
            && Present(r.eventType) && Present(r.eventTime)
            && Present(r.jobNamespace) && Present(r.jobName) && Present(r.runId)
  {
  }

  datatype Body =
    | Saved(eventId: string, counter: nat, filename: string)
    | Error(message: string)

  datatype Response = Response(status: nat, body: Body)

  datatype Handled = Handled(table: Table, response: Response)

  /** `handler`, for a counter column whose largest value is `counterMax`.
      A non-POST request is refused before anything is touched. Otherwise
      a counter is taken and the event row inserted with it; success
      answers 200 with the event id, that counter and the lineage file name
      built from them, and appends exactly that row. A `null` body throws
      when its fields are read, after the counter was taken, and answers
      500 like a failed insert. */
  function HandleWith(counterMax: nat, t: Table, req: Request): (h: Handled)
    ensures req.verb != "POST" ==> h == Handled(t, Response(405, Error(MethodNotAllowedText)))
    ensures t <= h.table
    ensures h.response.status == 200 <==> h.response.body.Saved?
    ensures h.response.status == 200 ==>
              var c := h.response.body.counter;
              && req.verb == "POST"
              && h.response.body.eventId == EventId(req.stamp, req.token)
              && h.response.body.filename == LineageFileName(c, EventId(req.stamp, req.token))
              && h.table == NextCounter(t, req.backend, req.fallbackNow, counterMax).table + [EventRow(req, c)]
    ensures req.verb == "POST" ==>
              var c := NextCounter(t, req.backend, req.fallbackNow, counterMax);
              && (h.response.status == 200 <==>
                    !req.bodyIsNull && InsertSucceeds(c.table, EventRow(req, c.counter), counterMax, req.backend.insertAnswers))
              && (h.response.status == 200 ==> h.response.body.counter == c.counter)
    ensures req.verb == "POST" && h.response.status != 200 ==>
              && h.response == Response(500, Error(SaveFailedText))
              && h.table == NextCounter(t, req.backend, req.fallbackNow, counterMax).table
  {
    if req.verb != "POST" then Handled(t, Response(405, Error(MethodNotAllowedText)))
    else
      var c := NextCounter(t, req.backend, req.fallbackNow, counterMax);
      var id := EventId(req.stamp, req.token);
      var row := EventRow(req, c.counter);
      if req.bodyIsNull then Handled(c.table, Response(500, Error(SaveFailedText)))
      else if InsertSucceeds(c.table, row, counterMax, req.backend.insertAnswers) then
        Handled(c.table + [row], Response(200, Saved(id, c.counter, LineageFileName(c.counter, id))))
      else
        Handled(c.table, Response(500, Error(SaveFailedText)))
  }

  /** The handler as written: `counter INTEGER`. */
  function HandleAsWritten(t: Table, req: Request): Handled {
    HandleWith(IntegerMax, t, req)
  }

  /** The handler with the counter column widened to BIGINT. */
  function Handle(t: Table, req: Request): Handled {
    HandleWith(BigIntMax, t, req)
  }

  // ---------------------------------------------------------------------
  // The timestamp fallback and the counter column

  /** As written, a request whose counter fell back to the clock is never
      stored once the clock is past 2147483647 ms (January 1970): e.g. a
      fallback at 1700000000000 answers 500. */
  lemma FallbackNeverStored(t: Table, req: Request)
    requires req.verb == "POST" && !req.backend.tempInsertAnswers
    requires req.fallbackNow > IntegerMax
    ensures HandleAsWritten(t, req) == Handled(t, Response(500, Error(SaveFailedText)))
  {
    var c := NextCounter(t, req.backend, req.fallbackNow, IntegerMax);
    assert c == Counted(t, req.fallbackNow);
    assert !FitsColumns(EventRow(req, c.counter), IntegerMax);
  }

  /** With a BIGINT column the fallback does what it is for: the event is
      stored under the clock reading. */
  lemma FallbackStored(t: Table, req: Request)
    requires req.verb == "POST" && !req.bodyIsNull
    requires !req.backend.tempInsertAnswers && req.backend.insertAnswers
    requires req.fallbackNow <= BigIntMax
    requires FitsColumns(EventRow(req, req.fallbackNow), BigIntMax)
    requires IdFree(t, EventId(req.stamp, req.token))
    ensures var h := Handle(t, req);
            && h.response.status == 200
            && h.response.body.counter == req.fallbackNow
            && h.table == t + [EventRow(req, req.fallbackNow)]
  {
  }

  // ---------------------------------------------------------------------
  // A placeholder row left behind

  /** While a `temp` row is stored, every placeholder insert violates the
      UNIQUE event id, so the counter always falls back to the clock. */
  lemma TempRowForcesFallback(t: Table, b: Backend, now: nat, counterMax: nat)
    requires !IdFree(t, TempEventId)
    ensures NextCounter(t, b, now, counterMax) == Counted(t, now)
  {
  }

  /** A `temp` row, once left behind, is never removed by the handler. */
  lemma TempRowPersists(counterMax: nat, t: Table, req: Request)
    requires !IdFree(t, TempEventId)
    ensures !IdFree(HandleWith(counterMax, t, req).table, TempEventId)
  {
    var h := HandleWith(counterMax, t, req);
    var i :| 0 <= i < |t| && t[i].eventId == TempEventId;
    assert h.table[i] == t[i];
  }

  /** As written, one failed placeholder delete leaves the handler unable
      to store anything while the clock is past 2147483647 ms. */
  lemma StuckAfterFailedDelete(t: Table, req: Request)
    requires !IdFree(t, TempEventId)
    requires req.verb == "POST" && req.fallbackNow > IntegerMax
    ensures HandleAsWritten(t, req) == Handled(t, Response(500, Error(SaveFailedText)))
  {
    TempRowForcesFallback(t, req.backend, req.fallbackNow, IntegerMax);
    assert !FitsColumns(EventRow(req, req.fallbackNow), IntegerMax);
  }

  // ---------------------------------------------------------------------
  // Serialised requests

  datatype Trace = Trace(table: Table, responses: seq<Response>)

  function HandleAll(counterMax: nat, t: Table, reqs: seq<Request>): (tr: Trace)
    ensures |tr.responses| == |reqs|
    decreases |reqs|
  {
    if |reqs| == 0 then Trace(t, [])
    else
      var h := HandleWith(counterMax, t, reqs[0]);
      var rest := HandleAll(counterMax, h.table, reqs[1..]);
      Trace(rest.table, [h.response] + rest.responses)
  }

  /** The counters of the saved responses, in order. */
  function SavedCounters(rs: seq<Response>): seq<nat> {
    if |rs| == 0 then []
    else (if rs[0].body.Saved? then [rs[0].body.counter] else []) + SavedCounters(rs[1..])
  }

  /** The largest counter after appending a row above every stored one. */
  lemma MaxCounterAppend(t: Table, r: Row)
    requires r.counter == MaxCounter(t) + 1
    ensures MaxCounter(t + [r]) == r.counter
  {
    assert (t + [r])[..|t + [r]| - 1] == t;
  }

  /** One request with every statement answered and room in the column:
      it is saved exactly when its body is not `null`, its row fits the
      columns and its event id is new; then it gets counter MaxCounter + 1
      and the maximum moves to it, and otherwise the table is unchanged.
      No placeholder row is left. */
  lemma StepWithDatabaseUp(counterMax: nat, t: Table, req: Request)
    requires req.verb == "POST" && AllAnswer(req.backend)
    requires IdFree(t, TempEventId)
    requires MaxCounter(t) + 1 <= counterMax
    ensures var h := HandleWith(counterMax, t, req);
            && (h.response.body.Saved? <==>
                  && !req.bodyIsNull
                  && FitsColumns(EventRow(req, MaxCounter(t) + 1), counterMax)
                  && IdFree(t, EventId(req.stamp, req.token)))
            && IdFree(h.table, TempEventId)
            && (h.response.body.Saved? ==>
                  h.response.body.counter == MaxCounter(t) + 1 && MaxCounter(h.table) == MaxCounter(t) + 1)
            && (!h.response.body.Saved? ==> h.table == t)
  {
    var h := HandleWith(counterMax, t, req);
    var c := NextCounter(t, req.backend, req.fallbackNow, counterMax);
    assert InsertSucceeds(t, TempRow(t), counterMax, true);
    assert c == Counted(t, MaxCounter(t) + 1);
    EventIdIsNotTemp(req.stamp, req.token);
    if h.response.body.Saved? {
      MaxCounterAppend(t, EventRow(req, c.counter));
    }
  }

  /** Unfolding a run by its first request. */
  lemma HandleAllFirst(counterMax: nat, t: Table, reqs: seq<Request>)
    requires |reqs| > 0
    ensures var h := HandleWith(counterMax, t, reqs[0]);
            var tr := HandleAll(counterMax, t, reqs);
            var rest := HandleAll(counterMax, h.table, reqs[1..]);
            && tr.table == rest.table
            && (h.response.body.Saved? ==>
                  SavedCounters(tr.responses) == [h.response.body.counter] + SavedCounters(rest.responses))
            && (!h.response.body.Saved? ==>
                  SavedCounters(tr.responses) == SavedCounters(rest.responses))
  {
    var h := HandleWith(counterMax, t, reqs[0]);
    var tr := HandleAll(counterMax, t, reqs);
    var rest := HandleAll(counterMax, h.table, reqs[1..]);
    assert tr.responses == [h.response] + rest.responses;
    assert tr.responses[1..] == rest.responses;
  }

  /** With the database answering every statement, the saved requests of a
      run get exactly MaxCounter + 1, MaxCounter + 2, ... in order: a failed
      insert consumes no counter, so this sink leaves no sequence gap. */
  lemma {:induction false} SuccessiveSaves(counterMax: nat, t: Table, reqs: seq<Request>)
    requires forall i :: 0 <= i < |reqs| ==> reqs[i].verb == "POST" && AllAnswer(reqs[i].backend)
    requires IdFree(t, TempEventId)
    requires MaxCounter(t) + |reqs| <= counterMax
    ensures var tr := HandleAll(counterMax, t, reqs);
            && Consecutive(SavedCounters(tr.responses), MaxCounter(t) + 1)
            && MaxCounter(tr.table) == MaxCounter(t) + |SavedCounters(tr.responses)|
    decreases |reqs|
  {
    if |reqs| > 0 {
      var h := HandleWith(counterMax, t, reqs[0]);
      StepWithDatabaseUp(counterMax, t, reqs[0]);
      SuccessiveSaves(counterMax, h.table, reqs[1..]);
      HandleAllFirst(counterMax, t, reqs);
      var rest := HandleAll(counterMax, h.table, reqs[1..]);
      if h.response.body.Saved? {
        ConsecutiveCons(h.response.body.counter, SavedCounters(rest.responses));
      }
    }
  }

  lemma ConsecutiveCons(c: nat, later: seq<nat>)
    requires Consecutive(later, c + 1)
    ensures Consecutive([c] + later, c)
  {
  }
}
