/** The events that relay tasks send to a capture collector, and what a collector keeps of them.
    Instants are microsecond counts on one monotonic clock. */
module CaptureEvents {
  import opened Wrappers

  type Cell = Option<string>

  datatype Event =
    | SessionStart(sid: nat, user: string, database: string, at: nat)
    | QueryStart(sid: nat, sql: string, at: nat)
    | QueryComplete(sid: nat, at: nat)
    | QueryError(sid: nat, message: string, at: nat)
    | QueryReturning(sid: nat, columns: seq<string>, rows: seq<seq<Cell>>)
    | SessionEnd(sid: nat)

  // One returned row: column names paired with rendered values.
  type ResponseRow = seq<(string, string)>

  datatype CapturedQuery = CapturedQuery(
    sql: string, startOffsetUs: nat, durationUs: nat, error: Option<string>, response: Option<seq<ResponseRow>>)

  predicate IsCompletion(e: Event) {
    e.QueryComplete? || e.QueryError?
  }

  // Events that open or close a query of their session.
  predicate IsQueryEvent(e: Event) {
    e.QueryStart? || IsCompletion(e)
  }

  // Durations never go below zero (Instant arithmetic saturates).
  function Since(later: nat, earlier: nat): nat {
    if later >= earlier then later - earlier else 0
  }

  function Min(a: nat, b: nat): nat {
    if a <= b then a else b
  }

  // Pairs each column with its value; a NULL becomes the text "NULL".
  function RenderRow(columns: seq<string>, row: seq<Cell>): ResponseRow {
    seq(Min(|columns|, |row|), i requires 0 <= i < Min(|columns|, |row|) =>
      (columns[i], if row[i].Some? then row[i].value else "NULL"))
  }

  function RenderRows(columns: seq<string>, rows: seq<seq<Cell>>): seq<ResponseRow> {
    seq(|rows|, i requires 0 <= i < |rows| => RenderRow(columns, rows[i]))
  }

  // The table of a RETURNING answer: per row, each column's name with the value's text, NULL for no value.
  ghost predicate Tabulates(response: seq<ResponseRow>, columns: seq<string>, rows: seq<seq<Cell>>) {
    && |response| == |rows|
    && forall a {:trigger response[a]} {:trigger rows[a]} :: 0 <= a < |rows| ==>
         && |response[a]| == (if |columns| < |rows[a]| then |columns| else |rows[a]|)
         && forall i {:trigger response[a][i]} {:trigger rows[a][i]} :: 0 <= i < |columns| && i < |rows[a]| ==>
              response[a][i] == (columns[i], match rows[a][i] case Some(value) => value case None => "NULL")
  }

  lemma RenderedTable(columns: seq<string>, rows: seq<seq<Cell>>)
    ensures Tabulates(RenderRows(columns, rows), columns, rows)
  {
  }

  // The query recorded when `done` closes the query opened by (sql, start).
  function Record(sessionStart: nat, sql: string, start: nat, done: Event): CapturedQuery
    requires IsCompletion(done)
  {
    CapturedQuery(sql, Since(start, sessionStart), Since(done.at, start),
                  if done.QueryError? then Some(done.message) else None, None)
  }
}
