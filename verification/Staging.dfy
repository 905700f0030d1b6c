/** The batching collector that writes captured queries to the staging table
    (src/proxy/capture.rs, run_staging_collector), and its refinement of the in-memory collector. */
module Staging {
  import opened Wrappers
  import opened CaptureEvents
  import Collector

  const BATCH_SIZE: nat := 100

  datatype StagingRow = StagingRow(captureId: string, sid: nat, user: string, database: string, query: CapturedQuery)

  // What the receive loop sees: an event, or the expiry of the 500 ms flush interval.
  datatype Tick = Recv(event: Event) | Timeout

  /** The staging table: rows in insertion order. Inserts are taken to succeed. */
  class StagingDb {
    var rows: seq<StagingRow>

    constructor ()
      ensures rows == []
    {
      rows := [];
    }

    method InsertBatch(batch: seq<StagingRow>)
      modifies this
      ensures rows == old(rows) + batch
    {
      rows := rows + batch;
    }
  }

  datatype State = State(
    meta: map<nat, (string, string, nat)>, pending: map<nat, (string, nat)>,
    batch: seq<StagingRow>, flushed: seq<StagingRow>)

  const INITIAL: State := State(map[], map[], [], [])

  // Sets the response of the most recent row of `sid`, if the batch has one.
  function AttachLast(batch: seq<StagingRow>, sid: nat, response: seq<ResponseRow>): (r: seq<StagingRow>)
    ensures |r| == |batch|
  {
    if batch == [] then []
    else
      var n := |batch| - 1;
      if batch[n].sid == sid then batch[..n] + [batch[n].(query := batch[n].query.(response := Some(response)))]
      else AttachLast(batch[..n], sid, response) + [batch[n]]
  }

  function Handle(captureId: string, st: State, e: Event): State {
    match e
    case SessionStart(sid, user, database, at) =>
      st.(meta := st.meta[sid := (user, database, at)])
    case QueryStart(sid, sql, at) =>
      st.(meta := if sid in st.meta then st.meta else st.meta[sid := ("unknown", "unknown", at)],
          pending := st.pending[sid := (sql, at)])
    case QueryComplete(sid, _) => Close(captureId, st, e)
    case QueryError(sid, _, _) => Close(captureId, st, e)
    case QueryReturning(sid, columns, rows) =>
      st.(batch := AttachLast(st.batch, sid, RenderRows(columns, rows)))
    case SessionEnd(_) => st
  }

  function Close(captureId: string, st: State, e: Event): State
    requires IsCompletion(e)
  {
    if e.sid !in st.pending then st
    else
      var (sql, start) := st.pending[e.sid];
      var st' := st.(pending := st.pending - {e.sid});
      if e.sid !in st.meta then st'
      else
        var (user, database, sessionStart) := st.meta[e.sid];
        st'.(batch := st.batch + [StagingRow(captureId, e.sid, user, database, Record(sessionStart, sql, start, e))])
  }

  function Flush(st: State): State {
    st.(batch := [], flushed := st.flushed + st.batch)
  }

  // Does this tick end by writing the batch out?
  predicate Flushes(captureId: string, st: State, t: Tick) {
    t.Timeout? || |Handle(captureId, st, t.event).batch| >= BATCH_SIZE
  }

  function Step(captureId: string, st: State, t: Tick): State {
    var handled := if t.Recv? then Handle(captureId, st, t.event) else st;
    if Flushes(captureId, st, t) then Flush(handled) else handled
  }

  function Run(captureId: string, rx: seq<Tick>): State {
    if rx == [] then INITIAL
    else Step(captureId, Run(captureId, rx[..|rx| - 1]), rx[|rx| - 1])
  }

  // Everything in the table once the channel is closed.
  function Staged(captureId: string, rx: seq<Tick>): seq<StagingRow> {
    Run(captureId, rx).flushed + Run(captureId, rx).batch
  }

  method SetLastResponse(batch: seq<StagingRow>, sid: nat, response: seq<ResponseRow>) returns (r: seq<StagingRow>)
    ensures r == AttachLast(batch, sid, response)
  {
    var i := |batch|;
    assert batch[..i] == batch;
    while i > 0 && batch[i - 1].sid != sid
      invariant 0 <= i <= |batch|
      invariant AttachLast(batch, sid, response) == AttachLast(batch[..i], sid, response) + batch[i..]
    {
      i := i - 1;
      assert batch[..i + 1][..i] == batch[..i];
    }
    if i == 0 {
      r := batch;
    } else {
      assert batch[..i][..i - 1] == batch[..i - 1];
      r := batch[i - 1 := batch[i - 1].(query := batch[i - 1].query.(response := Some(response)))];
    }
  }

  /** The collector loop over a schedule of events and flush timeouts; the last batch is written
      when the channel closes. */
  method RunStagingCollector(rx: seq<Tick>, db: StagingDb, captureId: string)
    modifies db
    ensures db.rows == old(db.rows) + Staged(captureId, rx)
    ensures Collector.StartsFirst(Events(rx)) ==> forall r :: r in db.rows[|old(db.rows)|..] ==>
              r.captureId == captureId && AnnouncedAs(Events(rx), r.sid, r.user, r.database)
  {
    hide AttachLast, RenderRows, AnnouncedAs, Events, Collector.StartsFirst;
    var meta: map<nat, (string, string, nat)> := map[];
    var pending: map<nat, (string, nat)> := map[];
    var batch: seq<StagingRow> := [];
    for n := 0 to |rx|
      invariant Run(captureId, rx[..n]) == State(meta, pending, batch, Run(captureId, rx[..n]).flushed)
      invariant db.rows == old(db.rows) + Run(captureId, rx[..n]).flushed
    {
      assert rx[..n + 1][..n] == rx[..n];
      if rx[n].Timeout? {
        if batch != [] {
          db.InsertBatch(batch);
          batch := [];
        }
        continue;
      }
      match rx[n].event {
        case SessionStart(sid, user, database, at) =>
          meta := meta[sid := (user, database, at)];
        case QueryStart(sid, sql, at) =>
          if sid !in meta {
            meta := meta[sid := ("unknown", "unknown", at)];
          }
          pending := pending[sid := (sql, at)];
        case QueryComplete(sid, at) =>
          if sid in pending {
            var (sql, start) := pending[sid];
            pending := pending - {sid};
            if sid in meta {
              var (user, database, sessionStart) := meta[sid];
              var q := CapturedQuery(sql, Since(start, sessionStart), Since(at, start), None, None);
              batch := batch + [StagingRow(captureId, sid, user, database, q)];
            }
          }
        case QueryError(sid, message, at) =>
          if sid in pending {
            var (sql, start) := pending[sid];
            pending := pending - {sid};
            if sid in meta {
              var (user, database, sessionStart) := meta[sid];
              var q := CapturedQuery(sql, Since(start, sessionStart), Since(at, start), Some(message), None);
              batch := batch + [StagingRow(captureId, sid, user, database, q)];
            }
          }
        case QueryReturning(sid, columns, rows) =>
          batch := SetLastResponse(batch, sid, RenderRows(columns, rows));
        case SessionEnd(sid) =>
      }
      if |batch| >= BATCH_SIZE {
        db.InsertBatch(batch);
        batch := [];
      }
    }
    assert rx[..|rx|] == rx;
    if batch != [] {
      db.InsertBatch(batch);
    }
    AnnouncedAfter(captureId, rx, old(db.rows));
  }

  lemma AttachIds(batch: seq<StagingRow>, sid: nat, response: seq<ResponseRow>, captureId: string)
    requires forall r :: r in batch ==> r.captureId == captureId
    ensures forall r :: r in AttachLast(batch, sid, response) ==> r.captureId == captureId
  {
    if batch == [] {
    } else {
      AttachIds(batch[..|batch| - 1], sid, response, captureId);
    }
  }

  // Every staged row carries the capture's id.
  lemma {:induction false} StagedIds(captureId: string, rx: seq<Tick>)
    ensures forall r :: r in Run(captureId, rx).batch ==> r.captureId == captureId
    ensures forall r :: r in Run(captureId, rx).flushed ==> r.captureId == captureId
    ensures forall r :: r in Staged(captureId, rx) ==> r.captureId == captureId
  {
    if rx == [] {
    } else {
      var n := |rx| - 1;
      StagedIds(captureId, rx[..n]);
      if rx[n].Recv? && rx[n].event.QueryReturning? {
        AttachIds(Run(captureId, rx[..n]).batch, rx[n].event.sid, RenderRows(rx[n].event.columns, rx[n].event.rows),
                  captureId);
      }
    }
  }

  // ---- Refinement of the in-memory collector ----

  ghost function Events(rx: seq<Tick>): seq<Event> {
    if rx == [] then []
    else
      var n := |rx| - 1;
      Events(rx[..n]) + (if rx[n].Recv? then [rx[n].event] else [])
  }

  // The queries of one session among the rows, in order.
  function QueriesOf(rows: seq<StagingRow>, sid: nat): seq<CapturedQuery> {
    if rows == [] then []
    else
      var n := |rows| - 1;
      QueriesOf(rows[..n], sid) + (if rows[n].sid == sid then [rows[n].query] else [])
  }

  lemma QueriesOfConcat(a: seq<StagingRow>, b: seq<StagingRow>, sid: nat)
    ensures QueriesOf(a + b, sid) == QueriesOf(a, sid) + QueriesOf(b, sid)
  {
    if b == [] {
      assert a + b == a;
    } else {
      var n := |b| - 1;
      assert (a + b)[..|a + b| - 1] == a + b[..n];
      QueriesOfConcat(a, b[..n], sid);
    }
  }

  lemma QueriesOfAttach(batch: seq<StagingRow>, sid: nat, response: seq<ResponseRow>, other: nat)
    ensures var before, after := QueriesOf(batch, other), QueriesOf(AttachLast(batch, sid, response), other);
            if other == sid && before != []
            then after == before[|before| - 1 := before[|before| - 1].(response := Some(response))]
            else after == before
  {
    if batch == [] {
    } else {
      var n := |batch| - 1;
      QueriesOfAttach(batch[..n], sid, response, other);
      var after := AttachLast(batch, sid, response);
      assert after[..n] == if batch[n].sid == sid then batch[..n] else AttachLast(batch[..n], sid, response);
    }
  }

  // The tick is a RETURNING answer for `sid` whose query has already been written out.
  predicate Loses(st: State, t: Tick, sid: nat) {
    && t.Recv? && t.event.QueryReturning? && t.event.sid == sid
    && QueriesOf(st.batch, sid) == [] && QueriesOf(st.flushed, sid) != []
  }

  ghost function LostBy(st: State, t: Tick, sid: nat): set<nat> {
    if Loses(st, t, sid) then {(|QueriesOf(st.flushed, sid)| - 1) as nat} else {}
  }

  // The positions of `sid` whose RETURNING rows were lost to a flush.
  ghost function Lost(captureId: string, rx: seq<Tick>, sid: nat): set<nat> {
    if rx == [] then {}
    else Lost(captureId, rx[..|rx| - 1], sid) + LostBy(Run(captureId, rx[..|rx| - 1]), rx[|rx| - 1], sid)
  }

  // Equal query by query; at a lost position only up to the response.
  ghost predicate EqualUpTo(a: seq<CapturedQuery>, b: seq<CapturedQuery>, lost: set<nat>) {
    && |a| == |b|
    && forall k: nat :: k < |a| ==>
         a[k].(response := None) == b[k].(response := None) && (k in lost || a[k].response == b[k].response)
  }

  // The staging collector's knowledge of one session, in the in-memory collector's terms.
  ghost function View(st: State, queries: seq<CapturedQuery>, sid: nat): Option<Collector.SessionState> {
    if sid in st.meta then
      var (user, database, start) := st.meta[sid];
      Some(Collector.SessionState(user, database, start, queries,
                                  if sid in st.pending then Some(st.pending[sid]) else None))
    else None
  }

  ghost predicate AgreeOn(v: Option<Collector.SessionState>, w: Option<Collector.SessionState>, lost: set<nat>) {
    match (v, w)
    case (Some(a), Some(b)) => a.(queries := []) == b.(queries := []) && EqualUpTo(a.queries, b.queries, lost)
    case (None, None) => true
    case _ => false
  }

  ghost function InMemory(m: Collector.Sessions, sid: nat): Option<Collector.SessionState> {
    if sid in m then Some(m[sid]) else None
  }

  // Only known sessions have rows or an open query.
  ghost predicate Known(st: State, queries: seq<CapturedQuery>, sid: nat) {
    sid !in st.meta ==> queries == [] && sid !in st.pending
  }

  ghost predicate AgreeState(st: State, m: Collector.Sessions, lost: set<nat>, sid: nat) {
    var queries := QueriesOf(st.flushed, sid) + QueriesOf(st.batch, sid);
    Known(st, queries, sid) && AgreeOn(View(st, queries, sid), InMemory(m, sid), lost)
  }

  ghost predicate Agree(captureId: string, rx: seq<Tick>, sid: nat) {
    AgreeState(Run(captureId, rx), Collector.Run(Events(rx)), Lost(captureId, rx, sid), sid)
  }

  lemma EventsPrefix(rx: seq<Tick>, n: nat)
    requires n <= |rx| && Collector.StartsFirst(Events(rx))
    ensures Collector.StartsFirst(Events(rx[..n]))
    decreases |rx|
  {
    if n == |rx| {
      assert rx[..n] == rx;
    } else {
      var init := rx[..|rx| - 1];
      assert Events(init) <= Events(rx);
      forall i, j | 0 <= i < j < |Events(init)| && Events(init)[j].SessionStart?
        ensures Events(init)[i].sid != Events(init)[j].sid
      {
        assert Events(init)[i] == Events(rx)[i] && Events(init)[j] == Events(rx)[j];
      }
      assert init[..n] == rx[..n];
      EventsPrefix(init, n);
    }
  }

  // What the event adds to the session's staged queries.
  function Added(st: State, e: Event, sid: nat): seq<CapturedQuery> {
    if e.sid == sid && IsCompletion(e) && sid in st.pending && sid in st.meta
    then [Record(st.meta[sid].2, st.pending[sid].0, st.pending[sid].1, e)] else []
  }

  lemma HandledQueries(captureId: string, st: State, e: Event, sid: nat)
    requires !e.QueryReturning?
    ensures Handle(captureId, st, e).flushed == st.flushed
    ensures QueriesOf(Handle(captureId, st, e).batch, sid) == QueriesOf(st.batch, sid) + Added(st, e, sid)
  {
    var h := Handle(captureId, st, e);
    if h.batch != st.batch {
      assert h.batch[..|h.batch| - 1] == st.batch;
    }
  }

  lemma AgreeHandle(captureId: string, m: Collector.Sessions, st: State, e: Event, staged: seq<CapturedQuery>,
                    lost: set<nat>, sid: nat)
    requires Known(st, staged, sid) && AgreeOn(View(st, staged, sid), InMemory(m, sid), lost)
    requires e.SessionStart? && e.sid == sid ==> sid !in m
    requires !e.QueryReturning?
    ensures var h, staged' := Handle(captureId, st, e), staged + Added(st, e, sid);
            && Known(h, staged', sid)
            && AgreeOn(View(h, staged', sid), InMemory(Collector.Step(m, e), sid), lost)
  {
  }

  lemma AgreeStateIs(st: State, m: Collector.Sessions, lost: set<nat>, sid: nat, a: seq<CapturedQuery>,
                     b: seq<CapturedQuery>, queries: seq<CapturedQuery>)
    requires QueriesOf(st.flushed, sid) == a && QueriesOf(st.batch, sid) == b && queries == a + b
    requires Known(st, queries, sid) && AgreeOn(View(st, queries, sid), InMemory(m, sid), lost)
    ensures AgreeState(st, m, lost, sid)
  {
  }

  function Answered(queries: seq<CapturedQuery>, response: seq<ResponseRow>): seq<CapturedQuery> {
    if queries == [] then []
    else queries[|queries| - 1 := queries[|queries| - 1].(response := Some(response))]
  }

  // RETURNING rows of another session, or of one that was never announced, change nothing here.
  lemma AgreeOtherReturning(captureId: string, st: State, m: Collector.Sessions, lost: set<nat>, e: Event, sid: nat)
    requires AgreeState(st, m, lost, sid) && e.QueryReturning? && !(e.sid == sid && sid in m)
    ensures AgreeState(Handle(captureId, st, e), Collector.Step(m, e), lost + LostBy(st, Recv(e), sid), sid)
  {
    QueriesOfAttach(st.batch, e.sid, RenderRows(e.columns, e.rows), sid);
    AnsweredInMemory(m, e, sid);
    var queries := QueriesOf(st.flushed, sid) + QueriesOf(st.batch, sid);
    assert View(Handle(captureId, st, e), queries, sid) == View(st, queries, sid);
  }

  lemma AgreeOwnReturning(captureId: string, st: State, m: Collector.Sessions, lost: set<nat>, e: Event, sid: nat)
    requires AgreeState(st, m, lost, sid) && e.QueryReturning? && e.sid == sid && sid in m
    ensures AgreeState(Handle(captureId, st, e), Collector.Step(m, e), lost + LostBy(st, Recv(e), sid), sid)
  {
    var response := RenderRows(e.columns, e.rows);
    var a, b := QueriesOf(st.flushed, sid), QueriesOf(st.batch, sid);
    QueriesOfAttach(st.batch, sid, response, sid);
    AnsweredInMemory(m, e, sid);
    OwnAnswer(st, m, lost, response, sid, a, b);
    AgreeStateIs(Handle(captureId, st, e), Collector.Step(m, e), lost + LostBy(st, Recv(e), sid), sid, a,
                 Answered(b, response), a + Answered(b, response));
  }

  // The answer goes to the session's last query, unless only the in-memory one is still at hand.
  lemma OwnAnswer(st: State, m: Collector.Sessions, lost: set<nat>, response: seq<ResponseRow>, sid: nat,
                  a: seq<CapturedQuery>, b: seq<CapturedQuery>)
    requires sid in m && Known(st, a + b, sid) && AgreeOn(View(st, a + b, sid), InMemory(m, sid), lost)
    ensures var queries := a + Answered(b, response);
            var lost' := lost + if b == [] && a != [] then {(|a| - 1) as nat} else {};
            && Known(st, queries, sid)
            && AgreeOn(View(st, queries, sid), Some(m[sid].(queries := Answered(m[sid].queries, response))), lost')
  {
    assert a + Answered(b, response) == if b == [] then a + b else Answered(a + b, response);
    AnsweredAgree(a + b, m[sid].queries, response, lost);
  }

  lemma AgreeReceivedReturning(captureId: string, st: State, m: Collector.Sessions, lost: set<nat>, e: Event, sid: nat)
    requires AgreeState(st, m, lost, sid) && e.QueryReturning?
    ensures AgreeState(Handle(captureId, st, e), Collector.Step(m, e), lost + LostBy(st, Recv(e), sid), sid)
  {
    if e.sid == sid && sid in m {
      AgreeOwnReturning(captureId, st, m, lost, e, sid);
    } else {
      AgreeOtherReturning(captureId, st, m, lost, e, sid);
    }
  }

  lemma AnsweredInMemory(m: Collector.Sessions, e: Event, sid: nat)
    requires e.QueryReturning?
    ensures InMemory(Collector.Step(m, e), sid) ==
            if e.sid == sid && sid in m
            then Some(m[sid].(queries := Answered(m[sid].queries, RenderRows(e.columns, e.rows))))
            else InMemory(m, sid)
  {
  }

  lemma AnsweredAgree(a: seq<CapturedQuery>, b: seq<CapturedQuery>, response: seq<ResponseRow>, lost: set<nat>)
    requires EqualUpTo(a, b, lost)
    ensures EqualUpTo(Answered(a, response), Answered(b, response), lost)
    ensures a != [] ==> EqualUpTo(a, Answered(b, response), lost + {|a| - 1})
  {
  }

  lemma AgreeReceivedOther(captureId: string, st: State, m: Collector.Sessions, lost: set<nat>, e: Event, sid: nat)
    requires AgreeState(st, m, lost, sid) && !e.QueryReturning?
    requires e.SessionStart? && e.sid == sid ==> sid !in m
    ensures AgreeState(Handle(captureId, st, e), Collector.Step(m, e), lost, sid)
  {
    var a, b := QueriesOf(st.flushed, sid), QueriesOf(st.batch, sid);
    HandledQueries(captureId, st, e, sid);
    AgreeHandle(captureId, m, st, e, a + b, lost, sid);
    var more := Added(st, e, sid);
    assert a + (b + more) == a + b + more;
    AgreeStateIs(Handle(captureId, st, e), Collector.Step(m, e), lost, sid, a, b + more, a + b + more);
  }

  lemma AgreeFlush(st: State, m: Collector.Sessions, lost: set<nat>, sid: nat)
    requires AgreeState(st, m, lost, sid)
    ensures AgreeState(Flush(st), m, lost, sid)
  {
    QueriesOfConcat(st.flushed, st.batch, sid);
    assert QueriesOf(Flush(st).flushed, sid) + [] == QueriesOf(st.flushed, sid) + QueriesOf(st.batch, sid);
  }

  // A session that is only now announced is unknown to the in-memory collector.
  lemma FirstHeard(captureId: string, rx: seq<Tick>, sid: nat)
    requires rx != [] && Collector.StartsFirst(Events(rx))
    requires var t := rx[|rx| - 1]; t.Recv? && t.event.SessionStart? && t.event.sid == sid
    ensures sid !in Collector.Run(Events(rx[..|rx| - 1]))
  {
    var before := Events(rx[..|rx| - 1]);
    forall i | 0 <= i < |before| ensures before[i].sid != sid {
      assert before[i] == Events(rx)[i] && Events(rx)[|before|] == rx[|rx| - 1].event;
    }
    UnknownSession(before, sid);
  }

  lemma UnknownSession(events: seq<Event>, sid: nat)
    requires forall i :: 0 <= i < |events| ==> events[i].sid != sid
    ensures sid !in Collector.Run(events)
  {
    if events == [] {
    } else {
      UnknownSession(events[..|events| - 1], sid);
    }
  }

  lemma {:induction false} AgreeAlways(captureId: string, rx: seq<Tick>, sid: nat)
    requires Collector.StartsFirst(Events(rx))
    ensures Agree(captureId, rx, sid)
  {
    if rx == [] {
    } else {
      var n := |rx| - 1;
      EventsPrefix(rx, n);
      AgreeAlways(captureId, rx[..n], sid);
      var st, m, lost := Run(captureId, rx[..n]), Collector.Run(Events(rx[..n])), Lost(captureId, rx[..n], sid);
      if rx[n].Recv? {
        var e := rx[n].event;
        Collector.RunAppend(Events(rx[..n]), e);
        if e.SessionStart? && e.sid == sid { FirstHeard(captureId, rx, sid); }
        if e.QueryReturning? {
          AgreeReceivedReturning(captureId, st, m, lost, e, sid);
        } else {
          AgreeReceivedOther(captureId, st, m, lost, e, sid);
        }
        AgreeFlush(Handle(captureId, st, e), Collector.Step(m, e), lost + LostBy(st, rx[n], sid), sid);
      } else {
        AgreeFlush(st, m, lost, sid);
        assert Events(rx) == Events(rx[..n]) && Lost(captureId, rx, sid) == lost;
      }
    }
  }

  /** For every interleaved event stream in which sessions are announced first, and every flush
      schedule, the staged rows of a session are the in-memory collector's queries; a response
      differs only at a position that a flush separated from its RETURNING rows. */
  lemma StagingRefinesCollector(captureId: string, rx: seq<Tick>, sid: nat)
    requires Collector.StartsFirst(Events(rx))
    ensures sid !in Collector.Run(Events(rx)) ==> QueriesOf(Staged(captureId, rx), sid) == []
    ensures sid in Collector.Run(Events(rx)) ==>
      EqualUpTo(QueriesOf(Staged(captureId, rx), sid), Collector.Run(Events(rx))[sid].queries, Lost(captureId, rx, sid))
  {
    AgreeAlways(captureId, rx, sid);
    var st := Run(captureId, rx);
    QueriesOfConcat(st.flushed, st.batch, sid);
  }

  // ---- Whose the rows are ----

  // The session announced itself as this user of this database, or is unknown because it never did.
  ghost predicate AnnouncedAs(events: seq<Event>, sid: nat, user: string, database: string) {
    && (forall i :: 0 <= i < |events| && events[i].SessionStart? && events[i].sid == sid ==>
          user == events[i].user && database == events[i].database)
    && (Unannounced(events, sid) ==> user == "unknown" && database == "unknown")
  }

  predicate Unannounced(events: seq<Event>, sid: nat) {
    forall i :: 0 <= i < |events| && events[i].SessionStart? ==> events[i].sid != sid
  }

  predicate RowsOf(rows: seq<StagingRow>, sid: nat, user: string, database: string) {
    forall k :: 0 <= k < |rows| && rows[k].sid == sid ==> rows[k].user == user && rows[k].database == database
  }

  // What the collector knows of a session, and its rows say the same.
  ghost predicate Identified(st: State, events: seq<Event>, sid: nat) {
    if sid in st.meta then
      var (user, database, _) := st.meta[sid];
      && AnnouncedAs(events, sid, user, database)
      && RowsOf(st.batch, sid, user, database) && RowsOf(st.flushed, sid, user, database)
    else
      && Unannounced(events, sid)
      && (forall k :: 0 <= k < |st.batch| ==> st.batch[k].sid != sid)
      && (forall k :: 0 <= k < |st.flushed| ==> st.flushed[k].sid != sid)
  }

  lemma {:induction false} AttachedRows(batch: seq<StagingRow>, sid: nat, response: seq<ResponseRow>)
    ensures forall k :: 0 <= k < |batch| ==>
              var r := AttachLast(batch, sid, response)[k];
              r.sid == batch[k].sid && r.user == batch[k].user && r.database == batch[k].database
  {
    if batch == [] {
    } else {
      AttachedRows(batch[..|batch| - 1], sid, response);
    }
  }

  lemma IdentifiedHandle(captureId: string, st: State, events: seq<Event>, e: Event, sid: nat)
    requires Identified(st, events, sid)
    requires e.SessionStart? && e.sid == sid ==> sid !in st.meta
    ensures Identified(Handle(captureId, st, e), events + [e], sid)
  {
    if e.QueryReturning? { AttachedRows(st.batch, e.sid, RenderRows(e.columns, e.rows)); }
    UnannouncedNext(events, e, sid);
  }

  lemma UnannouncedNext(events: seq<Event>, e: Event, sid: nat)
    ensures Unannounced(events + [e], sid) <==> Unannounced(events, sid) && !(e.SessionStart? && e.sid == sid)
  {
    assert (events + [e])[|events|] == e;
    assert forall i :: 0 <= i < |events| ==> (events + [e])[i] == events[i];
  }

  lemma {:induction false} IdentifiedAlways(captureId: string, rx: seq<Tick>, sid: nat)
    requires Collector.StartsFirst(Events(rx))
    ensures Identified(Run(captureId, rx), Events(rx), sid)
  {
    if rx == [] {
    } else {
      var n := |rx| - 1;
      EventsPrefix(rx, n);
      IdentifiedAlways(captureId, rx[..n], sid);
      if rx[n].Recv? {
        if rx[n].event.SessionStart? && rx[n].event.sid == sid {
          FirstHeard(captureId, rx, sid);
          AgreeAlways(captureId, rx[..n], sid);
        }
        IdentifiedHandle(captureId, Run(captureId, rx[..n]), Events(rx[..n]), rx[n].event, sid);
      } else {
        assert Events(rx) == Events(rx[..n]);
      }
    }
  }

  /** For every schedule of events in which sessions are announced first, and flush timeouts: every staged
      row carries the capture's id and the user and the database that its session announced, or "unknown"
      for both if it never did. */
  lemma RowsAreAnnounced(captureId: string, rx: seq<Tick>, k: nat)
    requires Collector.StartsFirst(Events(rx)) && k < |Staged(captureId, rx)|
    ensures var r := Staged(captureId, rx)[k];
            r.captureId == captureId && AnnouncedAs(Events(rx), r.sid, r.user, r.database)
  {
    StagedIds(captureId, rx);
    IdentifiedAlways(captureId, rx, Staged(captureId, rx)[k].sid);
  }

  lemma AnnouncedAfter(captureId: string, rx: seq<Tick>, before: seq<StagingRow>)
    ensures Collector.StartsFirst(Events(rx)) ==>
              forall r :: r in (before + Staged(captureId, rx))[|before|..] ==>
                r.captureId == captureId && AnnouncedAs(Events(rx), r.sid, r.user, r.database)
  {
    assert (before + Staged(captureId, rx))[|before|..] == Staged(captureId, rx);
    if Collector.StartsFirst(Events(rx)) {
      forall k | 0 <= k < |Staged(captureId, rx)|
        ensures var r := Staged(captureId, rx)[k];
                r.captureId == captureId && AnnouncedAs(Events(rx), r.sid, r.user, r.database)
      {
        RowsAreAnnounced(captureId, rx, k);
      }
    }
  }

  // ---- When a response is lost ----

  lemma RunPrefix(captureId: string, rx: seq<Tick>, n: nat)
    requires n < |rx|
    ensures Run(captureId, rx[..n + 1]) == Step(captureId, Run(captureId, rx[..n]), rx[n])
  {
    assert rx[..n + 1][..n] == rx[..n];
  }

  // A flush ends tick f of the schedule.
  predicate FlushAt(captureId: string, rx: seq<Tick>, f: nat)
    requires f < |rx|
  {
    Flushes(captureId, Run(captureId, rx[..f]), rx[f])
  }

  // The tick records a query of `sid`.
  predicate Records(st: State, t: Tick, sid: nat) {
    t.Recv? && IsCompletion(t.event) && t.event.sid == sid && sid in st.pending && sid in st.meta
  }

  predicate RecordsAt(captureId: string, rx: seq<Tick>, c: nat, sid: nat)
    requires c < |rx|
  {
    Records(Run(captureId, rx[..c]), rx[c], sid)
  }

  // The batch after one tick, by what the tick is and whether it records a query.
  lemma TickBatch(captureId: string, st: State, t: Tick)
    requires |st.batch| <= 99
    ensures var st', full := Step(captureId, st, t), t.Recv? && Records(st, t, t.event.sid) && |st.batch| == 99;
            && (Flushes(captureId, st, t) <==> t.Timeout? || full)
            && |st'.batch| == (if t.Timeout? || full then 0
                               else if Records(st, t, t.event.sid) then |st.batch| + 1 else |st.batch|)
  {
  }

  lemma {:induction false} BatchBelowHundred(captureId: string, rx: seq<Tick>)
    ensures |Run(captureId, rx).batch| <= 99
  {
    if rx == [] {
    } else {
      var n := |rx| - 1;
      BatchBelowHundred(captureId, rx[..n]);
      TickBatch(captureId, Run(captureId, rx[..n]), rx[n]);
    }
  }

  /** The table is written by every timeout, and by the recording of a query when 99 are waiting; otherwise
      the batch grows by the query that is recorded, if any. */
  lemma FlushIffHundred(captureId: string, rx: seq<Tick>, f: nat)
    requires f < |rx|
    ensures var before, after := |Run(captureId, rx[..f]).batch|, |Run(captureId, rx[..f + 1]).batch|;
            var records := rx[f].Recv? && RecordsAt(captureId, rx, f, rx[f].event.sid);
            && before <= 99
            && (FlushAt(captureId, rx, f) <==> rx[f].Timeout? || (before == 99 && records))
            && after == if FlushAt(captureId, rx, f) then 0 else if records then before + 1 else before
  {
    BatchBelowHundred(captureId, rx[..f]);
    TickBatch(captureId, Run(captureId, rx[..f]), rx[f]);
    RunPrefix(captureId, rx, f);
  }

  lemma HandledBatch(captureId: string, st: State, e: Event, sid: nat)
    ensures var h := Handle(captureId, st, e);
            && h.flushed == st.flushed
            && (QueriesOf(h.batch, sid) == [] <==> QueriesOf(st.batch, sid) == [] && !Records(st, Recv(e), sid))
  {
    if e.QueryReturning? {
      QueriesOfAttach(st.batch, e.sid, RenderRows(e.columns, e.rows), sid);
    } else {
      HandledQueries(captureId, st, e, sid);
    }
  }

  lemma FlushedQueries(st: State, sid: nat)
    ensures QueriesOf(Flush(st).batch, sid) == []
    ensures QueriesOf(Flush(st).flushed, sid) == QueriesOf(st.flushed, sid) + QueriesOf(st.batch, sid)
  {
    QueriesOfConcat(st.flushed, st.batch, sid);
  }

  lemma BatchStep(captureId: string, st: State, t: Tick, sid: nat)
    ensures var st' := Step(captureId, st, t);
            && (QueriesOf(st'.batch, sid) == [] <==>
                  Flushes(captureId, st, t) || (QueriesOf(st.batch, sid) == [] && !Records(st, t, sid)))
            && (QueriesOf(st.flushed, sid) != [] || QueriesOf(st.batch, sid) != [] || Records(st, t, sid) ==>
                  QueriesOf(st'.flushed, sid) != [] || QueriesOf(st'.batch, sid) != [])
  {
    if t.Recv? {
      HandledBatch(captureId, st, t.event, sid);
      FlushedQueries(Handle(captureId, st, t.event), sid);
    } else {
      FlushedQueries(st, sid);
    }
  }

  // A flag set at c and cleared only by a flush is down at t exactly if a flush came in between.
  lemma {:induction false} DownIffFlushed(inBatch: seq<bool>, flush: seq<bool>, records: seq<bool>, c: nat, t: nat)
    requires c < t < |inBatch| && |inBatch| <= |flush| + 1 && |flush| == |records|
    requires forall k :: 0 <= k < |inBatch| - 1 ==> (inBatch[k + 1] <==> !flush[k] && (inBatch[k] || records[k]))
    requires records[c] && forall k :: c < k < t ==> !records[k]
    ensures !inBatch[t] <==> exists f :: c <= f < t && flush[f]
  {
    if t - 1 > c {
      DownIffFlushed(inBatch, flush, records, c, t - 1);
    }
    assert inBatch[t - 1 + 1] <==> !flush[t - 1] && (inBatch[t - 1] || records[t - 1]);
  }

  lemma TickStep(captureId: string, rx: seq<Tick>, k: nat, sid: nat)
    requires k < |rx|
    ensures QueriesOf(Run(captureId, rx[..k + 1]).batch, sid) != [] <==>
            !FlushAt(captureId, rx, k)
            && (QueriesOf(Run(captureId, rx[..k]).batch, sid) != [] || RecordsAt(captureId, rx, k, sid))
    ensures HasRow(captureId, rx, k, sid) || RecordsAt(captureId, rx, k, sid) ==> HasRow(captureId, rx, k + 1, sid)
  {
    RunPrefix(captureId, rx, k);
    BatchStep(captureId, Run(captureId, rx[..k]), rx[k], sid);
  }

  predicate HasRow(captureId: string, rx: seq<Tick>, k: nat, sid: nat)
    requires k <= |rx|
  {
    var st := Run(captureId, rx[..k]);
    QueriesOf(st.flushed, sid) != [] || QueriesOf(st.batch, sid) != []
  }

  lemma HasRowNext(captureId: string, rx: seq<Tick>, k: nat, sid: nat)
    requires k < |rx| && (HasRow(captureId, rx, k, sid) || RecordsAt(captureId, rx, k, sid))
    ensures HasRow(captureId, rx, k + 1, sid)
  {
    TickStep(captureId, rx, k, sid);
  }

  lemma {:induction false} RowStays(captureId: string, rx: seq<Tick>, c: nat, t: nat, sid: nat)
    requires c < t <= |rx| && RecordsAt(captureId, rx, c, sid)
    ensures HasRow(captureId, rx, t, sid)
  {
    if t - 1 > c { RowStays(captureId, rx, c, t - 1, sid); }
    HasRowNext(captureId, rx, t - 1, sid);
  }

  /** RETURNING rows are lost exactly when a timeout or a full batch wrote the query out between its
      completion and the arrival of the rows. */
  lemma LostIffFlushedBetween(captureId: string, rx: seq<Tick>, c: nat, t: nat, sid: nat)
    requires c < t < |rx| && RecordsAt(captureId, rx, c, sid)
    requires forall k :: c < k < t ==> !RecordsAt(captureId, rx, k, sid)
    requires rx[t].Recv? && rx[t].event.QueryReturning? && rx[t].event.sid == sid
    ensures Loses(Run(captureId, rx[..t]), rx[t], sid) <==> exists f :: c <= f < t && FlushAt(captureId, rx, f)
  {
    var inBatch := seq(|rx| + 1, k requires 0 <= k <= |rx| => QueriesOf(Run(captureId, rx[..k]).batch, sid) != []);
    var flush := seq(|rx|, k requires 0 <= k < |rx| => FlushAt(captureId, rx, k));
    var records := seq(|rx|, k requires 0 <= k < |rx| => RecordsAt(captureId, rx, k, sid));
    forall k | 0 <= k < |rx|
      ensures inBatch[k + 1] <==> !flush[k] && (inBatch[k] || records[k])
    {
      TickStep(captureId, rx, k, sid);
    }
    DownIffFlushed(inBatch, flush, records, c, t);
    RowStays(captureId, rx, c, t, sid);
    forall f | c <= f < t && FlushAt(captureId, rx, f) ensures flush[f] {}
    forall f | c <= f < t && flush[f] ensures FlushAt(captureId, rx, f) {}
  }

  /** The query that fills the batch is written out before its own RETURNING rows can arrive, so
      these rows are lost even when they follow the completion directly. */
  lemma FullBatchLosesReturning(captureId: string, rx: seq<Tick>, c: nat, sid: nat)
    requires c + 1 < |rx| && RecordsAt(captureId, rx, c, sid)
    requires rx[c + 1].Recv? && rx[c + 1].event.QueryReturning? && rx[c + 1].event.sid == sid
    requires |Run(captureId, rx[..c]).batch| == 99
    ensures Loses(Run(captureId, rx[..c + 1]), rx[c + 1], sid)
  {
    assert FlushAt(captureId, rx, c);
    LostIffFlushedBetween(captureId, rx, c, c + 1, sid);
  }

  // At most one RETURNING answer per recorded query.
  ghost predicate AnsweredOnce(rx: seq<Tick>, sid: nat) {
    forall t {:trigger rx[t]} ::
      0 <= t < |rx| && rx[t].Recv? && rx[t].event.QueryReturning? && rx[t].event.sid == sid ==>
      Unanswered(Collector.Run(Events(rx[..t])), sid)
  }

  ghost predicate Unanswered(m: Collector.Sessions, sid: nat) {
    sid in m && m[sid].queries != [] ==> m[sid].queries[|m[sid].queries| - 1].response.None?
  }

  // At a lost position the staged row has no response while the in-memory query has one.
  ghost predicate Missing(flushed: seq<CapturedQuery>, m: Collector.Sessions, lost: set<nat>, sid: nat) {
    forall k :: k in lost ==>
      k < |flushed| && flushed[k].response.None? && sid in m && k < |m[sid].queries| && m[sid].queries[k].response.Some?
  }

  lemma MissingStep(captureId: string, st: State, m: Collector.Sessions, lost: set<nat>, e: Event, sid: nat)
    requires AgreeState(st, m, lost, sid) && Missing(QueriesOf(st.flushed, sid), m, lost, sid)
    requires e.SessionStart? && e.sid == sid ==> sid !in m
    requires e.QueryReturning? && e.sid == sid ==> Unanswered(m, sid)
    ensures Missing(QueriesOf(st.flushed, sid), Collector.Step(m, e), lost + LostBy(st, Recv(e), sid), sid)
  {
    if e.QueryReturning? {
      MissingReturning(captureId, st, m, lost, e, sid);
    } else {
      MissingOther(captureId, st, m, lost, e, sid);
    }
  }

  lemma MissingReturning(captureId: string, st: State, m: Collector.Sessions, lost: set<nat>, e: Event, sid: nat)
    requires AgreeState(st, m, lost, sid) && Missing(QueriesOf(st.flushed, sid), m, lost, sid)
    requires e.QueryReturning? && (e.sid == sid ==> Unanswered(m, sid))
    ensures Missing(QueriesOf(st.flushed, sid), Collector.Step(m, e), lost + LostBy(st, Recv(e), sid), sid)
  {
    AnsweredInMemory(m, e, sid);
  }

  lemma MissingOther(captureId: string, st: State, m: Collector.Sessions, lost: set<nat>, e: Event, sid: nat)
    requires AgreeState(st, m, lost, sid) && Missing(QueriesOf(st.flushed, sid), m, lost, sid)
    requires !e.QueryReturning? && (e.SessionStart? && e.sid == sid ==> sid !in m)
    ensures Missing(QueriesOf(st.flushed, sid), Collector.Step(m, e), lost + LostBy(st, Recv(e), sid), sid)
  {
    assert LostBy(st, Recv(e), sid) == {};
    hide AgreeState, QueriesOf, LostBy;
  }

  lemma MissingFlush(st: State, m: Collector.Sessions, lost: set<nat>, sid: nat)
    requires Missing(QueriesOf(st.flushed, sid), m, lost, sid)
    ensures Missing(QueriesOf(Flush(st).flushed, sid), m, lost, sid)
  {
    QueriesOfConcat(st.flushed, st.batch, sid);
  }

  lemma MissingReceive(captureId: string, st: State, m: Collector.Sessions, lost: set<nat>, e: Event, sid: nat)
    requires AgreeState(st, m, lost, sid) && Missing(QueriesOf(st.flushed, sid), m, lost, sid)
    requires e.SessionStart? && e.sid == sid ==> sid !in m
    requires e.QueryReturning? && e.sid == sid ==> Unanswered(m, sid)
    ensures Missing(QueriesOf(Step(captureId, st, Recv(e)).flushed, sid), Collector.Step(m, e),
                    lost + LostBy(st, Recv(e), sid), sid)
  {
    var h := Handle(captureId, st, e);
    MissingStep(captureId, st, m, lost, e, sid);
    assert h.flushed == st.flushed;
    MissingFlush(h, Collector.Step(m, e), lost + LostBy(st, Recv(e), sid), sid);
  }

  lemma AnsweredOncePrefix(rx: seq<Tick>, n: nat, sid: nat)
    requires AnsweredOnce(rx, sid) && n <= |rx|
    ensures AnsweredOnce(rx[..n], sid)
  {
    forall t | 0 <= t < n ensures rx[..n][..t] == rx[..t] && rx[..n][t] == rx[t] {}
  }

  lemma {:induction false} MissingAlways(captureId: string, rx: seq<Tick>, sid: nat)
    requires Collector.StartsFirst(Events(rx)) && AnsweredOnce(rx, sid)
    ensures Missing(QueriesOf(Run(captureId, rx).flushed, sid), Collector.Run(Events(rx)), Lost(captureId, rx, sid),
                    sid)
  {
    if rx == [] {
    } else {
      var n := |rx| - 1;
      EventsPrefix(rx, n);
      AnsweredOncePrefix(rx, n, sid);
      MissingAlways(captureId, rx[..n], sid);
      AgreeAlways(captureId, rx[..n], sid);
      var st, m, lost := Run(captureId, rx[..n]), Collector.Run(Events(rx[..n])), Lost(captureId, rx[..n], sid);
      if rx[n].Recv? {
        var e := rx[n].event;
        Collector.RunAppend(Events(rx[..n]), e);
        if e.SessionStart? && e.sid == sid { FirstHeard(captureId, rx, sid); }
        MissingReceive(captureId, st, m, lost, e, sid);
      } else {
        MissingFlush(st, m, lost, sid);
        assert Events(rx) == Events(rx[..n]) && Lost(captureId, rx, sid) == lost;
      }
    }
  }

  // Staging keeps every response of a session exactly when no response was lost.
  lemma ExactIffNothingLost(captureId: string, rx: seq<Tick>, sid: nat)
    requires Collector.StartsFirst(Events(rx)) && AnsweredOnce(rx, sid)
    requires sid in Collector.Run(Events(rx))
    ensures QueriesOf(Staged(captureId, rx), sid) == Collector.Run(Events(rx))[sid].queries
       <==> Lost(captureId, rx, sid) == {}
  {
    StagingRefinesCollector(captureId, rx, sid);
    MissingAlways(captureId, rx, sid);
    var st := Run(captureId, rx);
    QueriesOfConcat(st.flushed, st.batch, sid);
    var staged, kept := QueriesOf(Staged(captureId, rx), sid), Collector.Run(Events(rx))[sid].queries;
    if k :| k in Lost(captureId, rx, sid) {
      assert staged[k].response != kept[k].response;
    } else {
      forall k: nat | k < |staged| ensures staged[k] == kept[k] {
        assert staged[k] == staged[k].(response := None).(response := staged[k].response);
        assert kept[k] == kept[k].(response := None).(response := kept[k].response);
      }
    }
  }

  // The rows that arrive at t answer the query that was recorded at c.
  ghost predicate AnswersAt(captureId: string, rx: seq<Tick>, c: nat, t: nat, sid: nat) {
    && c < t < |rx| && RecordsAt(captureId, rx, c, sid)
    && rx[t].Recv? && rx[t].event.QueryReturning? && rx[t].event.sid == sid
    && forall k :: c < k < t ==> !RecordsAt(captureId, rx, k, sid)
  }

  predicate FlushedBetween(captureId: string, rx: seq<Tick>, c: nat, t: nat) {
    exists f :: c <= f < t && f < |rx| && FlushAt(captureId, rx, f)
  }

  // The latest recording of the session, if it has a row at all.
  lemma {:induction false} LastRecording(captureId: string, rx: seq<Tick>, t: nat, sid: nat) returns (c: nat)
    requires t <= |rx| && HasRow(captureId, rx, t, sid)
    ensures c < t && RecordsAt(captureId, rx, c, sid)
    ensures forall k :: c < k < t ==> !RecordsAt(captureId, rx, k, sid)
  {
    if t == 0 {
    } else if RecordsAt(captureId, rx, t - 1, sid) {
      c := t - 1;
    } else {
      NoRecordNoRow(captureId, rx, t - 1, sid);
      c := LastRecording(captureId, rx, t - 1, sid);
    }
  }

  lemma NoRecordNoRow(captureId: string, rx: seq<Tick>, k: nat, sid: nat)
    requires k < |rx| && !RecordsAt(captureId, rx, k, sid) && HasRow(captureId, rx, k + 1, sid)
    ensures HasRow(captureId, rx, k, sid)
  {
    RunPrefix(captureId, rx, k);
    if !HasRow(captureId, rx, k, sid) { NoRowFromNowhere(captureId, Run(captureId, rx[..k]), rx[k], sid); }
  }

  lemma NoRowFromNowhere(captureId: string, st: State, t: Tick, sid: nat)
    requires !Records(st, t, sid) && QueriesOf(st.flushed, sid) == [] && QueriesOf(st.batch, sid) == []
    ensures var st' := Step(captureId, st, t); QueriesOf(st'.flushed, sid) == [] && QueriesOf(st'.batch, sid) == []
  {
    if t.Recv? {
      HandledBatch(captureId, st, t.event, sid);
      FlushedQueries(Handle(captureId, st, t.event), sid);
    } else {
      FlushedQueries(st, sid);
    }
  }

  predicate LosesAt(captureId: string, rx: seq<Tick>, t: nat, sid: nat)
    requires t < |rx|
  {
    Loses(Run(captureId, rx[..t]), rx[t], sid)
  }

  lemma LostNext(captureId: string, rx: seq<Tick>, n: nat, sid: nat)
    requires n < |rx|
    ensures Lost(captureId, rx[..n + 1], sid) == {}
       <==> Lost(captureId, rx[..n], sid) == {} && !LosesAt(captureId, rx, n, sid)
  {
    assert rx[..n + 1][..n] == rx[..n];
    if LosesAt(captureId, rx, n, sid) {
      assert (|QueriesOf(Run(captureId, rx[..n]).flushed, sid)| - 1) as nat in Lost(captureId, rx[..n + 1], sid);
    }
  }

  lemma {:induction false} NothingLost(captureId: string, rx: seq<Tick>, sid: nat, n: nat)
    requires n <= |rx|
    ensures Lost(captureId, rx[..n], sid) == {} <==> forall t :: 0 <= t < n ==> !LosesAt(captureId, rx, t, sid)
  {
    if n == 0 {
    } else {
      NothingLost(captureId, rx, sid, n - 1);
      LostNext(captureId, rx, n - 1, sid);
    }
  }

  lemma LosesIffFlushed(captureId: string, rx: seq<Tick>, t: nat, sid: nat)
    requires t < |rx|
    ensures LosesAt(captureId, rx, t, sid)
       <==> exists c :: AnswersAt(captureId, rx, c, t, sid) && FlushedBetween(captureId, rx, c, t)
  {
    if Loses(Run(captureId, rx[..t]), rx[t], sid) {
      var c := LastRecording(captureId, rx, t, sid);
      LostIffFlushedBetween(captureId, rx, c, t, sid);
      assert AnswersAt(captureId, rx, c, t, sid) && FlushedBetween(captureId, rx, c, t);
    }
    forall c | AnswersAt(captureId, rx, c, t, sid) && FlushedBetween(captureId, rx, c, t)
      ensures Loses(Run(captureId, rx[..t]), rx[t], sid)
    {
      LostIffFlushedBetween(captureId, rx, c, t, sid);
    }
  }

  lemma NothingLostIffNoFlush(captureId: string, rx: seq<Tick>, sid: nat)
    ensures (forall t :: 0 <= t < |rx| ==> !LosesAt(captureId, rx, t, sid))
       <==> (forall c, t :: AnswersAt(captureId, rx, c, t, sid) ==> !FlushedBetween(captureId, rx, c, t))
  {
    if c, t :| AnswersAt(captureId, rx, c, t, sid) && FlushedBetween(captureId, rx, c, t) {
      LosesIffFlushed(captureId, rx, t, sid);
      assert LosesAt(captureId, rx, t, sid);
    } else if t :| 0 <= t < |rx| && LosesAt(captureId, rx, t, sid) {
      LosesIffFlushed(captureId, rx, t, sid);
    }
  }

  /** The staged queries of a session are the in-memory ones, responses included, exactly if no timeout and
      no full batch wrote the table between a query's completion and the arrival of its rows. */
  lemma StagingExactIffNoFlushBetween(captureId: string, rx: seq<Tick>, sid: nat)
    requires Collector.StartsFirst(Events(rx)) && AnsweredOnce(rx, sid)
    requires sid in Collector.Run(Events(rx))
    ensures QueriesOf(Staged(captureId, rx), sid) == Collector.Run(Events(rx))[sid].queries
       <==> forall c, t :: AnswersAt(captureId, rx, c, t, sid) ==> !FlushedBetween(captureId, rx, c, t)
  {
    ExactIffNothingLost(captureId, rx, sid);
    NothingLost(captureId, rx, sid, |rx|);
    assert rx[..|rx|] == rx;
    NothingLostIffNoFlush(captureId, rx, sid);
  }
}
