/** The exact conditions on the server's answers under which the relay's capture is right: which answers
    leave the queue aligned, and which result widths are captured. */
module RelayAnswers {
  import opened Wrappers
  import opened CaptureEvents
  import opened Relay
  import opened RelayRuns

  // ---- Answers: the queue stays aligned exactly if every answer completes its query ----

  // Relays the rest of an answer, one message at a time.
  function Relayed(sid: nat, sh: Shared, msgs: seq<ServerMsg>, at: nat): Shared {
    if msgs == [] then sh
    else Reply(sid, Relayed(sid, sh, msgs[..|msgs| - 1], at), msgs[|msgs| - 1], at)
  }

  // Where the queue and the buffers stand during the answer to a query that queued `flag`.
  predicate Answering(r: Shared, flag: bool, done: bool, suppress: bool) {
    && r.queue == (if done then [] else [flag])
    && (done || !flag ==> r.columns == [] && r.rows == [])
    && r.suppress == (!done && suppress)
  }

  lemma OneMoreMessage(sid: nat, r: Shared, m: ServerMsg, at: nat, flag: bool, done: bool, suppress: bool)
    requires Answering(r, flag, done, suppress)
    ensures Answering(Reply(sid, r, m, at), flag, done || IsDone(m), suppress)
  {
  }

  lemma {:induction false} RelayedQueue(sid: nat, sh: Shared, flag: bool, msgs: seq<ServerMsg>, at: nat)
    requires sh.queue == [flag] && sh.columns == [] && sh.rows == []
    ensures Answering(Relayed(sid, sh, msgs, at), flag, Completed(msgs), sh.suppress)
  {
    if msgs == [] {
    } else {
      var n := |msgs| - 1;
      RelayedQueue(sid, sh, flag, msgs[..n], at);
      OneMoreMessage(sid, Relayed(sid, sh, msgs[..n], at), msgs[n], at, flag, Completed(msgs[..n]), sh.suppress);
    }
  }

  /** After a query the shared state is clean for the next one exactly if the answer contained a
      CommandComplete or an ErrorResponse; EmptyQueryResponse, for one, leaves the flag queued. */
  lemma CleanIffCompleted(cfg: Config, sid: nat, sh: Shared, sql: string, msgs: seq<ServerMsg>, at: nat)
    requires Clean(sh)
    ensures Clean(Relayed(sid, Uninterrupted(cfg, sid, sh, sql, at), msgs, at)) <==> Completed(msgs)
  {
    var sh' := Uninterrupted(cfg, sid, sh, sql, at);
    var plan := PlanFor(cfg, sql);
    AfterQuery(cfg, sid, sh, sql, at);
    RelayedQueue(sid, sh', plan.flag, msgs, at);
  }

  lemma AfterQuery(cfg: Config, sid: nat, sh: Shared, sql: string, at: nat)
    requires Clean(sh)
    ensures var r := Uninterrupted(cfg, sid, sh, sql, at);
            r.queue == [PlanFor(cfg, sql).flag] && r.columns == [] && r.rows == []
  {
    if PlanFor(cfg, sql).injected {
      var (a, _) := ClientMicro(cfg, sid, sh, sql, Start, at);
      var (b, _) := ClientMicro(cfg, sid, a, sql, Written, at);
      var (c, _) := ClientMicro(cfg, sid, b, sql, Pushed, at);
      var (d, _) := ClientMicro(cfg, sid, c, sql, Armed, at);
      assert Finish(cfg, sid, d, sql, Done, at) == Finish(cfg, sid, c, sql, Armed, at)
          == Finish(cfg, sid, b, sql, Pushed, at);
    } else {
      var (a, _) := ClientMicro(cfg, sid, sh, sql, Start, at);
      var (b, _) := ClientMicro(cfg, sid, a, sql, Queued, at);
      var (c, _) := ClientMicro(cfg, sid, b, sql, Announced, at);
      assert Finish(cfg, sid, c, sql, Done, at) == Finish(cfg, sid, b, sql, Announced, at);
    }
  }

  // The whole of one exchange without interference.
  ghost function Exchanged(cfg: Config, sid: nat, sh: Shared, sql: string, msgs: seq<ServerMsg>, at: nat): Shared {
    Relayed(sid, Uninterrupted(cfg, sid, sh, sql, at), msgs, at)
  }

  lemma OrdinaryQuery(cfg: Config, sid: nat, sh: Shared, sql: string, at: nat)
    requires !PlanFor(cfg, sql).injected
    ensures Uninterrupted(cfg, sid, sh, sql, at)
         == sh.(queue := sh.queue + [PlanFor(cfg, sql).flag], events := sh.events + [QueryStart(sid, sql, at)],
                toServer := sh.toServer + [PlanFor(cfg, sql).sent])
  {
    var (a, _) := ClientMicro(cfg, sid, sh, sql, Start, at);
    var (b, _) := ClientMicro(cfg, sid, a, sql, Queued, at);
    var (c, _) := ClientMicro(cfg, sid, b, sql, Announced, at);
    assert Finish(cfg, sid, c, sql, Done, at) == Finish(cfg, sid, b, sql, Announced, at);
  }

  lemma OneRowRelayed(sid: nat, sh: Shared, column: string, value: string, at: nat)
    requires sh.queue != [] && !sh.suppress && sh.columns == [] && sh.rows == []
    ensures Relayed(sid, sh, OneRow(column, value), at)
         == sh.(queue := sh.queue[1..], toClient := sh.toClient + OneRow(column, value),
                events := sh.events + [QueryComplete(sid, at)]
                          + if sh.queue[0] then [QueryReturning(sid, [column], [[Some(value)]])] else [])
  {
    var msgs := OneRow(column, value);
    assert msgs[..3][..2] == msgs[..2] && msgs[..2][..1] == msgs[..1] && msgs[..1][..0] == [];
    var r1 := Reply(sid, sh, msgs[0], at);
    assert Relayed(sid, sh, msgs[..1], at) == r1;
    var r2 := Reply(sid, r1, msgs[1], at);
    assert Relayed(sid, sh, msgs[..2], at) == r2;
    var r3 := Reply(sid, r2, msgs[2], at);
    assert Relayed(sid, sh, msgs[..3], at) == r3;
    assert msgs[..|msgs| - 1] == msgs[..3];
    assert Relayed(sid, sh, msgs, at) == Reply(sid, r3, msgs[3], at);
    assert r3.toClient + [ReadyForQuery] == sh.toClient + msgs;
    if sh.queue[0] {
      assert r2.rows == [[Some(value)]] && r2.columns == [column];
    } else {
      assert r3.events == sh.events + [QueryComplete(sid, at)] + [];
    }
  }

  /** Why the completion is needed: after an empty query a RETURNING statement loses its row, and the
      ordinary query after it is captured as if it were the RETURNING statement. */
  lemma EmptyQueryShiftsTheQueue(cfg: Config, sid: nat, insert: string, select: string, at: nat)
    requires !cfg.implicitCapture && !cfg.hasReturning("") && cfg.hasReturning(insert) && !cfg.hasReturning(select)
    ensures var a := Exchanged(cfg, sid, FRESH, "", [Other("EmptyQueryResponse"), ReadyForQuery], at);
            var b := Exchanged(cfg, sid, a, insert, OneRow("id", "7"), at);
            var c := Exchanged(cfg, sid, b, select, OneRow("total", "12"), at);
            c.events == [QueryStart(sid, "", at),
                         QueryStart(sid, insert, at), QueryComplete(sid, at),
                         QueryStart(sid, select, at), QueryComplete(sid, at),
                         QueryReturning(sid, ["total"], [[Some("12")]])]
  {
    OrdinaryQuery(cfg, sid, FRESH, "", at);
    var a0 := Uninterrupted(cfg, sid, FRESH, "", at);
    var empty := [Other("EmptyQueryResponse"), ReadyForQuery];
    assert empty[..1][..0] == [];
    assert Relayed(sid, a0, empty[..1], at) == Reply(sid, a0, empty[0], at);
    var a := Exchanged(cfg, sid, FRESH, "", empty, at);
    assert a.queue == [false] && a.events == [QueryStart(sid, "", at)];
    OrdinaryQuery(cfg, sid, a, insert, at);
    var b0 := Uninterrupted(cfg, sid, a, insert, at);
    OneRowRelayed(sid, b0, "id", "7", at);
    var b := Exchanged(cfg, sid, a, insert, OneRow("id", "7"), at);
    assert b.queue == [true];
    assert b.events == [QueryStart(sid, "", at), QueryStart(sid, insert, at), QueryComplete(sid, at)];
    OrdinaryQuery(cfg, sid, b, select, at);
    OneRowRelayed(sid, Uninterrupted(cfg, sid, b, select, at), "total", "12", at);
  }

  // ---- Widths: which rows of a plain answer are captured ----

  function Rows(rows: seq<seq<Cell>>): seq<ServerMsg> {
    seq(|rows|, i requires 0 <= i < |rows| => DataRow(rows[i]))
  }

  lemma {:induction false} GatherRows(columns: seq<string>, rows: seq<seq<Cell>>)
    requires forall i :: 0 <= i < |rows| ==> |rows[i]| == |columns|
    ensures var msgs := [RowDescription(columns)] + Rows(rows);
            && !Completed(msgs)
            && LastColumns(msgs) == Truncate(columns, MAX_RETURNING_COLUMNS)
            && Gathered(msgs)
               == if 1 <= |columns| <= MAX_RETURNING_COLUMNS then Truncate(rows, MAX_RETURNING_ROWS) else []
  {
    var msgs := [RowDescription(columns)] + Rows(rows);
    if rows == [] {
      assert msgs == [RowDescription(columns)];
    } else {
      var n := |rows| - 1;
      GatherRows(columns, rows[..n]);
      assert msgs[..|msgs| - 1] == [RowDescription(columns)] + Rows(rows[..n]);
    }
  }

  // The answer that describes its rows, sends them, and ends with a completion or an error.
  function PlainAnswer(columns: seq<string>, rows: seq<seq<Cell>>, done: ServerMsg): seq<ServerMsg> {
    [RowDescription(columns)] + Rows(rows) + [done, ReadyForQuery]
  }

  /** A query answered by n rows is captured with a table of its own first 100 rows, NULL written as "NULL",
      exactly if rows are expected of it, it completes, and it has between 1 and 20 columns and n > 0; a wider
      result loses all its rows. An error is captured with its message. */
  lemma PlainAnswerResponse(flag: bool, sql: string, columns: seq<string>, rows: seq<seq<Cell>>, done: ServerMsg)
    requires IsDone(done) && forall i :: 0 <= i < |rows| ==> |rows[i]| == |columns|
    ensures Completed(PlainAnswer(columns, rows, done))
    ensures var a := Answer(flag, sql, PlainAnswer(columns, rows, done));
            && a.sql == sql && a.error == (if done.ErrorResponse? then Some(done.message) else None)
            && (a.response.Some? <==> flag && done.CommandComplete? && rows != [] && 1 <= |columns| <= 20)
            && (a.response.Some? ==> Tabulates(a.response.value, columns, if |rows| <= 100 then rows else rows[..100]))
  {
    GatherRows(columns, rows);
    var body, msgs := [RowDescription(columns)] + Rows(rows), PlainAnswer(columns, rows, done);
    assert msgs[..|msgs| - 1] == body + [done];
    assert (body + [done])[..|body|] == body;
    RenderedTable(LastColumns(body), Gathered(body));
  }

  // ---- What one exchange gives, by the kind of its query ----

  lemma VisibleNext(hidden: bool, msgs: seq<ServerMsg>, m: ServerMsg)
    ensures Visible(hidden, msgs + [m])
         == Visible(hidden, msgs) + if hidden && IsRowData(m) && !Completed(msgs) then [] else [m]
    ensures Completed(msgs + [m]) <==> Completed(msgs) || IsDone(m)
  {
    assert (msgs + [m])[..|msgs|] == msgs;
  }

  // Before the completion, row data is shown or withheld as a whole.
  lemma {:induction false} RowDataIsShown(hidden: bool, msgs: seq<ServerMsg>)
    requires forall i :: 0 <= i < |msgs| ==> IsRowData(msgs[i])
    ensures Visible(hidden, msgs) == (if hidden then [] else msgs) && !Completed(msgs)
  {
    if msgs == [] {
    } else {
      var init := msgs[..|msgs| - 1];
      RowDataIsShown(hidden, init);
      assert msgs == init + [msgs[|msgs| - 1]];
    }
  }

  lemma PlainVisible(hidden: bool, columns: seq<string>, rows: seq<seq<Cell>>, done: ServerMsg)
    requires IsDone(done)
    ensures Visible(hidden, PlainAnswer(columns, rows, done))
         == (if hidden then [] else [RowDescription(columns)] + Rows(rows)) + [done, ReadyForQuery]
  {
    hide Visible, Completed;
    var body := [RowDescription(columns)] + Rows(rows);
    RowDataIsShown(hidden, body);
    VisibleNext(hidden, body, done);
    VisibleNext(hidden, body + [done], ReadyForQuery);
    assert PlainAnswer(columns, rows, done) == body + [done] + [ReadyForQuery];
  }

  // The k-th exchange's part of what is expected in all.
  lemma {:induction false} ExpectedAt(cfg: Config, xs: seq<Exchange>, k: nat)
    requires AllAnswered(xs) && k < |xs|
    ensures var x := xs[k];
            && |AllSent(cfg, xs)| == |xs| && AllSent(cfg, xs)[k] == PlanFor(cfg, x.sql).sent
            && AllCaptured(cfg, xs)[k] == Answer(PlanFor(cfg, x.sql).flag, x.sql, x.reply)
            && AllVisible(cfg, xs[..k]) + Visible(PlanFor(cfg, x.sql).hidden, x.reply) <= AllVisible(cfg, xs)
  {
    hide PlanFor, Answer, Visible, Answered;
    var n := |xs| - 1;
    if k < n {
      ExpectedAt(cfg, xs[..n], k);
      assert xs[..n][..k] == xs[..k];
    } else if n > 0 {
      ExpectedAt(cfg, xs[..n], 0);
    } else {
      assert AllSent(cfg, xs[..0]) == [];
    }
  }

  // A complete run over the exchanges in which every step came in time.
  ghost predicate Served(cfg: Config, sid: nat, xs: seq<Exchange>, moves: seq<Move>) {
    AllAnswered(xs) && Timely(cfg, sid, xs, INITIAL, moves) && RunFrom(cfg, sid, xs, INITIAL, moves).k == |xs|
  }

  /** What an exchange gives in every complete timely run, whatever its answer. A currval or lastval query is
      sent as it is and its rows are expected, even if RETURNING could be injected; an INSERT that RETURNING is
      injected into is sent rewritten, its rows are expected, and in stealth mode they are kept from the
      client; any other query is sent as it is, and its rows are expected if it has RETURNING itself. Without
      implicit capture every query is of the last kind. */
  lemma ExchangeByKind(cfg: Config, sid: nat, xs: seq<Exchange>, moves: seq<Move>, k: nat)
    requires Served(cfg, sid, xs, moves) && k < |xs|
    ensures var sh, x := RunFrom(cfg, sid, xs, INITIAL, moves).sh, xs[k];
            var injects := cfg.implicitCapture && !cfg.isCurrvalOrLastval(x.sql) && cfg.injectReturning(x.sql).Some?;
            var expects := (cfg.implicitCapture && cfg.isCurrvalOrLastval(x.sql)) || injects || cfg.hasReturning(x.sql);
            && |sh.toServer| == |Captured(sh.events, sid)| == |xs|
            && sh.toServer[k] == (if injects then cfg.injectReturning(x.sql).value else x.sql)
            && AllVisible(cfg, xs[..k]) + Visible(injects && cfg.stealth, x.reply) <= sh.toClient
            && Captured(sh.events, sid)[k] == Answer(expects, x.sql, x.reply)
  {
    TimelyRunsAreFaithful(cfg, sid, xs, moves);
    ExpectedAt(cfg, xs, k);
  }

  /** The same for an answer that describes its rows, sends them and ends: the text that reaches the server,
      the messages that reach the client, and the cells that are captured. */
  lemma PlainExchange(cfg: Config, sid: nat, xs: seq<Exchange>, moves: seq<Move>, k: nat, columns: seq<string>,
                      rows: seq<seq<Cell>>, done: ServerMsg)
    requires Served(cfg, sid, xs, moves) && k < |xs| && xs[k].reply == PlainAnswer(columns, rows, done)
    requires IsDone(done) && forall i :: 0 <= i < |rows| ==> |rows[i]| == |columns|
    ensures var sh, sql := RunFrom(cfg, sid, xs, INITIAL, moves).sh, xs[k].sql;
            var injects := cfg.implicitCapture && !cfg.isCurrvalOrLastval(sql) && cfg.injectReturning(sql).Some?;
            var expects := (cfg.implicitCapture && cfg.isCurrvalOrLastval(sql)) || injects || cfg.hasReturning(sql);
            && |sh.toServer| == |Captured(sh.events, sid)| == |xs|
            && sh.toServer[k] == (if injects then cfg.injectReturning(sql).value else sql)
            && AllVisible(cfg, xs[..k])
                 + (if injects && cfg.stealth then [] else [RowDescription(columns)] + Rows(rows))
                 + [done, ReadyForQuery] <= sh.toClient
            && var a := Captured(sh.events, sid)[k];
               && a.sql == sql && a.error == (if done.ErrorResponse? then Some(done.message) else None)
               && (a.response.Some? <==> expects && done.CommandComplete? && rows != [] && 1 <= |columns| <= 20)
               && (a.response.Some? ==>
                     Tabulates(a.response.value, columns, if |rows| <= 100 then rows else rows[..100]))
  {
    hide Served, Timely, RunFrom;
    var sql := xs[k].sql;
    var injects := cfg.implicitCapture && !cfg.isCurrvalOrLastval(sql) && cfg.injectReturning(sql).Some?;
    var expects := (cfg.implicitCapture && cfg.isCurrvalOrLastval(sql)) || injects || cfg.hasReturning(sql);
    ExchangeByKind(cfg, sid, xs, moves, k);
    PlainVisible(injects && cfg.stealth, columns, rows, done);
    PlainAnswerResponse(expects, sql, columns, rows, done);
    var shown := if injects && cfg.stealth then [] else [RowDescription(columns)] + Rows(rows);
    assert AllVisible(cfg, xs[..k]) + (shown + [done, ReadyForQuery])
        == AllVisible(cfg, xs[..k]) + shown + [done, ReadyForQuery];
  }
}
