/** Runs of one proxied connection under every interleaving of its two relay loops, and what the
    client and the collector see in the end. */
module RelayRuns {
  import opened Wrappers
  import opened CaptureEvents
  import opened Relay
  import Collector

  // A query and the server's complete answer to the text it was sent.
  datatype Exchange = Exchange(sql: string, reply: seq<ServerMsg>)

  // The client waits for the answer to query k before it sends query k + 1; the server answers once
  // it has been sent the query. j counts the messages of the answer that were relayed, and `stage` is
  // how far the next one has come.
  datatype Sys = Sys(sh: Shared, k: nat, pc: Pc, j: nat, stage: Stage)

  const INITIAL: Sys := Sys(FRESH, 0, Start, 0, Receive)

  // One access of either loop to the shared state.
  datatype Move = ClientSide(at: nat) | ServerSide(at: nat)

  predicate HasQuery(plan: Plan, pc: Pc) {
    if plan.injected then !pc.Start? else pc.Done?
  }

  predicate CanReply(cfg: Config, xs: seq<Exchange>, s: Sys) {
    s.k < |xs| && HasQuery(PlanFor(cfg, xs[s.k].sql), s.pc) && s.j < |xs[s.k].reply|
  }

  function Next(cfg: Config, sid: nat, xs: seq<Exchange>, s: Sys, move: Move): Sys {
    if s.k >= |xs| then s
    else
      match move
      case ClientSide(at) =>
        if s.pc.Done? then
          if s.j == |xs[s.k].reply| then Sys(s.sh, s.k + 1, Start, 0, Receive) else s
        else
          var (sh', pc') := ClientMicro(cfg, sid, s.sh, xs[s.k].sql, s.pc, at);
          s.(sh := sh', pc := pc')
      case ServerSide(at) =>
        if CanReply(cfg, xs, s) then
          var (sh', stage') := ServerMicro(sid, s.sh, xs[s.k].reply[s.j], s.stage, at);
          if stage'.Relayed? then s.(sh := sh', j := s.j + 1, stage := Receive) else s.(sh := sh', stage := stage')
        else s
  }

  function RunFrom(cfg: Config, sid: nat, xs: seq<Exchange>, s: Sys, moves: seq<Move>): Sys
    decreases |moves|
  {
    if moves == [] then s else RunFrom(cfg, sid, xs, Next(cfg, sid, xs, s, moves[0]), moves[1..])
  }

  // ---- What the exchanges should lead to, read off the server's answers ----

  predicate Completed(msgs: seq<ServerMsg>) {
    msgs != [] && (IsDone(msgs[|msgs| - 1]) || Completed(msgs[..|msgs| - 1]))
  }

  // The columns of the latest RowDescription.
  function LastColumns(msgs: seq<ServerMsg>): seq<string> {
    if msgs == [] then []
    else match msgs[|msgs| - 1]
         case RowDescription(columns) => Truncate(columns, MAX_RETURNING_COLUMNS)
         case _ => LastColumns(msgs[..|msgs| - 1])
  }

  // The rows since then that have one value per kept column, the first 100 of them.
  function Gathered(msgs: seq<ServerMsg>): seq<seq<Cell>> {
    if msgs == [] then []
    else
      var before := msgs[..|msgs| - 1];
      match msgs[|msgs| - 1]
      case RowDescription(_) => []
      case DataRow(values) =>
        if LastColumns(before) != [] && |values| == |LastColumns(before)| && |Gathered(before)| < MAX_RETURNING_ROWS
        then Gathered(before) + [values] else Gathered(before)
      case _ => Gathered(before)
  }

  // What the client should receive: everything, or everything but the row data that precedes the
  // completion of a hidden query.
  function Visible(hidden: bool, msgs: seq<ServerMsg>): seq<ServerMsg> {
    if msgs == [] then []
    else
      var before, m := msgs[..|msgs| - 1], msgs[|msgs| - 1];
      Visible(hidden, before) + if hidden && IsRowData(m) && !Completed(before) then [] else [m]
  }

  // The part of a captured query that does not depend on the clock.
  datatype Brief = Brief(sql: string, error: Option<string>, response: Option<seq<ResponseRow>>)

  // The capture of a query, fixed by the first completion in its answer; `flag` says if rows are expected.
  function Answer(flag: bool, sql: string, msgs: seq<ServerMsg>): Brief
    requires Completed(msgs)
  {
    var before, m := msgs[..|msgs| - 1], msgs[|msgs| - 1];
    if Completed(before) then Answer(flag, sql, before)
    else match m
         case ErrorResponse(message) => Brief(sql, Some(message), None)
         case _ => Brief(sql, None, if flag && Gathered(before) != []
                                    then Some(RenderRows(LastColumns(before), Gathered(before))) else None)
  }

  // Each answer ends with its only ReadyForQuery and completes its query at least once.
  predicate Answered(x: Exchange) {
    && |x.reply| > 0 && x.reply[|x.reply| - 1].ReadyForQuery?
    && (forall i :: 0 <= i < |x.reply| - 1 ==> !x.reply[i].ReadyForQuery?)
    && Completed(x.reply)
  }

  predicate AllAnswered(xs: seq<Exchange>) {
    forall i :: 0 <= i < |xs| ==> Answered(xs[i])
  }

  // The answer to a query that returns one row.
  function OneRow(column: string, value: string): seq<ServerMsg> {
    [RowDescription([column]), DataRow([Some(value)]), CommandComplete("OK"), ReadyForQuery]
  }

  function AllVisible(cfg: Config, xs: seq<Exchange>): seq<ServerMsg> {
    if xs == [] then []
    else
      var x := xs[|xs| - 1];
      AllVisible(cfg, xs[..|xs| - 1]) + Visible(PlanFor(cfg, x.sql).hidden, x.reply)
  }

  function AllSent(cfg: Config, xs: seq<Exchange>): seq<string> {
    if xs == [] then [] else AllSent(cfg, xs[..|xs| - 1]) + [PlanFor(cfg, xs[|xs| - 1].sql).sent]
  }

  function AllCaptured(cfg: Config, xs: seq<Exchange>): (r: seq<Brief>)
    requires AllAnswered(xs)
    ensures |r| == |xs|
  {
    if xs == [] then []
    else
      var x := xs[|xs| - 1];
      AllCaptured(cfg, xs[..|xs| - 1]) + [Answer(PlanFor(cfg, x.sql).flag, x.sql, x.reply)]
  }

  // What the collector holds for the connection.
  ghost function Captured(events: seq<Event>, sid: nat): seq<Brief> {
    var m := Collector.Run(events);
    if sid in m
    then seq(|m[sid].queries|, i requires 0 <= i < |m[sid].queries| =>
           Brief(m[sid].queries[i].sql, m[sid].queries[i].error, m[sid].queries[i].response))
    else []
  }

  ghost function Pending(events: seq<Event>, sid: nat): Option<string> {
    var m := Collector.Run(events);
    if sid in m && m[sid].pending.Some? then Some(m[sid].pending.value.0) else None
  }

  ghost predicate Correct(cfg: Config, sid: nat, xs: seq<Exchange>, sh: Shared)
    requires AllAnswered(xs)
  {
    && sh.toClient == AllVisible(cfg, xs)
    && Captured(sh.events, sid) == AllCaptured(cfg, xs)
  }

  // ---- How the collector reacts, in brief ----

  lemma CaptureStart(events: seq<Event>, sid: nat, sql: string, at: nat)
    ensures Captured(events + [QueryStart(sid, sql, at)], sid) == Captured(events, sid)
    ensures Pending(events + [QueryStart(sid, sql, at)], sid) == Some(sql)
  {
    Collector.RunAppend(events, QueryStart(sid, sql, at));
  }

  lemma CaptureDone(events: seq<Event>, sid: nat, e: Event)
    requires IsCompletion(e) && e.sid == sid
    ensures Pending(events + [e], sid).None?
    ensures Captured(events + [e], sid) == Captured(events, sid) +
      match Pending(events, sid)
      case None => []
      case Some(sql) => [Brief(sql, if e.QueryError? then Some(e.message) else None, None)]
  {
    Collector.RunAppend(events, e);
  }

  lemma CaptureReturning(events: seq<Event>, sid: nat, columns: seq<string>, rows: seq<seq<Cell>>)
    ensures var e := QueryReturning(sid, columns, rows);
            && Pending(events + [e], sid) == Pending(events, sid)
            && |Captured(events + [e], sid)| == |Captured(events, sid)|
            && (Captured(events, sid) != [] ==>
                  var c := Captured(events, sid);
                  Captured(events + [e], sid) == c[|c| - 1 := c[|c| - 1].(response := Some(RenderRows(columns, rows)))])
  {
    Collector.RunAppend(events, QueryReturning(sid, columns, rows));
  }

  // ---- Timely runs ----

  // Nothing that follows makes the collector report a row under the columns in force.
  predicate Wasted(columns: seq<string>, rows: seq<seq<Cell>>, rest: seq<ServerMsg>)
    decreases |rest|
  {
    if rest == [] then true
    else
      match rest[0]
      case RowDescription(_) => true
      case DataRow(values) => Wasted(columns, WithRow(columns, rows, values), rest[1..])
      case CommandComplete(_) => rows == []
      case ErrorResponse(_) => true
      case _ => Wasted(columns, rows, rest[1..])
  }

  function WithRow(columns: seq<string>, rows: seq<seq<Cell>>, values: seq<Cell>): seq<seq<Cell>> {
    if columns != [] && |values| == |columns| && |rows| < MAX_RETURNING_ROWS then rows + [values] else rows
  }

  // The row description at j of an answer, if it is one, leads to no reported row.
  predicate Fruitless(reply: seq<ServerMsg>, j: nat)
    requires j < |reply|
  {
    reply[j].RowDescription? ==> Wasted(Truncate(reply[j].columns, MAX_RETURNING_COLUMNS), [], reply[j + 1..])
  }

  // Is the client-to-server loop far enough with an injected query for this access of the other loop?
  //  - A row description that leads to a reported row is taken after the flag is queued.
  //  - Row data of a hidden query is forwarded after the suppress flag is raised.
  //  - An error takes the flag off the queue after it is queued, and lowers the suppress flag after it
  //    is raised.
  //  - The event that closes the query is sent after the event that opens it.
  predicate Prepared(plan: Plan, pc: Pc, reply: seq<ServerMsg>, j: nat, stage: Stage)
    requires j < |reply|
  {
    var m := reply[j];
    var raised := plan.hidden ==> pc.Armed? || pc.Done?;
    !plan.injected ||
    (match stage
     case Receive =>
       if m.CommandComplete? then pc.Done?
       else if m.ErrorResponse? then !pc.Written?
       else pc.Written? ==> Fruitless(reply, j)
     case Clearing => raised
     case Reporting => pc.Done?
     case Forward => IsRowData(m) ==> raised
     case _ => true)
  }

  predicate TimelyMove(cfg: Config, xs: seq<Exchange>, s: Sys, move: Move) {
    move.ServerSide? && CanReply(cfg, xs, s) ==>
      Prepared(PlanFor(cfg, xs[s.k].sql), s.pc, xs[s.k].reply, s.j, s.stage)
  }

  predicate Timely(cfg: Config, sid: nat, xs: seq<Exchange>, s: Sys, moves: seq<Move>)
    decreases |moves|
  {
    moves == [] ||
    (TimelyMove(cfg, xs, s, moves[0]) && Timely(cfg, sid, xs, Next(cfg, sid, xs, s, moves[0]), moves[1..]))
  }

  // ---- The shared state during a query ----

  predicate QueueHasFlag(pc: Pc) {
    !pc.Start? && !pc.Written?
  }

  predicate AnnouncedQuery(plan: Plan, pc: Pc) {
    pc.Done? || (!plan.injected && pc.Announced?)
  }

  // How far the answer to one query has come.
  datatype Progress = Progress(
    empty: bool, done: bool, columns: seq<string>, rows: seq<seq<Cell>>, visible: seq<ServerMsg>, captured: seq<Brief>)

  function ProgressOf(plan: Plan, sql: string, msgs: seq<ServerMsg>): Progress {
    Progress(msgs == [], Completed(msgs), LastColumns(msgs), Gathered(msgs), Visible(plan.hidden, msgs),
             if Completed(msgs) then [Answer(plan.flag, sql, msgs)] else [])
  }

  function Advance(plan: Plan, sql: string, p: Progress, m: ServerMsg): Progress {
    Progress(
      false, p.done || IsDone(m),
      if m.RowDescription? then Truncate(m.columns, MAX_RETURNING_COLUMNS) else p.columns,
      if m.RowDescription? then [] else if m.DataRow? then WithRow(p.columns, p.rows, m.values) else p.rows,
      p.visible + (if plan.hidden && IsRowData(m) && !p.done then [] else [m]),
      if p.done || !IsDone(m) then p.captured
      else if m.ErrorResponse? then [Brief(sql, Some(m.message), None)]
      else [Brief(sql, None, if plan.flag && p.rows != [] then Some(RenderRows(p.columns, p.rows)) else None)])
  }

  lemma ProgressAppend(plan: Plan, sql: string, msgs: seq<ServerMsg>, m: ServerMsg)
    ensures ProgressOf(plan, sql, msgs + [m]) == Advance(plan, sql, ProgressOf(plan, sql, msgs), m)
  {
    assert (msgs + [m])[..|msgs|] == msgs;
  }

  lemma ProgressNext(plan: Plan, sql: string, reply: seq<ServerMsg>, j: nat)
    requires j < |reply|
    ensures ProgressOf(plan, sql, reply[..j + 1]) == Advance(plan, sql, ProgressOf(plan, sql, reply[..j]), reply[j])
    ensures reply[j..] == [reply[j]] + reply[j + 1..]
  {
    ProgressAppend(plan, sql, reply[..j], reply[j]);
    assert reply[..j] + [reply[j]] == reply[..j + 1];
  }

  // The pending columns and rows are those of the answer so far, or were missed because the row
  // description came before the flag, and then nothing comes of them.
  ghost predicate Buffers(plan: Plan, sh: Shared, p: Progress, rest: seq<ServerMsg>) {
    if !plan.flag || p.done then sh.columns == [] && sh.rows == []
    else
      || (sh.columns == p.columns && sh.rows == p.rows)
      || (plan.injected && sh.columns == [] && sh.rows == [] && Wasted(p.columns, p.rows, rest))
  }

  // The relay fields of the shared state while a query is under way; `rest` is still to be captured
  // and `visible` has been forwarded.
  ghost predicate Relaying(plan: Plan, sh: Shared, pc: Pc, p: Progress, rest: seq<ServerMsg>,
                           visible: seq<ServerMsg>, seen: seq<ServerMsg>, sent: seq<string>)
  {
    && (plan.injected ==> plan.flag && !pc.Queued? && !pc.Announced?)
    && (!plan.injected ==> !plan.hidden && !pc.Written? && !pc.Pushed? && !pc.Armed?)
    && (!HasQuery(plan, pc) ==> p.empty)
    && (p.empty ==> !p.done && p.columns == [] && p.rows == [])
    && (p.done ==> pc.Done?)
    && (pc.Written? ==> sh.columns == [] && sh.rows == [])
    && sh.queue == (if QueueHasFlag(pc) && !p.done then [plan.flag] else [])
    && Buffers(plan, sh, p, rest)
    && sh.suppress == (plan.hidden && (pc.Armed? || pc.Done?) && !p.done)
    && sh.toServer == sent + (if HasQuery(plan, pc) then [plan.sent] else [])
    && sh.toClient == seen + visible
  }

  // What the collector makes of the events so far.
  ghost predicate Recording(plan: Plan, sid: nat, sql: string, events: seq<Event>, pc: Pc, p: Progress,
                            captured: seq<Brief>)
  {
    && Captured(events, sid) == captured + p.captured
    && (!p.done ==> p.captured == [])
    && Pending(events, sid) == (if AnnouncedQuery(plan, pc) && !p.done then Some(sql) else None)
  }

  // j messages of the answer have been captured, `visible` of it has been forwarded.
  ghost predicate Underway(plan: Plan, sid: nat, sh: Shared, x: Exchange, pc: Pc, j: nat, visible: seq<ServerMsg>,
                           seen: seq<ServerMsg>, sent: seq<string>, captured: seq<Brief>)
    requires j <= |x.reply|
  {
    var p := ProgressOf(plan, x.sql, x.reply[..j]);
    && Relaying(plan, sh, pc, p, x.reply[j..], visible, seen, sent)
    && Recording(plan, sid, x.sql, sh.events, pc, p, captured)
  }

  // Between two messages of the answer.
  ghost predicate During(cfg: Config, sid: nat, sh: Shared, x: Exchange, pc: Pc, j: nat,
                         seen: seq<ServerMsg>, sent: seq<string>, captured: seq<Brief>)
    requires j <= |x.reply|
  {
    var plan := PlanFor(cfg, x.sql);
    Underway(plan, sid, sh, x, pc, j, Visible(plan.hidden, x.reply[..j]), seen, sent, captured)
  }

  lemma ClientStep(cfg: Config, sid: nat, sh: Shared, x: Exchange, pc: Pc, j: nat, visible: seq<ServerMsg>,
                   seen: seq<ServerMsg>, sent: seq<string>, captured: seq<Brief>, at: nat)
    requires j <= |x.reply| && !pc.Done?
    requires Underway(PlanFor(cfg, x.sql), sid, sh, x, pc, j, visible, seen, sent, captured)
    ensures var (sh', pc') := ClientMicro(cfg, sid, sh, x.sql, pc, at);
            Underway(PlanFor(cfg, x.sql), sid, sh', x, pc', j, visible, seen, sent, captured)
  {
    if pc.Queued? || pc.Armed? { CaptureStart(sh.events, sid, x.sql, at); }
  }

  // ---- One message at a time ----

  // Taking up a message that does not complete the query.
  lemma TakeUp(plan: Plan, sid: nat, sql: string, sh: Shared, pc: Pc, p: Progress, m: ServerMsg, rest: seq<ServerMsg>,
               visible: seq<ServerMsg>, seen: seq<ServerMsg>, sent: seq<string>, at: nat)
    requires Relaying(plan, sh, pc, p, [m] + rest, visible, seen, sent) && HasQuery(plan, pc) && !IsDone(m)
    requires pc.Written? && m.RowDescription? ==> Wasted(Truncate(m.columns, MAX_RETURNING_COLUMNS), [], rest)
    ensures var sh' := CaptureReply(sid, sh, m, at);
            && Relaying(plan, sh', pc, Advance(plan, sql, p, m), rest, visible, seen, sent)
            && sh'.events == sh.events
  {
    assert ([m] + rest)[1..] == rest;
  }

  // Forwarding it.
  lemma HandOn(plan: Plan, sql: string, sh: Shared, pc: Pc, p: Progress, m: ServerMsg, rest: seq<ServerMsg>,
               seen: seq<ServerMsg>, sent: seq<string>)
    requires Relaying(plan, sh, pc, Advance(plan, sql, p, m), rest, p.visible, seen, sent) && !IsDone(m)
    requires plan.hidden && IsRowData(m) ==> pc.Armed? || pc.Done?
    ensures Relaying(plan, ForwardReply(sh, m), pc, Advance(plan, sql, p, m), rest, Advance(plan, sql, p, m).visible,
                     seen, sent)
  {
  }

  // Relaying a message that completes the query, once the query is announced.
  lemma RelayDone(plan: Plan, sid: nat, sql: string, sh: Shared, p: Progress, m: ServerMsg, rest: seq<ServerMsg>,
                  seen: seq<ServerMsg>, sent: seq<string>, at: nat)
    requires Relaying(plan, sh, Done, p, [m] + rest, p.visible, seen, sent) && IsDone(m)
    ensures Relaying(plan, Reply(sid, sh, m, at), Done, Advance(plan, sql, p, m), rest,
                     Advance(plan, sql, p, m).visible,
                     seen, sent)
  {
  }

  lemma RecordComplete(plan: Plan, sid: nat, sql: string, sh: Shared, tag: string, p: Progress,
                       captured: seq<Brief>, at: nat)
    requires Recording(plan, sid, sql, sh.events, Done, p, captured)
    requires sh.queue == if p.done then [] else [plan.flag]
    requires !p.done && plan.flag ==> (sh.columns == p.columns && sh.rows == p.rows) || sh.rows == p.rows == []
    ensures Recording(plan, sid, sql, CaptureReply(sid, sh, CommandComplete(tag), at).events, Done,
                      Advance(plan, sql, p, CommandComplete(tag)), captured)
  {
    var events := sh.events + [QueryComplete(sid, at)];
    CaptureDone(sh.events, sid, QueryComplete(sid, at));
    var after := CaptureReply(sid, sh, CommandComplete(tag), at).events;
    if !p.done && plan.flag && p.rows != [] {
      CaptureReturning(events, sid, sh.columns, sh.rows);
      var c := Captured(events, sid);
      assert c == captured + [Brief(sql, None, None)];
      assert c[|c| - 1 := c[|c| - 1].(response := Some(RenderRows(sh.columns, sh.rows)))]
          == captured + [Brief(sql, None, Some(RenderRows(sh.columns, sh.rows)))];
      assert after == events + [QueryReturning(sid, sh.columns, sh.rows)];
    } else {
      assert after == events + [] == events;
      assert captured + p.captured + [] == captured + p.captured;
    }
  }

  lemma RecordDone(plan: Plan, sid: nat, sql: string, sh: Shared, p: Progress, m: ServerMsg, rest: seq<ServerMsg>,
                   seen: seq<ServerMsg>, sent: seq<string>, captured: seq<Brief>, at: nat)
    requires Relaying(plan, sh, Done, p, [m] + rest, p.visible, seen, sent) && IsDone(m)
    requires Recording(plan, sid, sql, sh.events, Done, p, captured)
    ensures Recording(plan, sid, sql, Reply(sid, sh, m, at).events, Done, Advance(plan, sql, p, m), captured)
  {
    assert Reply(sid, sh, m, at).events == CaptureReply(sid, sh, m, at).events;
    if m.CommandComplete? {
      RecordComplete(plan, sid, sql, sh, m.tag, p, captured, at);
    } else {
      CaptureDone(sh.events, sid, QueryError(sid, m.message, at));
    }
  }

  // Relaying a whole message without interference, once the query is announced.
  lemma DuringReply(cfg: Config, sid: nat, sh: Shared, x: Exchange, j: nat,
                    seen: seq<ServerMsg>, sent: seq<string>, captured: seq<Brief>, at: nat)
    requires j < |x.reply| && During(cfg, sid, sh, x, Done, j, seen, sent, captured)
    ensures During(cfg, sid, Reply(sid, sh, x.reply[j], at), x, Done, j + 1, seen, sent, captured)
  {
    var plan, m, rest := PlanFor(cfg, x.sql), x.reply[j], x.reply[j + 1..];
    var p := ProgressOf(plan, x.sql, x.reply[..j]);
    ProgressNext(plan, x.sql, x.reply, j);
    if IsDone(m) {
      RelayDone(plan, sid, x.sql, sh, p, m, rest, seen, sent, at);
      RecordDone(plan, sid, x.sql, sh, p, m, rest, seen, sent, captured, at);
    } else {
      TakeUp(plan, sid, x.sql, sh, Done, p, m, rest, p.visible, seen, sent, at);
      HandOn(plan, x.sql, CaptureReply(sid, sh, m, at), Done, p, m, rest, seen, sent);
    }
  }

  // ---- In the middle of a message ----

  // The query is announced, and whenever the message is finished all is well.
  ghost predicate Ahead(cfg: Config, sid: nat, sh: Shared, x: Exchange, j: nat, stage: Stage,
                        seen: seq<ServerMsg>, sent: seq<string>, captured: seq<Brief>)
    requires j < |x.reply|
  {
    forall at: nat ::
      During(cfg, sid, FinishReply(sid, sh, x.reply[j], stage, at), x, Done, j + 1, seen, sent, captured)
  }

  // What an error's steps have changed so far, undone.
  function Undone(plan: Plan, sh: Shared, p: Progress, stage: Stage): Shared {
    if stage.Clearing? then sh.(queue := [plan.flag])
    else sh.(queue := [plan.flag], columns := p.columns, rows := p.rows, suppress := plan.hidden)
  }

  // An error is being relayed and the query is not yet announced.
  ghost predicate Failing(cfg: Config, sid: nat, sh: Shared, x: Exchange, pc: Pc, j: nat, stage: Stage,
                          seen: seq<ServerMsg>, sent: seq<string>, captured: seq<Brief>)
    requires j < |x.reply|
  {
    var plan := PlanFor(cfg, x.sql);
    && (stage.Clearing? || stage.Reporting?) && (pc.Pushed? || pc.Armed?) && plan.injected
    && sh.queue == []
    && (stage.Reporting? ==> sh.columns == [] && sh.rows == [] && !sh.suppress && (plan.hidden ==> pc.Armed?))
    && During(cfg, sid, Undone(plan, sh, ProgressOf(plan, x.sql, x.reply[..j]), stage), x, pc, j, seen, sent, captured)
  }

  ghost predicate Midway(cfg: Config, sid: nat, sh: Shared, x: Exchange, pc: Pc, j: nat, stage: Stage,
                         seen: seq<ServerMsg>, sent: seq<string>, captured: seq<Brief>)
    requires j < |x.reply|
  {
    var plan, m := PlanFor(cfg, x.sql), x.reply[j];
    && HasQuery(plan, pc) && StageOf(m, stage)
    && (if !IsDone(m) then
          && stage.Forward?
          && Underway(plan, sid, sh, x, pc, j + 1, Visible(plan.hidden, x.reply[..j]), seen, sent, captured)
        else if pc.Done? then Ahead(cfg, sid, sh, x, j, stage, seen, sent, captured)
        else m.ErrorResponse? && Failing(cfg, sid, sh, x, pc, j, stage, seen, sent, captured))
  }

  // The whole of what holds at any point of a query.
  ghost predicate Amid(cfg: Config, sid: nat, sh: Shared, x: Exchange, pc: Pc, j: nat, stage: Stage,
                       seen: seq<ServerMsg>, sent: seq<string>, captured: seq<Brief>)
  {
    && j <= |x.reply| && !stage.Relayed?
    && if stage.Receive? then During(cfg, sid, sh, x, pc, j, seen, sent, captured)
       else j < |x.reply| && Midway(cfg, sid, sh, x, pc, j, stage, seen, sent, captured)
  }

  lemma AheadStep(cfg: Config, sid: nat, sh: Shared, x: Exchange, j: nat, stage: Stage,
                  seen: seq<ServerMsg>, sent: seq<string>, captured: seq<Brief>, at: nat)
    requires j < |x.reply| && StageOf(x.reply[j], stage) && Ahead(cfg, sid, sh, x, j, stage, seen, sent, captured)
    ensures var (sh', stage') := ServerMicro(sid, sh, x.reply[j], stage, at);
            StageOf(x.reply[j], stage') && Ahead(cfg, sid, sh', x, j, stage', seen, sent, captured)
  {
    var (sh', stage') := ServerMicro(sid, sh, x.reply[j], stage, at);
    forall later: nat
      ensures During(cfg, sid, FinishReply(sid, sh', x.reply[j], stage', later), x, Done, j + 1, seen, sent, captured)
    {
      ReplyInSteps(sid, sh, x.reply[j], stage, at, later);
    }
    ReplyInSteps(sid, sh, x.reply[j], stage, at, 0);
  }

  // The first step of a message.
  lemma ReceiveStep(cfg: Config, sid: nat, sh: Shared, x: Exchange, pc: Pc, j: nat,
                    seen: seq<ServerMsg>, sent: seq<string>, captured: seq<Brief>, at: nat)
    requires j < |x.reply| && During(cfg, sid, sh, x, pc, j, seen, sent, captured) && HasQuery(PlanFor(cfg, x.sql), pc)
    requires Prepared(PlanFor(cfg, x.sql), pc, x.reply, j, Receive)
    ensures var (sh', stage') := ServerMicro(sid, sh, x.reply[j], Receive, at);
            !stage'.Relayed? && Midway(cfg, sid, sh', x, pc, j, stage', seen, sent, captured)
  {
    var plan, m := PlanFor(cfg, x.sql), x.reply[j];
    var p := ProgressOf(plan, x.sql, x.reply[..j]);
    ProgressNext(plan, x.sql, x.reply, j);
    if !IsDone(m) {
      TakeUp(plan, sid, x.sql, sh, pc, p, m, x.reply[j + 1..], p.visible, seen, sent, at);
    } else if pc.Done? {
      forall later: nat
        ensures During(cfg, sid, FinishReply(sid, sh, m, Receive, later), x, Done, j + 1, seen, sent, captured)
      {
        DuringReply(cfg, sid, sh, x, j, seen, sent, captured, later);
      }
      AheadStep(cfg, sid, sh, x, j, Receive, seen, sent, captured, at);
    } else {
      FailingStarts(cfg, sid, sh, x, pc, j, seen, sent, captured);
    }
  }

  lemma FailingStarts(cfg: Config, sid: nat, sh: Shared, x: Exchange, pc: Pc, j: nat,
                      seen: seq<ServerMsg>, sent: seq<string>, captured: seq<Brief>)
    requires j < |x.reply| && During(cfg, sid, sh, x, pc, j, seen, sent, captured) && HasQuery(PlanFor(cfg, x.sql), pc)
    requires !pc.Done? && !pc.Written?
    ensures Failing(cfg, sid, sh.(queue := Tail(sh.queue)), x, pc, j, Clearing, seen, sent, captured)
  {
    var plan := PlanFor(cfg, x.sql);
    assert sh.queue == [plan.flag] && Tail(sh.queue) == [];
    assert Undone(plan, sh.(queue := []), ProgressOf(plan, x.sql, x.reply[..j]), Clearing) == sh;
  }

  lemma FailingStep(cfg: Config, sid: nat, sh: Shared, x: Exchange, pc: Pc, j: nat, stage: Stage,
                    seen: seq<ServerMsg>, sent: seq<string>, captured: seq<Brief>, at: nat)
    requires j < |x.reply| && Failing(cfg, sid, sh, x, pc, j, stage, seen, sent, captured)
    requires Prepared(PlanFor(cfg, x.sql), pc, x.reply, j, stage)
    ensures stage.Clearing?
    ensures Failing(cfg, sid, ServerMicro(sid, sh, x.reply[j], stage, at).0, x, pc, j, Reporting, seen, sent, captured)
  {
  }

  // Any further step of a message.
  lemma MidwayStep(cfg: Config, sid: nat, sh: Shared, x: Exchange, pc: Pc, j: nat, stage: Stage,
                   seen: seq<ServerMsg>, sent: seq<string>, captured: seq<Brief>, at: nat)
    requires j < |x.reply| && !stage.Receive? && !stage.Relayed?
    requires Midway(cfg, sid, sh, x, pc, j, stage, seen, sent, captured)
    requires Prepared(PlanFor(cfg, x.sql), pc, x.reply, j, stage)
    ensures var (sh', stage') := ServerMicro(sid, sh, x.reply[j], stage, at);
            if stage'.Relayed? then During(cfg, sid, sh', x, pc, j + 1, seen, sent, captured)
            else !stage'.Receive? && Midway(cfg, sid, sh', x, pc, j, stage', seen, sent, captured)
  {
    var plan, m := PlanFor(cfg, x.sql), x.reply[j];
    if !IsDone(m) {
      ProgressNext(plan, x.sql, x.reply, j);
      HandOn(plan, x.sql, sh, pc, ProgressOf(plan, x.sql, x.reply[..j]), m, x.reply[j + 1..], seen, sent);
    } else if pc.Done? {
      AheadStep(cfg, sid, sh, x, j, stage, seen, sent, captured, at);
      var (sh', stage') := ServerMicro(sid, sh, m, stage, at);
      assert FinishReply(sid, sh', m, Relayed, 0) == sh';
    } else {
      FailingStep(cfg, sid, sh, x, pc, j, stage, seen, sent, captured, at);
    }
  }

  // A step of the client-to-server loop while an error is being relayed.
  lemma FailingClient(cfg: Config, sid: nat, sh: Shared, x: Exchange, pc: Pc, j: nat, stage: Stage,
                      seen: seq<ServerMsg>, sent: seq<string>, captured: seq<Brief>, at: nat)
    requires j < |x.reply| && x.reply[j].ErrorResponse?
    requires Failing(cfg, sid, sh, x, pc, j, stage, seen, sent, captured)
    ensures var (sh', pc') := ClientMicro(cfg, sid, sh, x.sql, pc, at);
            if pc'.Done? then Ahead(cfg, sid, sh', x, j, stage, seen, sent, captured)
            else Failing(cfg, sid, sh', x, pc', j, stage, seen, sent, captured)
  {
    var plan, m := PlanFor(cfg, x.sql), x.reply[j];
    var p := ProgressOf(plan, x.sql, x.reply[..j]);
    var before := Undone(plan, sh, p, stage);
    var (sh', pc') := ClientMicro(cfg, sid, sh, x.sql, pc, at);
    var (after, _) := ClientMicro(cfg, sid, before, x.sql, pc, at);
    ClientStep(cfg, sid, before, x, pc, j, Visible(plan.hidden, x.reply[..j]), seen, sent, captured, at);
    if pc'.Done? {
      forall later: nat
        ensures During(cfg, sid, FinishReply(sid, sh', m, stage, later), x, Done, j + 1, seen, sent, captured)
      {
        DuringReply(cfg, sid, after, x, j, seen, sent, captured, later);
        assert FinishReply(sid, sh', m, stage, later) == Reply(sid, after, m, later);
      }
    } else {
      assert Undone(plan, sh', p, stage) == after;
    }
  }

  lemma AmidClient(cfg: Config, sid: nat, sh: Shared, x: Exchange, pc: Pc, j: nat, stage: Stage,
                   seen: seq<ServerMsg>, sent: seq<string>, captured: seq<Brief>, at: nat)
    requires Amid(cfg, sid, sh, x, pc, j, stage, seen, sent, captured) && !pc.Done?
    ensures var (sh', pc') := ClientMicro(cfg, sid, sh, x.sql, pc, at);
            Amid(cfg, sid, sh', x, pc', j, stage, seen, sent, captured)
  {
    var plan := PlanFor(cfg, x.sql);
    if stage.Receive? {
      ClientStep(cfg, sid, sh, x, pc, j, Visible(plan.hidden, x.reply[..j]), seen, sent, captured, at);
    } else if !IsDone(x.reply[j]) {
      ClientStep(cfg, sid, sh, x, pc, j + 1, Visible(plan.hidden, x.reply[..j]), seen, sent, captured, at);
    } else {
      FailingClient(cfg, sid, sh, x, pc, j, stage, seen, sent, captured, at);
    }
  }

  // ---- Runs ----

  // Between queries.
  ghost predicate Idle(cfg: Config, sid: nat, xs: seq<Exchange>, sh: Shared)
    requires AllAnswered(xs)
  {
    && Clean(sh)
    && sh.toServer == AllSent(cfg, xs)
    && Pending(sh.events, sid).None?
    && Correct(cfg, sid, xs, sh)
  }

  ghost predicate Invariant(cfg: Config, sid: nat, xs: seq<Exchange>, s: Sys)
    requires AllAnswered(xs)
  {
    && s.k <= |xs|
    && (s.k == |xs| ==> s.pc.Start? && s.j == 0 && s.stage.Receive? && Idle(cfg, sid, xs, s.sh))
    && (s.k < |xs| ==>
          Amid(cfg, sid, s.sh, xs[s.k], s.pc, s.j, s.stage,
               AllVisible(cfg, xs[..s.k]), AllSent(cfg, xs[..s.k]), AllCaptured(cfg, xs[..s.k])))
  }

  lemma IdleStarts(cfg: Config, sid: nat, xs: seq<Exchange>, sh: Shared, x: Exchange)
    requires AllAnswered(xs)
    ensures Idle(cfg, sid, xs, sh)
       <==> During(cfg, sid, sh, x, Start, 0, AllVisible(cfg, xs), AllSent(cfg, xs), AllCaptured(cfg, xs))
  {
    assert x.reply[..0] == [];
    assert AllVisible(cfg, xs) + [] == AllVisible(cfg, xs) && AllCaptured(cfg, xs) + [] == AllCaptured(cfg, xs);
    assert AllSent(cfg, xs) + [] == AllSent(cfg, xs);
  }

  lemma AnsweredEndsIdle(cfg: Config, sid: nat, xs: seq<Exchange>, sh: Shared, x: Exchange)
    requires AllAnswered(xs) && Answered(x)
    requires During(cfg, sid, sh, x, Done, |x.reply|, AllVisible(cfg, xs), AllSent(cfg, xs), AllCaptured(cfg, xs))
    ensures AllAnswered(xs + [x]) && Idle(cfg, sid, xs + [x], sh)
  {
    assert (xs + [x])[..|xs|] == xs && x.reply[..|x.reply|] == x.reply;
  }

  lemma InvariantInitially(cfg: Config, sid: nat, xs: seq<Exchange>)
    requires AllAnswered(xs)
    ensures Invariant(cfg, sid, xs, INITIAL)
  {
    assert xs[..0] == [];
    if xs != [] { IdleStarts(cfg, sid, [], FRESH, xs[0]); }
  }

  // The client has its answer: the connection is idle and the next query can start.
  lemma InvariantNextQuery(cfg: Config, sid: nat, xs: seq<Exchange>, s: Sys)
    requires AllAnswered(xs) && Invariant(cfg, sid, xs, s)
    requires s.k < |xs| && s.pc.Done? && s.j == |xs[s.k].reply|
    ensures Invariant(cfg, sid, xs, Sys(s.sh, s.k + 1, Start, 0, Receive))
  {
    var x, prior := xs[s.k], xs[..s.k];
    AnsweredEndsIdle(cfg, sid, prior, s.sh, x);
    assert prior + [x] == xs[..s.k + 1];
    if s.k + 1 < |xs| {
      IdleStarts(cfg, sid, xs[..s.k + 1], s.sh, xs[s.k + 1]);
    } else {
      assert xs[..s.k + 1] == xs;
    }
  }

  lemma InvariantServer(cfg: Config, sid: nat, xs: seq<Exchange>, s: Sys, at: nat)
    requires AllAnswered(xs) && Invariant(cfg, sid, xs, s) && CanReply(cfg, xs, s)
    requires Prepared(PlanFor(cfg, xs[s.k].sql), s.pc, xs[s.k].reply, s.j, s.stage)
    ensures Invariant(cfg, sid, xs, Next(cfg, sid, xs, s, ServerSide(at)))
  {
    hide During, Midway, Prepared, Answered, AllVisible, AllSent, AllCaptured;
    var prior := xs[..s.k];
    if s.stage.Receive? {
      ReceiveStep(cfg, sid, s.sh, xs[s.k], s.pc, s.j, AllVisible(cfg, prior), AllSent(cfg, prior),
                  AllCaptured(cfg, prior), at);
    } else {
      MidwayStep(cfg, sid, s.sh, xs[s.k], s.pc, s.j, s.stage, AllVisible(cfg, prior), AllSent(cfg, prior),
                 AllCaptured(cfg, prior), at);
    }
  }

  lemma InvariantNext(cfg: Config, sid: nat, xs: seq<Exchange>, s: Sys, move: Move)
    requires AllAnswered(xs) && Invariant(cfg, sid, xs, s) && TimelyMove(cfg, xs, s, move)
    ensures Invariant(cfg, sid, xs, Next(cfg, sid, xs, s, move))
  {
    if s.k < |xs| {
      if move.ServerSide? {
        if CanReply(cfg, xs, s) { InvariantServer(cfg, sid, xs, s, move.at); }
      } else if !s.pc.Done? {
        var prior := xs[..s.k];
        AmidClient(cfg, sid, s.sh, xs[s.k], s.pc, s.j, s.stage, AllVisible(cfg, prior), AllSent(cfg, prior),
                   AllCaptured(cfg, prior), move.at);
      } else if s.j == |xs[s.k].reply| {
        InvariantNextQuery(cfg, sid, xs, s);
      }
    }
  }

  lemma {:induction false} InvariantRun(cfg: Config, sid: nat, xs: seq<Exchange>, s: Sys, moves: seq<Move>)
    requires AllAnswered(xs) && Invariant(cfg, sid, xs, s) && Timely(cfg, sid, xs, s, moves)
    ensures Invariant(cfg, sid, xs, RunFrom(cfg, sid, xs, s, moves))
    decreases |moves|
  {
    if moves == [] {
    } else {
      InvariantNext(cfg, sid, xs, s, moves[0]);
      InvariantRun(cfg, sid, xs, Next(cfg, sid, xs, s, moves[0]), moves[1..]);
    }
  }

  /** In every timely run, whenever no message is half relayed: the client has received exactly the visible
      part of what the server sent, the server exactly the planned texts, and the collector holds one query
      per completed exchange with its own answer; the shared state is clean at every ReadyForQuery. */
  lemma TimelyRunsAreFaithful(cfg: Config, sid: nat, xs: seq<Exchange>, moves: seq<Move>)
    requires AllAnswered(xs) && Timely(cfg, sid, xs, INITIAL, moves)
    ensures var s := RunFrom(cfg, sid, xs, INITIAL, moves);
            && s.k <= |xs|
            && (s.k == |xs| ==> Clean(s.sh) && s.sh.toServer == AllSent(cfg, xs) && Correct(cfg, sid, xs, s.sh))
            && (s.k < |xs| && s.stage.Receive? ==>
                  var plan, msgs := PlanFor(cfg, xs[s.k].sql), Truncate(xs[s.k].reply, s.j);
                  && s.sh.toClient == AllVisible(cfg, xs[..s.k]) + Visible(plan.hidden, msgs)
                  && Captured(s.sh.events, sid) == AllCaptured(cfg, xs[..s.k])
                       + (if Completed(msgs) then [Answer(plan.flag, xs[s.k].sql, msgs)] else [])
                  && (s.j == |xs[s.k].reply| ==> Clean(s.sh)))
  {
    InvariantInitially(cfg, sid, xs);
    InvariantRun(cfg, sid, xs, INITIAL, moves);
    var s := RunFrom(cfg, sid, xs, INITIAL, moves);
    if s.k < |xs| {
      assert Truncate(xs[s.k].reply, s.j) == xs[s.k].reply[..s.j];
      if s.j == |xs[s.k].reply| { assert xs[s.k].reply[..s.j] == xs[s.k].reply; }
    }
  }

  method RelayExchange(c: Connection, x: Exchange, at: nat, ghost prior: seq<Exchange>)
    requires AllAnswered(prior) && Answered(x) && Idle(c.cfg, c.sid, prior, c.View())
    modifies c
    ensures AllAnswered(prior + [x]) && Idle(c.cfg, c.sid, prior + [x], c.View())
  {
    ghost var seen, sent, captured := AllVisible(c.cfg, prior), AllSent(c.cfg, prior), AllCaptured(c.cfg, prior);
    IdleStarts(c.cfg, c.sid, prior, c.View(), x);
    DuringFinish(c.cfg, c.sid, c.View(), x, Start, seen, sent, captured, at);
    c.RelayQuery(x.sql, at);
    for j := 0 to |x.reply|
      invariant During(c.cfg, c.sid, c.View(), x, Done, j, seen, sent, captured)
    {
      DuringReply(c.cfg, c.sid, c.View(), x, j, seen, sent, captured, at);
      c.RelayReply(x.reply[j], at);
    }
    AnsweredEndsIdle(c.cfg, c.sid, prior, c.View(), x);
  }

  /** The two loops of a real connection, one query at a time, reach exactly that state. */
  method RelayAll(c: Connection, xs: seq<Exchange>, at: nat)
    requires AllAnswered(xs) && c.View() == FRESH
    modifies c
    ensures Clean(c.View()) && Correct(c.cfg, c.sid, xs, c.View())
  {
    for k := 0 to |xs|
      invariant Idle(c.cfg, c.sid, xs[..k], c.View())
    {
      RelayExchange(c, xs[k], at, xs[..k]);
      assert xs[..k] + [xs[k]] == xs[..k + 1];
    }
    assert xs[..|xs|] == xs;
  }

  lemma DuringFinish(cfg: Config, sid: nat, sh: Shared, x: Exchange, pc: Pc,
                     seen: seq<ServerMsg>, sent: seq<string>, captured: seq<Brief>, at: nat)
    requires During(cfg, sid, sh, x, pc, 0, seen, sent, captured)
    ensures During(cfg, sid, Finish(cfg, sid, sh, x.sql, pc, at), x, Done, 0, seen, sent, captured)
    decreases match pc case Start => 4 case Queued => 2 case Announced => 1 case Written => 3 case Pushed => 2
              case Armed => 1 case Done => 0
  {
    if !pc.Done? {
      ClientStep(cfg, sid, sh, x, pc, 0, Visible(PlanFor(cfg, x.sql).hidden, x.reply[..0]), seen, sent, captured, at);
      var (sh', pc') := ClientMicro(cfg, sid, sh, x.sql, pc, at);
      DuringFinish(cfg, sid, sh', x, pc', seen, sent, captured, at);
    }
  }
}
