/** Which interleavings of the two relay loops are harmless: a complete run is right after every exchange
    exactly if no step for an injected query comes too early. */
module RelayRaces {
  import opened Wrappers
  import opened CaptureEvents
  import opened Relay
  import opened RelayAnswers
  import opened RelayRuns
  import Collector

  // The answer of a single statement: one completion, and no row data after it.
  predicate Single(reply: seq<ServerMsg>) {
    forall i, j :: 0 <= i < j < |reply| && IsDone(reply[i]) ==> !IsDone(reply[j]) && !IsRowData(reply[j])
  }

  // Injection only ever rewrites a single INSERT.
  predicate InjectedSingle(cfg: Config, xs: seq<Exchange>) {
    forall i :: 0 <= i < |xs| && PlanFor(cfg, xs[i].sql).injected ==> Single(xs[i].reply)
  }

  // Whenever a query has been answered, the client has seen and the collector holds the right things
  // and nothing is left over in the shared state.
  ghost predicate Faithful(cfg: Config, sid: nat, xs: seq<Exchange>, s: Sys, moves: seq<Move>)
    requires AllAnswered(xs)
    decreases |moves|
  {
    && (s.k <= |xs| && s.pc.Start? ==> Idle(cfg, sid, xs[..s.k], s.sh))
    && (moves == [] || Faithful(cfg, sid, xs, Next(cfg, sid, xs, s, moves[0]), moves[1..]))
  }

  // ---- The completion of an answer ----

  lemma CompletedAppend(reply: seq<ServerMsg>, j: nat)
    requires j < |reply|
    ensures Completed(reply[..j + 1]) <==> Completed(reply[..j]) || IsDone(reply[j])
  {
    assert reply[..j + 1][..j] == reply[..j];
  }

  lemma CompletedHas(msgs: seq<ServerMsg>)
    requires Completed(msgs)
    ensures exists i :: 0 <= i < |msgs| && IsDone(msgs[i])
  {
    var n := |msgs| - 1;
    if !IsDone(msgs[n]) {
      CompletedHas(msgs[..n]);
      var i :| 0 <= i < n && IsDone(msgs[..n][i]);
      assert IsDone(msgs[i]);
    }
  }

  // The index of the first completion.
  function DoneAt(msgs: seq<ServerMsg>): (d: nat)
    ensures d <= |msgs|
  {
    if msgs == [] || IsDone(msgs[0]) then 0 else 1 + DoneAt(msgs[1..])
  }

  lemma {:induction false} DoneAtIsFirst(msgs: seq<ServerMsg>)
    ensures forall i :: 0 <= i < DoneAt(msgs) ==> !IsDone(msgs[i])
    ensures DoneAt(msgs) < |msgs| ==> IsDone(msgs[DoneAt(msgs)])
  {
    if msgs != [] && !IsDone(msgs[0]) {
      DoneAtIsFirst(msgs[1..]);
      forall i | 0 <= i < DoneAt(msgs) ensures !IsDone(msgs[i]) {
        if i > 0 { assert msgs[i] == msgs[1..][i - 1]; }
      }
    }
  }

  // An answer with its only completion at d, and no row data behind it.
  predicate Split(reply: seq<ServerMsg>, d: nat) {
    && d < |reply| && IsDone(reply[d])
    && (forall i :: 0 <= i < |reply| && IsDone(reply[i]) ==> i == d)
    && (forall i :: d < i < |reply| ==> !IsRowData(reply[i]))
  }

  lemma SplitsAt(reply: seq<ServerMsg>)
    requires Completed(reply) && Single(reply)
    ensures Split(reply, DoneAt(reply))
  {
    DoneAtIsFirst(reply);
    CompletedHas(reply);
  }

  lemma {:induction false} NotCompletedBefore(reply: seq<ServerMsg>, d: nat, j: nat)
    requires Split(reply, d) && j <= |reply|
    ensures Completed(reply[..j]) <==> j > d
  {
    if j == 0 {
    } else {
      NotCompletedBefore(reply, d, j - 1);
      CompletedAppend(reply, j - 1);
    }
  }

  // ---- What a premature step leaves behind ----

  // The position of the server-to-client loop in the answer to an injected query.
  predicate Placed(reply: seq<ServerMsg>, pc: Pc, j: nat, stage: Stage) {
    && !pc.Queued? && !pc.Announced? && !pc.Start?
    && j <= |reply| && !stage.Relayed?
    && (!stage.Receive? ==> j < |reply| && StageOf(reply[j], stage))
  }

  // How far the message that completes the query has come: before some stage, or after.
  predicate Sent(reply: seq<ServerMsg>, d: nat, j: nat, stage: Stage)
    requires d < |reply|
  {
    j > d || (j == d && (if reply[d].CommandComplete? then !stage.Receive? else stage.Forward?))
  }

  ghost predicate Deviates(a: seq<ServerMsg>, b: seq<ServerMsg>) {
    exists p :: 0 <= p < |a| && p < |b| && a[p] != b[p]
  }

  // The closing event came before the opening one, and the query is not recorded.
  ghost predicate Unrecorded(sid: nat, sh: Shared, reply: seq<ServerMsg>, d: nat, k: nat, j: nat, stage: Stage)
    requires d < |reply|
  {
    Sent(reply, d, j, stage) && |Captured(sh.events, sid)| <= k
  }

  // The error found no flag in the queue, and the flag stays there.
  predicate StaleFlag(sh: Shared, reply: seq<ServerMsg>, d: nat, pc: Pc, j: nat, stage: Stage)
    requires d < |reply|
  {
    && reply[d].ErrorResponse? && (j > d || (j == d && !stage.Receive?))
    && sh.queue == if pc.Written? then [] else [true]
  }

  // The error lowered the suppress flag before it was raised, and it stays up.
  predicate StaleSuppress(sh: Shared, reply: seq<ServerMsg>, d: nat, pc: Pc, j: nat, stage: Stage)
    requires d < |reply|
  {
    && reply[d].ErrorResponse? && (j > d || (j == d && (stage.Reporting? || stage.Forward?)))
    && sh.suppress == (pc.Armed? || pc.Done?)
  }

  // The row description was missed, and so are the rows that should have been reported.
  ghost predicate LostRows(sid: nat, sh: Shared, reply: seq<ServerMsg>, d: nat, k: nat, j: nat, stage: Stage)
    requires d < |reply|
  {
    && reply[d].CommandComplete? && Gathered(reply[..d]) != []
    && (forall i :: (if stage.Receive? then j else j + 1) <= i < |reply| ==> !reply[i].RowDescription?)
    && sh.columns == [] && sh.rows == [] && !stage.Returning?
    && var c := Captured(sh.events, sid);
       if Sent(reply, d, j, stage) then |c| <= k || c[k].response.None? else |c| <= k
  }

  // One of these, or the client has already seen something else than `visible`.
  ghost predicate Spoilt(plan: Plan, sid: nat, sh: Shared, reply: seq<ServerMsg>, d: nat, k: nat, pc: Pc, j: nat,
                         stage: Stage, visible: seq<ServerMsg>)
    requires d < |reply|
  {
    || Deviates(sh.toClient, visible)
    || Unrecorded(sid, sh, reply, d, k, j, stage)
    || StaleFlag(sh, reply, d, pc, j, stage)
    || (plan.hidden && StaleSuppress(sh, reply, d, pc, j, stage))
    || LostRows(sid, sh, reply, d, k, j, stage)
  }

  // ---- Spoilt stays spoilt until the next query ----

  // The effect of a step on the events.
  lemma StepEvents(sid: nat, sh: Shared, m: ServerMsg, stage: Stage, at: nat)
    requires StageOf(m, stage)
    ensures var (sh', _) := ServerMicro(sid, sh, m, stage, at);
            var before, after := Captured(sh.events, sid), Captured(sh'.events, sid);
            if Closes(m, stage) then
              |after| == |before| + (if Pending(sh.events, sid).Some? then 1 else 0)
              && before <= after && (|after| > |before| ==> after[|before|].response.None?)
            else if stage.Returning? then |after| == |before|
            else sh'.events == sh.events
  {
    if Closes(m, stage) {
      CaptureDone(sh.events, sid,
                  if m.CommandComplete? then QueryComplete(sid, at) else QueryError(sid, m.message, at));
    } else if stage.Returning? {
      CaptureReturning(sh.events, sid, stage.columns, stage.rows);
    } else {
      assert sh.events + [] == sh.events;
    }
  }

  lemma DeviatesOn(a: seq<ServerMsg>, more: seq<ServerMsg>, b: seq<ServerMsg>)
    requires Deviates(a, b)
    ensures Deviates(a + more, b)
  {
    var p :| 0 <= p < |a| && p < |b| && a[p] != b[p];
    assert (a + more)[p] == a[p];
  }

  lemma OnlyAppends(sid: nat, sh: Shared, m: ServerMsg, stage: Stage, at: nat) returns (more: seq<ServerMsg>)
    ensures ServerMicro(sid, sh, m, stage, at).0.toClient == sh.toClient + more
  {
    var (sh', _) := ServerMicro(sid, sh, m, stage, at);
    more := if sh'.toClient == sh.toClient then [] else [m];
    assert sh.toClient + [] == sh.toClient;
  }

  // Where the loop is after a step.
  function Position(reply: seq<ServerMsg>, j: nat, stage': Stage): (nat, Stage) {
    if stage'.Relayed? then (j + 1, Receive) else (j, stage')
  }

  lemma UnrecordedStays(sid: nat, sh: Shared, reply: seq<ServerMsg>, d: nat, k: nat, j: nat, stage: Stage, at: nat)
    requires Split(reply, d) && j < |reply| && StageOf(reply[j], stage) && !stage.Relayed?
    requires Unrecorded(sid, sh, reply, d, k, j, stage)
    ensures var (sh', stage') := ServerMicro(sid, sh, reply[j], stage, at);
            var (j', at') := Position(reply, j, stage');
            Unrecorded(sid, sh', reply, d, k, j', at')
  {
    StepEvents(sid, sh, reply[j], stage, at);
  }

  lemma StaleFlagStays(sid: nat, sh: Shared, reply: seq<ServerMsg>, d: nat, pc: Pc, j: nat, stage: Stage, at: nat)
    requires Split(reply, d) && j < |reply| && StageOf(reply[j], stage) && !stage.Relayed?
    requires StaleFlag(sh, reply, d, pc, j, stage)
    ensures var (sh', stage') := ServerMicro(sid, sh, reply[j], stage, at);
            var (j', at') := Position(reply, j, stage');
            StaleFlag(sh', reply, d, pc, j', at')
  {
  }

  lemma StaleSuppressStays(sid: nat, sh: Shared, reply: seq<ServerMsg>, d: nat, pc: Pc, j: nat, stage: Stage, at: nat)
    requires Split(reply, d) && j < |reply| && StageOf(reply[j], stage) && !stage.Relayed?
    requires StaleSuppress(sh, reply, d, pc, j, stage)
    ensures var (sh', stage') := ServerMicro(sid, sh, reply[j], stage, at);
            var (j', at') := Position(reply, j, stage');
            StaleSuppress(sh', reply, d, pc, j', at')
  {
  }

  lemma LostRowsStay(sid: nat, sh: Shared, reply: seq<ServerMsg>, d: nat, k: nat, j: nat, stage: Stage, at: nat)
    requires Split(reply, d) && j < |reply| && StageOf(reply[j], stage) && !stage.Relayed?
    requires LostRows(sid, sh, reply, d, k, j, stage)
    ensures var (sh', stage') := ServerMicro(sid, sh, reply[j], stage, at);
            var (j', at') := Position(reply, j, stage');
            LostRows(sid, sh', reply, d, k, j', at')
  {
    StepEvents(sid, sh, reply[j], stage, at);
    assert Closes(reply[j], stage) ==> j == d;
  }

  lemma SpoiltServer(plan: Plan, sid: nat, sh: Shared, reply: seq<ServerMsg>, d: nat, k: nat, pc: Pc, j: nat,
                     stage: Stage, visible: seq<ServerMsg>, at: nat)
    requires Split(reply, d) && Placed(reply, pc, j, stage) && j < |reply|
    requires Spoilt(plan, sid, sh, reply, d, k, pc, j, stage, visible)
    ensures var (sh', stage') := ServerMicro(sid, sh, reply[j], stage, at);
            var (j', at') := Position(reply, j, stage');
            Placed(reply, pc, j', at') && Spoilt(plan, sid, sh', reply, d, k, pc, j', at', visible)
  {
    ReplyInSteps(sid, sh, reply[j], stage, at, 0);
    if Deviates(sh.toClient, visible) {
      var more := OnlyAppends(sid, sh, reply[j], stage, at);
      DeviatesOn(sh.toClient, more, visible);
    } else if Unrecorded(sid, sh, reply, d, k, j, stage) {
      UnrecordedStays(sid, sh, reply, d, k, j, stage, at);
    } else if StaleFlag(sh, reply, d, pc, j, stage) {
      StaleFlagStays(sid, sh, reply, d, pc, j, stage, at);
    } else if plan.hidden && StaleSuppress(sh, reply, d, pc, j, stage) {
      StaleSuppressStays(sid, sh, reply, d, pc, j, stage, at);
    } else {
      LostRowsStay(sid, sh, reply, d, k, j, stage, at);
    }
  }

  lemma SpoiltClient(cfg: Config, sid: nat, sh: Shared, x: Exchange, d: nat, k: nat, pc: Pc, j: nat, stage: Stage,
                     visible: seq<ServerMsg>, at: nat)
    requires PlanFor(cfg, x.sql).injected && d < |x.reply| && Placed(x.reply, pc, j, stage) && !pc.Done?
    requires Spoilt(PlanFor(cfg, x.sql), sid, sh, x.reply, d, k, pc, j, stage, visible)
    ensures var (sh', pc') := ClientMicro(cfg, sid, sh, x.sql, pc, at);
            && Placed(x.reply, pc', j, stage)
            && Spoilt(PlanFor(cfg, x.sql), sid, sh', x.reply, d, k, pc', j, stage, visible)
  {
    hide PlanFor, Captured, Gathered, Deviates;
    if pc.Armed? { CaptureStart(sh.events, sid, x.sql, at); }
  }

  // ---- A premature step spoils ----

  lemma VisiblePrefix(hidden: bool, msgs: seq<ServerMsg>, j: nat)
    requires j <= |msgs|
    ensures Visible(hidden, msgs[..j]) <= Visible(hidden, msgs)
    ensures Completed(msgs[..j]) ==> Completed(msgs)
    ensures !Completed(msgs[..j]) && Completed(msgs) ==> |Visible(hidden, msgs[..j])| < |Visible(hidden, msgs)|
  {
    if j == |msgs| {
      assert msgs[..j] == msgs;
    } else {
      var n := |msgs| - 1;
      VisiblePrefix(hidden, msgs[..n], j);
      assert msgs[..n][..j] == msgs[..j];
    }
  }

  lemma HiddenShowsNoRows(reply: seq<ServerMsg>, n: nat)
    requires n <= |reply| && Single(reply)
    ensures forall p :: 0 <= p < |Visible(true, reply[..n])| ==> !IsRowData(Visible(true, reply[..n])[p])
  {
    if n == 0 {
    } else {
      HiddenShowsNoRows(reply, n - 1);
      assert reply[..n][..n - 1] == reply[..n - 1];
      if Completed(reply[..n - 1]) { CompletedHas(reply[..n - 1]); }
    }
  }

  lemma DeviatesNext(seen: seq<ServerMsg>, a: seq<ServerMsg>, m: ServerMsg, b: seq<ServerMsg>)
    requires a <= b && |a| < |b| && b[|a|] != m
    ensures Deviates(seen + a + [m], seen + b)
  {
    var p := |seen + a|;
    assert (seen + a + [m])[p] == m && (seen + b)[p] == b[|a|];
  }

  // A hidden row forwarded too early reaches the client.
  lemma LeakDeviates(seen: seq<ServerMsg>, reply: seq<ServerMsg>, j: nat)
    requires j < |reply| && Single(reply) && Completed(reply) && !Completed(reply[..j]) && IsRowData(reply[j])
    ensures Deviates(seen + Visible(true, reply[..j]) + [reply[j]], seen + Visible(true, reply))
  {
    VisiblePrefix(true, reply, j);
    HiddenShowsNoRows(reply, |reply|);
    assert reply[..|reply|] == reply;
    DeviatesNext(seen, Visible(true, reply[..j]), reply[j], Visible(true, reply));
  }

  // If the columns in force come to something, then a CommandComplete follows without another row
  // description before it.
  lemma {:induction false} Fruitful(reply: seq<ServerMsg>, d: nat, i: nat)
    requires Split(reply, d) && i <= d
    requires !Wasted(LastColumns(reply[..i]), Gathered(reply[..i]), reply[i..])
    ensures reply[d].CommandComplete? && Gathered(reply[..d]) != []
    ensures forall n :: i <= n < |reply| ==> !reply[n].RowDescription?
    decreases d - i
  {
    var m := reply[i];
    assert reply[i..][0] == m && reply[i..][1..] == reply[i + 1..];
    if i < d {
      assert reply[..i + 1][..i] == reply[..i];
      assert !IsDone(m);
      Fruitful(reply, d, i + 1);
    }
  }

  lemma EarlyDescriptionLoses(sid: nat, sh: Shared, reply: seq<ServerMsg>, d: nat, k: nat, j: nat)
    requires Split(reply, d) && j < d && reply[j].RowDescription? && !Fruitless(reply, j)
    requires sh.columns == [] && sh.rows == [] && |Captured(sh.events, sid)| <= k
    ensures LostRows(sid, sh, reply, d, k, j, Forward)
  {
    assert reply[..j + 1][..j] == reply[..j];
    Fruitful(reply, d, j + 1);
  }

  // In the shared state of a query that has gone well so far.
  lemma UnderwayFacts(plan: Plan, sid: nat, sh: Shared, x: Exchange, pc: Pc, j: nat, visible: seq<ServerMsg>,
                      seen: seq<ServerMsg>, sent: seq<string>, captured: seq<Brief>)
    requires j <= |x.reply| && Underway(plan, sid, sh, x, pc, j, visible, seen, sent, captured) && !pc.Done?
    ensures !Completed(x.reply[..j]) && |Captured(sh.events, sid)| == |captured|
    ensures plan.injected ==> Pending(sh.events, sid).None? && !pc.Queued? && !pc.Announced?
    ensures pc.Written? ==> sh.queue == [] && sh.columns == [] && sh.rows == []
    ensures sh.suppress == (plan.hidden && pc.Armed?) && sh.toClient == seen + visible
  {
    assert captured + [] == captured;
  }

  // A message received too early, for a query that has gone well so far.
  lemma ReceiveSpoils(plan: Plan, sid: nat, sh: Shared, reply: seq<ServerMsg>, d: nat, k: nat, pc: Pc, j: nat,
                      visible: seq<ServerMsg>, at: nat)
    requires Split(reply, d) && j < |reply| && j <= d && !Prepared(plan, pc, reply, j, Receive)
    requires |Captured(sh.events, sid)| == k && Pending(sh.events, sid).None? && !pc.Queued? && !pc.Announced?
    requires pc.Written? ==> sh.queue == [] && sh.columns == [] && sh.rows == []
    ensures var (sh', stage') := ServerMicro(sid, sh, reply[j], Receive, at);
            !stage'.Relayed? && Spoilt(plan, sid, sh', reply, d, k, pc, j, stage', visible)
  {
    StepEvents(sid, sh, reply[j], Receive, at);
    if reply[j].RowDescription? {
      EarlyDescriptionLoses(sid, ServerMicro(sid, sh, reply[j], Receive, at).0, reply, d, k, j);
    }
  }

  lemma PrematureReceive(cfg: Config, sid: nat, sh: Shared, x: Exchange, d: nat, pc: Pc, j: nat,
                         seen: seq<ServerMsg>, sent: seq<string>, captured: seq<Brief>, at: nat)
    requires Split(x.reply, d) && j < |x.reply| && During(cfg, sid, sh, x, pc, j, seen, sent, captured)
    requires !Prepared(PlanFor(cfg, x.sql), pc, x.reply, j, Receive)
    ensures var plan := PlanFor(cfg, x.sql);
            var (sh', stage') := ServerMicro(sid, sh, x.reply[j], Receive, at);
            && !stage'.Relayed?
            && Spoilt(plan, sid, sh', x.reply, d, |captured|, pc, j, stage', seen + Visible(plan.hidden, x.reply))
  {
    var plan := PlanFor(cfg, x.sql);
    UnderwayFacts(plan, sid, sh, x, pc, j, Visible(plan.hidden, x.reply[..j]), seen, sent, captured);
    NotCompletedBefore(x.reply, d, j);
    ReceiveSpoils(plan, sid, sh, x.reply, d, |captured|, pc, j, seen + Visible(plan.hidden, x.reply), at);
  }

  lemma PrematureMidway(cfg: Config, sid: nat, sh: Shared, x: Exchange, d: nat, pc: Pc, j: nat, stage: Stage,
                        seen: seq<ServerMsg>, sent: seq<string>, captured: seq<Brief>, at: nat)
    requires Split(x.reply, d) && Completed(x.reply) && Single(x.reply) && j < |x.reply| && !stage.Receive?
    requires Midway(cfg, sid, sh, x, pc, j, stage, seen, sent, captured)
    requires !Prepared(PlanFor(cfg, x.sql), pc, x.reply, j, stage)
    ensures var plan := PlanFor(cfg, x.sql);
            var (sh', stage') := ServerMicro(sid, sh, x.reply[j], stage, at);
            var (j', at') := Position(x.reply, j, stage');
            Spoilt(plan, sid, sh', x.reply, d, |captured|, pc, j', at', seen + Visible(plan.hidden, x.reply))
  {
    var plan, m := PlanFor(cfg, x.sql), x.reply[j];
    NotCompletedBefore(x.reply, d, j);
    if !IsDone(m) {
      UnderwayFacts(plan, sid, sh, x, pc, j + 1, Visible(plan.hidden, x.reply[..j]), seen, sent, captured);
      CompletedAppend(x.reply, j);
      LeakDeviates(seen, x.reply, j);
    } else {
      var before := Undone(plan, sh, ProgressOf(plan, x.sql, x.reply[..j]), stage);
      UnderwayFacts(plan, sid, before, x, pc, j, Visible(plan.hidden, x.reply[..j]), seen, sent, captured);
      StepEvents(sid, sh, m, stage, at);
    }
  }

  lemma PrematureStep(cfg: Config, sid: nat, sh: Shared, x: Exchange, pc: Pc, j: nat, stage: Stage,
                      seen: seq<ServerMsg>, sent: seq<string>, captured: seq<Brief>, at: nat)
    requires Completed(x.reply) && Single(x.reply) && j < |x.reply| && HasQuery(PlanFor(cfg, x.sql), pc)
    requires Amid(cfg, sid, sh, x, pc, j, stage, seen, sent, captured)
    requires !Prepared(PlanFor(cfg, x.sql), pc, x.reply, j, stage)
    ensures var plan, d := PlanFor(cfg, x.sql), DoneAt(x.reply);
            var (sh', stage') := ServerMicro(sid, sh, x.reply[j], stage, at);
            var (j', at') := Position(x.reply, j, stage');
            && Split(x.reply, d) && Placed(x.reply, pc, j', at')
            && Spoilt(plan, sid, sh', x.reply, d, |captured|, pc, j', at', seen + Visible(plan.hidden, x.reply))
  {
    SplitsAt(x.reply);
    ReplyInSteps(sid, sh, x.reply[j], stage, at, 0);
    if stage.Receive? {
      PrematureReceive(cfg, sid, sh, x, DoneAt(x.reply), pc, j, seen, sent, captured, at);
    } else {
      PrematureMidway(cfg, sid, sh, x, DoneAt(x.reply), pc, j, stage, seen, sent, captured, at);
    }
  }

  // ---- Runs ----

  ghost predicate SpoiltRun(cfg: Config, sid: nat, xs: seq<Exchange>, s: Sys) {
    && s.k < |xs|
    && var x, plan := xs[s.k], PlanFor(cfg, xs[s.k].sql);
    && plan.injected && Split(x.reply, DoneAt(x.reply)) && Placed(x.reply, s.pc, s.j, s.stage)
    && Spoilt(plan, sid, s.sh, x.reply, DoneAt(x.reply), s.k, s.pc, s.j, s.stage, AllVisible(cfg, xs[..s.k + 1]))
  }

  lemma VisibleThrough(cfg: Config, xs: seq<Exchange>, k: nat)
    requires k < |xs|
    ensures AllVisible(cfg, xs[..k + 1])
         == AllVisible(cfg, xs[..k]) + Visible(PlanFor(cfg, xs[k].sql).hidden, xs[k].reply)
  {
    assert xs[..k + 1][..k] == xs[..k];
  }

  lemma ServerNext(cfg: Config, sid: nat, xs: seq<Exchange>, s: Sys, at: nat)
    requires CanReply(cfg, xs, s)
    ensures var (sh', stage') := ServerMicro(sid, s.sh, xs[s.k].reply[s.j], s.stage, at);
            var (j', at') := Position(xs[s.k].reply, s.j, stage');
            Next(cfg, sid, xs, s, ServerSide(at)) == Sys(sh', s.k, s.pc, j', at')
  {
  }

  // The same for a state of a run, the exchanges before it having gone well.
  lemma PrematureInRun(cfg: Config, sid: nat, xs: seq<Exchange>, k: nat, sh: Shared, pc: Pc, j: nat, stage: Stage,
                       at: nat,
                       prior: seq<Exchange>)
    requires AllAnswered(xs) && InjectedSingle(cfg, xs) && k < |xs| && prior == xs[..k]
    requires j < |xs[k].reply| && HasQuery(PlanFor(cfg, xs[k].sql), pc)
    requires Amid(cfg, sid, sh, xs[k], pc, j, stage, AllVisible(cfg, prior), AllSent(cfg, prior),
                  AllCaptured(cfg, prior))
    requires !Prepared(PlanFor(cfg, xs[k].sql), pc, xs[k].reply, j, stage)
    ensures var (sh', stage') := ServerMicro(sid, sh, xs[k].reply[j], stage, at);
            var (j', at') := Position(xs[k].reply, j, stage');
            SpoiltRun(cfg, sid, xs, Sys(sh', k, pc, j', at'))
  {
    PrematureStep(cfg, sid, sh, xs[k], pc, j, stage, AllVisible(cfg, prior), AllSent(cfg, prior),
                  AllCaptured(cfg, prior), at);
    VisibleThrough(cfg, xs, k);
  }

  /** A step that comes too early, in a run that has gone well so far, spoils it. */
  lemma PrematureSpoils(cfg: Config, sid: nat, xs: seq<Exchange>, s: Sys, move: Move)
    requires AllAnswered(xs) && InjectedSingle(cfg, xs) && Invariant(cfg, sid, xs, s)
    requires !TimelyMove(cfg, xs, s, move)
    ensures SpoiltRun(cfg, sid, xs, Next(cfg, sid, xs, s, move))
  {
    PrematureInRun(cfg, sid, xs, s.k, s.sh, s.pc, s.j, s.stage, move.at, xs[..s.k]);
    ServerNext(cfg, sid, xs, s, move.at);
  }

  lemma {:induction false} ResponseOf(plan: Plan, sql: string, reply: seq<ServerMsg>, d: nat, n: nat)
    requires Split(reply, d) && d < n <= |reply| && reply[d].CommandComplete? && plan.flag
    ensures Completed(reply[..n])
    ensures Answer(plan.flag, sql, reply[..n]).response.Some? <==> Gathered(reply[..d]) != []
  {
    NotCompletedBefore(reply, d, n);
    NotCompletedBefore(reply, d, n - 1);
    assert reply[..n][..n - 1] == reply[..n - 1];
    if n - 1 > d { ResponseOf(plan, sql, reply, d, n - 1); }
  }

  // At the end of the answer it shows.
  lemma SpoiltShows(cfg: Config, sid: nat, xs: seq<Exchange>, s: Sys)
    requires AllAnswered(xs) && SpoiltRun(cfg, sid, xs, s) && s.pc.Done? && s.j == |xs[s.k].reply|
    ensures !Idle(cfg, sid, xs[..s.k + 1], s.sh)
  {
    var x, d := xs[s.k], DoneAt(xs[s.k].reply);
    var plan := PlanFor(cfg, x.sql);
    if LostRows(sid, s.sh, x.reply, d, s.k, s.j, s.stage) {
      ResponseOf(plan, x.sql, x.reply, d, |x.reply|);
      assert x.reply[..|x.reply|] == x.reply;
      assert xs[..s.k + 1][..s.k] == xs[..s.k];
      assert AllCaptured(cfg, xs[..s.k + 1])[s.k] == Answer(plan.flag, x.sql, x.reply);
    }
  }

  lemma SpoiltNext(cfg: Config, sid: nat, xs: seq<Exchange>, s: Sys, move: Move)
    requires SpoiltRun(cfg, sid, xs, s) && !(move.ClientSide? && s.pc.Done? && s.j == |xs[s.k].reply|)
    ensures SpoiltRun(cfg, sid, xs, Next(cfg, sid, xs, s, move))
  {
    var x, d, visible := xs[s.k], DoneAt(xs[s.k].reply), AllVisible(cfg, xs[..s.k + 1]);
    if move.ServerSide? {
      if s.j < |x.reply| {
        SpoiltServer(PlanFor(cfg, x.sql), sid, s.sh, x.reply, d, s.k, s.pc, s.j, s.stage, visible, move.at);
        ServerNext(cfg, sid, xs, s, move.at);
      }
    } else if !s.pc.Done? {
      SpoiltClient(cfg, sid, s.sh, x, d, s.k, s.pc, s.j, s.stage, visible, move.at);
    }
  }

  /** Nothing that happens afterwards makes up for it. */
  lemma {:induction false} SpoiltForGood(cfg: Config, sid: nat, xs: seq<Exchange>, s: Sys, moves: seq<Move>)
    requires AllAnswered(xs) && SpoiltRun(cfg, sid, xs, s)
    requires RunFrom(cfg, sid, xs, s, moves).k == |xs|
    ensures !Faithful(cfg, sid, xs, s, moves)
    decreases |moves|
  {
    if moves[0].ClientSide? && s.pc.Done? && s.j == |xs[s.k].reply| {
      SpoiltShows(cfg, sid, xs, s);
    } else {
      SpoiltNext(cfg, sid, xs, s, moves[0]);
      SpoiltForGood(cfg, sid, xs, Next(cfg, sid, xs, s, moves[0]), moves[1..]);
    }
  }

  lemma InvariantAtStart(cfg: Config, sid: nat, xs: seq<Exchange>, s: Sys)
    requires AllAnswered(xs) && Invariant(cfg, sid, xs, s) && s.pc.Start?
    ensures Idle(cfg, sid, xs[..s.k], s.sh)
  {
    if s.k < |xs| {
      IdleStarts(cfg, sid, xs[..s.k], s.sh, xs[s.k]);
    } else {
      assert xs[..s.k] == xs;
    }
  }

  lemma {:induction false} FaithfulFrom(cfg: Config, sid: nat, xs: seq<Exchange>, s: Sys, moves: seq<Move>)
    requires AllAnswered(xs) && InjectedSingle(cfg, xs) && Invariant(cfg, sid, xs, s)
    requires RunFrom(cfg, sid, xs, s, moves).k == |xs|
    ensures Faithful(cfg, sid, xs, s, moves) <==> Timely(cfg, sid, xs, s, moves)
    decreases |moves|
  {
    if s.pc.Start? { InvariantAtStart(cfg, sid, xs, s); }
    if moves != [] {
      if TimelyMove(cfg, xs, s, moves[0]) {
        InvariantNext(cfg, sid, xs, s, moves[0]);
        FaithfulFrom(cfg, sid, xs, Next(cfg, sid, xs, s, moves[0]), moves[1..]);
      } else {
        PrematureSpoils(cfg, sid, xs, s, moves[0]);
        SpoiltForGood(cfg, sid, xs, Next(cfg, sid, xs, s, moves[0]), moves[1..]);
      }
    }
  }

  /** A complete run, with or without stealth, is right after every exchange exactly if every step for an
      injected query comes in time: its row description is taken after the flag is queued, if rows are to
      be reported; hidden row data is forwarded after the suppress flag is raised; an error clears flag and
      suppress flag after they are set; and the closing event follows the opening one. */
  lemma FaithfulIffTimely(cfg: Config, sid: nat, xs: seq<Exchange>, moves: seq<Move>)
    requires AllAnswered(xs) && InjectedSingle(cfg, xs)
    requires RunFrom(cfg, sid, xs, INITIAL, moves).k == |xs|
    ensures Faithful(cfg, sid, xs, INITIAL, moves) <==> Timely(cfg, sid, xs, INITIAL, moves)
  {
    InvariantInitially(cfg, sid, xs);
    FaithfulFrom(cfg, sid, xs, INITIAL, moves);
  }

  // ---- A run that goes wrong ----

  lemma {:induction false} RunAppend(cfg: Config, sid: nat, xs: seq<Exchange>, s: Sys, a: seq<Move>, b: seq<Move>)
    ensures RunFrom(cfg, sid, xs, s, a + b) == RunFrom(cfg, sid, xs, RunFrom(cfg, sid, xs, s, a), b)
    decreases |a|
  {
    if a == [] {
      assert a + b == b;
    } else {
      assert (a + b)[0] == a[0] && (a + b)[1..] == a[1..] + b;
      RunAppend(cfg, sid, xs, Next(cfg, sid, xs, s, a[0]), a[1..], b);
    }
  }

  lemma RunOne(cfg: Config, sid: nat, xs: seq<Exchange>, s: Sys, move: Move, s': Sys, rest: seq<Move>)
    requires Next(cfg, sid, xs, s, move) == s'
    ensures RunFrom(cfg, sid, xs, s, [move] + rest) == RunFrom(cfg, sid, xs, s', rest)
  {
    assert ([move] + rest)[1..] == rest;
  }

  predicate Injects(cfg: Config, insert: string) {
    && cfg.implicitCapture && cfg.stealth && !cfg.isCurrvalOrLastval(insert) && cfg.injectReturning(insert).Some?
  }

  // The client-to-server loop writes the injected INSERT; the row description is taken up and forwarded;
  // then the bookkeeping is done.
  const OVERTAKE: seq<Move> :=
    [ClientSide(0), ServerSide(0), ServerSide(0), ClientSide(0), ClientSide(0), ClientSide(0)]

  // The row and the completion are relayed.
  const CATCH_UP: seq<Move> :=
    [ServerSide(0), ServerSide(0), ServerSide(0), ServerSide(0), ServerSide(0), ServerSide(0)]

  // The client has its answer.
  const CONCLUDE: seq<Move> := [ServerSide(0), ServerSide(0), ClientSide(0)]

  // The shared state of that run at its turning points.
  function OvertakenState(cfg: Config, sid: nat, insert: string, queue: seq<bool>, suppress: bool,
                          toClient: seq<ServerMsg>, events: seq<Event>): Shared
  {
    Shared(queue, [], [], suppress, [PlanFor(cfg, insert).sent], toClient, events)
  }

  lemma Overtakes(cfg: Config, sid: nat, insert: string)
    requires Injects(cfg, insert)
    ensures RunFrom(cfg, sid, [Exchange(insert, OneRow("id", "7"))], INITIAL, OVERTAKE)
         == Sys(OvertakenState(cfg, sid, insert, [true], true, [RowDescription(["id"])], [QueryStart(sid, insert, 0)]),
                0, Done, 1, Receive)
  {
    var xs, client, server := [Exchange(insert, OneRow("id", "7"))], ClientSide(0), ServerSide(0);
    var shown := [RowDescription(["id"])];
    var written := OvertakenState(cfg, sid, insert, [], false, [], []);
    var s1, s2 := Sys(written, 0, Written, 0, Receive), Sys(written, 0, Written, 0, Forward);
    var s3 := Sys(OvertakenState(cfg, sid, insert, [], false, shown, []), 0, Written, 1, Receive);
    var s4 := Sys(OvertakenState(cfg, sid, insert, [true], false, shown, []), 0, Pushed, 1, Receive);
    var s5 := Sys(OvertakenState(cfg, sid, insert, [true], true, shown, []), 0, Armed, 1, Receive);
    var s6 := Sys(OvertakenState(cfg, sid, insert, [true], true, shown, [QueryStart(sid, insert, 0)]), 0, Done, 1,
                  Receive);
    RunOne(cfg, sid, xs, s5, client, s6, []);
    RunOne(cfg, sid, xs, s4, client, s5, [client]);
    RunOne(cfg, sid, xs, s3, client, s4, [client, client]);
    RunOne(cfg, sid, xs, s2, server, s3, [client, client, client]);
    RunOne(cfg, sid, xs, s1, server, s2, [server, client, client, client]);
    RunOne(cfg, sid, xs, INITIAL, client, s1, [server, server, client, client, client]);
    assert [client] + [] == [client] && [client] + [client] == [client, client];
    assert [client] + [client, client] == [client, client, client];
    assert [server] + [client, client, client] == [server, client, client, client];
    assert [server] + [server, client, client, client] == [server, server, client, client, client];
    assert [client] + [server, server, client, client, client] == OVERTAKE;
  }

  lemma CatchesUp(cfg: Config, sid: nat, insert: string)
    requires Injects(cfg, insert)
    ensures var start, t, c := QueryStart(sid, insert, 0), RowDescription(["id"]), CommandComplete("OK");
            var s := Sys(OvertakenState(cfg, sid, insert, [true], true, [t], [start]), 0, Done, 1, Receive);
            RunFrom(cfg, sid, [Exchange(insert, OneRow("id", "7"))], s, CATCH_UP)
              == Sys(OvertakenState(cfg, sid, insert, [], false, [t, c], [start, QueryComplete(sid, 0)]),
                     0, Done, 3, Receive)
  {
    var xs, server := [Exchange(insert, OneRow("id", "7"))], ServerSide(0);
    var t, c := RowDescription(["id"]), CommandComplete("OK");
    var open, closed := [QueryStart(sid, insert, 0)], [QueryStart(sid, insert, 0), QueryComplete(sid, 0)];
    var before := OvertakenState(cfg, sid, insert, [true], true, [t], open);
    var counted := OvertakenState(cfg, sid, insert, [true], true, [t], closed);
    var popped := OvertakenState(cfg, sid, insert, [], true, [t], closed);
    var lowered := OvertakenState(cfg, sid, insert, [], false, [t, c], closed);
    RunOne(cfg, sid, xs, Sys(popped, 0, Done, 2, Lowering), server, Sys(lowered, 0, Done, 3, Receive), []);
    RunOne(cfg, sid, xs, Sys(popped, 0, Done, 2, Forward), server, Sys(popped, 0, Done, 2, Lowering), [server]);
    RunOne(cfg, sid, xs, Sys(counted, 0, Done, 2, Popping), server, Sys(popped, 0, Done, 2, Forward), [server, server]);
    RunOne(cfg, sid, xs, Sys(before, 0, Done, 2, Receive), server, Sys(counted, 0, Done, 2, Popping),
           [server, server, server]);
    RunOne(cfg, sid, xs, Sys(before, 0, Done, 1, Forward), server, Sys(before, 0, Done, 2, Receive),
           [server, server, server, server]);
    RunOne(cfg, sid, xs, Sys(before, 0, Done, 1, Receive), server, Sys(before, 0, Done, 1, Forward),
           [server, server, server, server, server]);
    assert [server] + [] == [server] && [server] + [server] == [server, server];
    assert [server] + [server, server] == [server, server, server];
    assert [server] + [server, server, server] == [server, server, server, server];
    assert [server] + [server, server, server, server] == [server, server, server, server, server];
    assert [server] + [server, server, server, server, server] == CATCH_UP;
  }

  lemma Concludes(cfg: Config, sid: nat, insert: string, toClient: seq<ServerMsg>, events: seq<Event>)
    requires Injects(cfg, insert)
    ensures var s := Sys(OvertakenState(cfg, sid, insert, [], false, toClient, events), 0, Done, 3, Receive);
            RunFrom(cfg, sid, [Exchange(insert, OneRow("id", "7"))], s, CONCLUDE)
              == Sys(OvertakenState(cfg, sid, insert, [], false, toClient + [ReadyForQuery], events), 1, Start, 0,
                     Receive)
  {
    var xs, client, server := [Exchange(insert, OneRow("id", "7"))], ClientSide(0), ServerSide(0);
    var before := OvertakenState(cfg, sid, insert, [], false, toClient, events);
    var ready := OvertakenState(cfg, sid, insert, [], false, toClient + [ReadyForQuery], events);
    RunOne(cfg, sid, xs, Sys(ready, 0, Done, 4, Receive), client, Sys(ready, 1, Start, 0, Receive), []);
    RunOne(cfg, sid, xs, Sys(before, 0, Done, 3, Forward), server, Sys(ready, 0, Done, 4, Receive), [client]);
    RunOne(cfg, sid, xs, Sys(before, 0, Done, 3, Receive), server, Sys(before, 0, Done, 3, Forward), [server, client]);
    assert [client] + [] == [client] && [server] + [client] == [server, client];
    assert [server] + [server, client] == CONCLUDE;
  }

  lemma OneRowHidden()
    ensures Visible(true, OneRow("id", "7")) == [CommandComplete("OK"), ReadyForQuery]
  {
    var msgs := OneRow("id", "7");
    assert msgs[..3][..2] == msgs[..2] && msgs[..2][..1] == msgs[..1] && msgs[..1][..0] == [];
    assert Visible(true, msgs[..1]) == [] && Visible(true, msgs[..2]) == [];
    assert Visible(true, msgs[..3]) == [CommandComplete("OK")];
    assert msgs[..|msgs| - 1] == msgs[..3];
  }

  // What the example should lead to.
  lemma OneRowExpected(cfg: Config, insert: string)
    requires Injects(cfg, insert)
    ensures var xs := [Exchange(insert, OneRow("id", "7"))];
            && AllAnswered(xs) && AllVisible(cfg, xs) == [CommandComplete("OK"), ReadyForQuery]
            && AllCaptured(cfg, xs) == [Brief(insert, None, Some([[("id", "7")]]))]
  {
    var xs, plan, rows := [Exchange(insert, OneRow("id", "7"))], PlanFor(cfg, insert), [[Some("7")]];
    OneRowHidden();
    PlainAnswerResponse(true, insert, ["id"], rows, CommandComplete("OK"));
    assert [RowDescription(["id"])] + Rows(rows) + [CommandComplete("OK"), ReadyForQuery] == xs[0].reply;
    var response := Answer(true, insert, xs[0].reply).response.value;
    assert |response| == 1 && |rows| == 1 && |rows[0]| == 1;
    assert response[0] == [("id", "7")] by { assert response[0][0] == ("id", "7"); }
    assert response == [[("id", "7")]];
    assert Answer(plan.flag, insert, xs[0].reply) == Brief(insert, None, Some(response));
    assert xs[..0] == [];
  }

  lemma OneRowRecorded(sid: nat, insert: string)
    ensures Captured([QueryStart(sid, insert, 0), QueryComplete(sid, 0)], sid) == [Brief(insert, None, None)]
  {
    var start := QueryStart(sid, insert, 0);
    CaptureStart([], sid, insert, 0);
    CaptureDone([start], sid, QueryComplete(sid, 0));
    assert [] + [start] == [start] && [start] + [QueryComplete(sid, 0)] == [start, QueryComplete(sid, 0)];
  }

  /** A complete run in which the answer overtakes the bookkeeping: the client is shown a row description
      it did not ask for, and the returned row is not captured. */
  lemma OvertakenRun(cfg: Config, sid: nat, insert: string)
    requires Injects(cfg, insert)
    ensures var xs := [Exchange(insert, OneRow("id", "7"))];
            var s := RunFrom(cfg, sid, xs, INITIAL, OVERTAKE + (CATCH_UP + CONCLUDE));
            && s.k == |xs| && Clean(s.sh)
            && s.sh.toClient == [RowDescription(["id"]), CommandComplete("OK"), ReadyForQuery]
            && Captured(s.sh.events, sid) == [Brief(insert, None, None)]
  {
    var xs := [Exchange(insert, OneRow("id", "7"))];
    Overtakes(cfg, sid, insert);
    RunAppend(cfg, sid, xs, INITIAL, OVERTAKE, CATCH_UP + CONCLUDE);
    RunAppend(cfg, sid, xs, RunFrom(cfg, sid, xs, INITIAL, OVERTAKE), CATCH_UP, CONCLUDE);
    CatchesUp(cfg, sid, insert);
    Concludes(cfg, sid, insert, [RowDescription(["id"]), CommandComplete("OK")],
              [QueryStart(sid, insert, 0), QueryComplete(sid, 0)]);
    OneRowRecorded(sid, insert);
  }
}
