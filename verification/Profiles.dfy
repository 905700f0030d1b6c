/** From proxied connections to a written profile: the events of several connections, interleaved in one
    channel, staged in one capture window and read back. */
module Profiles {
  import opened Wrappers
  import opened CaptureEvents
  import opened Relay
  import opened RelayRuns
  import Collector
  import Staging
  import Control

  // ---- the events of one connection ----

  // The latest captured query has no response yet.
  ghost predicate Fresh(events: seq<Event>, sid: nat) {
    var c := Captured(events, sid);
    c != [] ==> c[|c| - 1].response.None?
  }

  predicate IsOwn(e: Event, sid: nat) {
    e.sid == sid && !e.SessionStart? && !e.SessionEnd?
  }

  // Only the session's own query events, started at times that do not go back and are over by `now`, and
  // each RETURNING answer for a query that has none.
  ghost predicate Tidy(events: seq<Event>, sid: nat, now: nat) {
    && (forall i :: 0 <= i < |events| ==> IsOwn(events[i], sid))
    && (forall i :: 0 <= i < |events| && events[i].QueryStart? ==> events[i].at <= now)
    && (forall i, j :: 0 <= i < j < |events| && events[i].QueryStart? && events[j].QueryStart? ==>
                         events[i].at <= events[j].at)
    && (forall i :: 0 <= i < |events| && events[i].QueryReturning? ==> Fresh(events[..i], sid))
  }

  lemma TidyAppend(events: seq<Event>, sid: nat, now: nat, e: Event, later: nat)
    requires Tidy(events, sid, now) && IsOwn(e, sid) && now <= later
    requires e.QueryStart? ==> now <= e.at <= later
    requires e.QueryReturning? ==> Fresh(events, sid)
    ensures Tidy(events + [e], sid, later)
  {
    var after := events + [e];
    assert forall i :: 0 <= i < |events| ==> after[i] == events[i] && after[..i] == events[..i];
    assert after[..|events|] == events;
  }

  lemma TidyLater(events: seq<Event>, sid: nat, now: nat, later: nat)
    requires Tidy(events, sid, now) && now <= later
    ensures Tidy(events, sid, later)
  {
  }

  // What holds at every point of a timely run.
  ghost predicate InTurn(sid: nat, s: Sys, now: nat) {
    && Tidy(s.sh.events, sid, now)
    && (s.stage.Popping? && FrontIsTrue(s.sh.queue) && s.sh.rows != [] ==> Fresh(s.sh.events, sid))
    && (s.stage.Returning? ==> Fresh(s.sh.events, sid))
  }

  lemma ClientInTurn(cfg: Config, sid: nat, sh: Shared, sql: string, pc: Pc, now: nat, at: nat)
    requires Tidy(sh.events, sid, now) && now <= at
    ensures Tidy(ClientMicro(cfg, sid, sh, sql, pc, at).0.events, sid, at)
  {
    hide Tidy;
    TidyLater(sh.events, sid, now, at);
    if pc.Queued? || pc.Armed? { TidyAppend(sh.events, sid, now, QueryStart(sid, sql, at), at); }
  }

  // A completion that comes in time leaves the next answer to the query that it closes.
  lemma CompletionInTurn(cfg: Config, sid: nat, sh: Shared, x: Exchange, j: nat,
                         seen: seq<ServerMsg>, sent: seq<string>, captured: seq<Brief>, at: nat)
    requires j < |x.reply| && x.reply[j].CommandComplete?
    requires During(cfg, sid, sh, x, Done, j, seen, sent, captured)
    ensures FrontIsTrue(sh.queue) ==> Fresh(sh.events + [QueryComplete(sid, at)], sid)
  {
    CaptureDone(sh.events, sid, QueryComplete(sid, at));
  }

  lemma ServerInTurn(sid: nat, sh: Shared, m: ServerMsg, stage: Stage, now: nat, at: nat)
    requires Tidy(sh.events, sid, now) && now <= at && StageOf(m, stage)
    requires stage.Receive? && m.CommandComplete? && FrontIsTrue(sh.queue) ==>
               Fresh(sh.events + [QueryComplete(sid, at)], sid)
    requires stage.Popping? && FrontIsTrue(sh.queue) && sh.rows != [] ==> Fresh(sh.events, sid)
    requires stage.Returning? ==> Fresh(sh.events, sid)
    ensures var (sh', stage') := ServerMicro(sid, sh, m, stage, at);
            && Tidy(sh'.events, sid, at)
            && (stage'.Popping? && FrontIsTrue(sh'.queue) && sh'.rows != [] ==> Fresh(sh'.events, sid))
            && (stage'.Returning? ==> Fresh(sh'.events, sid))
  {
    hide Tidy, Fresh;
    TidyLater(sh.events, sid, now, at);
    match stage
    case Receive => if m.CommandComplete? { TidyAppend(sh.events, sid, at, QueryComplete(sid, at), at); }
    case Returning(columns, rows) => TidyAppend(sh.events, sid, at, QueryReturning(sid, columns, rows), at);
    case Reporting => TidyAppend(sh.events, sid, at, QueryError(sid, m.message, at), at);
    case _ =>
  }

  lemma NextInTurn(cfg: Config, sid: nat, xs: seq<Exchange>, s: Sys, move: Move, now: nat)
    requires AllAnswered(xs) && Invariant(cfg, sid, xs, s) && TimelyMove(cfg, xs, s, move)
    requires InTurn(sid, s, now) && now <= move.at
    ensures InTurn(sid, Next(cfg, sid, xs, s, move), move.at)
  {
    hide Tidy, Fresh, During, Midway;
    TidyLater(s.sh.events, sid, now, move.at);
    if s.k < |xs| {
      if move.ClientSide? {
        if !s.pc.Done? {
          WaitsForClient(cfg, sid, xs, s);
          ClientInTurn(cfg, sid, s.sh, xs[s.k].sql, s.pc, now, move.at);
        }
      } else if CanReply(cfg, xs, s) {
        ReplyStage(cfg, sid, xs, s);
        CompletionAt(cfg, sid, xs, s, move);
        ServerInTurn(sid, s.sh, xs[s.k].reply[s.j], s.stage, now, move.at);
      }
    }
  }

  // A completion is not taken up before the query is announced.
  lemma WaitsForClient(cfg: Config, sid: nat, xs: seq<Exchange>, s: Sys)
    requires AllAnswered(xs) && Invariant(cfg, sid, xs, s) && s.k < |xs| && !s.pc.Done?
    ensures !s.stage.Popping? && !s.stage.Returning?
  {
  }

  lemma ReplyStage(cfg: Config, sid: nat, xs: seq<Exchange>, s: Sys)
    requires AllAnswered(xs) && Invariant(cfg, sid, xs, s) && s.k < |xs| && s.j < |xs[s.k].reply|
    ensures StageOf(xs[s.k].reply[s.j], s.stage)
  {
  }

  lemma CompletionAt(cfg: Config, sid: nat, xs: seq<Exchange>, s: Sys, move: Move)
    requires AllAnswered(xs) && Invariant(cfg, sid, xs, s) && TimelyMove(cfg, xs, s, move)
    requires move.ServerSide? && CanReply(cfg, xs, s)
    ensures s.stage.Receive? && xs[s.k].reply[s.j].CommandComplete? && FrontIsTrue(s.sh.queue) ==>
              Fresh(s.sh.events + [QueryComplete(sid, move.at)], sid)
  {
    if s.stage.Receive? && xs[s.k].reply[s.j].CommandComplete? {
      assert s.pc.Done?;
      CompletionInTurn(cfg, sid, s.sh, xs[s.k], s.j, AllVisible(cfg, xs[..s.k]), AllSent(cfg, xs[..s.k]),
                       AllCaptured(cfg, xs[..s.k]), move.at);
    }
  }

  // The steps of a run happen one after the other.
  predicate Forwards(moves: seq<Move>, now: nat) {
    (forall i :: 0 <= i < |moves| ==> now <= moves[i].at)
    && forall i, j :: 0 <= i < j < |moves| ==> moves[i].at <= moves[j].at
  }

  lemma {:induction false} RunInTurn(cfg: Config, sid: nat, xs: seq<Exchange>, s: Sys, moves: seq<Move>, now: nat)
    returns (end: nat)
    requires AllAnswered(xs) && Invariant(cfg, sid, xs, s) && Timely(cfg, sid, xs, s, moves)
    requires InTurn(sid, s, now) && Forwards(moves, now)
    ensures InTurn(sid, RunFrom(cfg, sid, xs, s, moves), end)
    decreases |moves|
  {
    hide InTurn, Invariant;
    if moves == [] {
      end := now;
    } else {
      InvariantNext(cfg, sid, xs, s, moves[0]);
      NextInTurn(cfg, sid, xs, s, moves[0], now);
      end := RunInTurn(cfg, sid, xs, Next(cfg, sid, xs, s, moves[0]), moves[1..], moves[0].at);
    }
  }

  // ---- one session in the channel ----

  lemma OnlyAt(events: seq<Event>, i: nat, sid: nat)
    requires i < |events| && events[i].sid == sid
    ensures var a := |Collector.Only(events[..i], sid)|;
            && a < |Collector.Only(events, sid)| && Collector.Only(events, sid)[a] == events[i]
            && Collector.Only(events, sid)[..a] == Collector.Only(events[..i], sid)
  {
    var n := |events| - 1;
    if i < n {
      OnlyAt(events[..n], i, sid);
      assert events[..n][..i] == events[..i];
    }
  }

  // Two events of the session keep their order.
  lemma OnlyOrder(events: seq<Event>, i: nat, j: nat, sid: nat) returns (a: nat, b: nat)
    requires i < j < |events| && events[i].sid == events[j].sid == sid
    ensures a < b < |Collector.Only(events, sid)|
    ensures Collector.Only(events, sid)[a] == events[i] && Collector.Only(events, sid)[b] == events[j]
  {
    a, b := |Collector.Only(events[..i], sid)|, |Collector.Only(events[..j], sid)|;
    OnlyAt(events, i, sid);
    OnlyAt(events, j, sid);
    OnlyAt(events[..j], i, sid);
    assert events[..j][..i] == events[..i];
  }

  lemma CapturedOnly(events: seq<Event>, sid: nat)
    ensures Captured(events, sid) == Captured(Collector.Only(events, sid), sid)
    ensures sid in Collector.Run(events) <==> sid in Collector.Run(Collector.Only(events, sid))
  {
    Collector.SessionsAreIndependent(events, sid);
  }

  // ---- what a connection sends ----

  // A connection, its exchanges, and the interleaved steps of its two loops.
  datatype Client = Client(
    cfg: Config, sid: nat, user: string, database: string, since: nat, xs: seq<Exchange>, moves: seq<Move>, ended: bool)

  // All exchanges are done, each step came in time, and the clock went forward.
  ghost predicate Served(c: Client) {
    && AllAnswered(c.xs) && Timely(c.cfg, c.sid, c.xs, INITIAL, c.moves) && Forwards(c.moves, 0)
    && RunFrom(c.cfg, c.sid, c.xs, INITIAL, c.moves).k == |c.xs|
  }

  ghost function QueryEvents(c: Client): seq<Event> {
    RunFrom(c.cfg, c.sid, c.xs, INITIAL, c.moves).sh.events
  }

  // The session is announced, its queries follow, and it may have ended.
  function Framed(c: Client, events: seq<Event>): seq<Event> {
    [SessionStart(c.sid, c.user, c.database, c.since)] + events + if c.ended then [SessionEnd(c.sid)] else []
  }

  ghost function SentEvents(c: Client): seq<Event> {
    Framed(c, QueryEvents(c))
  }

  lemma ServedIsTidy(c: Client) returns (end: nat)
    requires Served(c)
    ensures Tidy(QueryEvents(c), c.sid, end)
    ensures Captured(QueryEvents(c), c.sid) == AllCaptured(c.cfg, c.xs)
  {
    TimelyRunsAreFaithful(c.cfg, c.sid, c.xs, c.moves);
    InvariantInitially(c.cfg, c.sid, c.xs);
    end := RunInTurn(c.cfg, c.sid, c.xs, INITIAL, c.moves, 0);
  }

  // The announcement changes offsets, but not what is captured.
  lemma {:induction false} AnnouncedCaptures(start: Event, events: seq<Event>, sid: nat)
    requires start.SessionStart? && start.sid == sid && forall i :: 0 <= i < |events| ==> IsOwn(events[i], sid)
    ensures Captured([start] + events, sid) == Captured(events, sid)
    ensures Pending([start] + events, sid) == Pending(events, sid)
    ensures sid in Collector.Run([start] + events)
  {
    hide Captured, Pending, Collector.Run, IsOwn;
    if events == [] {
      assert [start] + events == [start];
      AnnouncedAlone(start, sid);
    } else {
      var before, e := events[..|events| - 1], events[|events| - 1];
      AnnouncedCaptures(start, before, sid);
      assert [start] + events == [start] + before + [e] && events == before + [e];
      KnownStays([start] + before, e, sid);
      SameReaction([start] + before, before, e, sid);
    }
  }

  lemma AnnouncedAlone(start: Event, sid: nat)
    requires start.SessionStart? && start.sid == sid
    ensures Captured([start], sid) == Captured([], sid) && Pending([start], sid) == Pending([], sid)
    ensures sid in Collector.Run([start])
  {
    Collector.RunAppend([], start);
    assert [] + [start] == [start];
  }

  lemma KnownStays(events: seq<Event>, e: Event, sid: nat)
    requires sid in Collector.Run(events)
    ensures sid in Collector.Run(events + [e])
  {
    Collector.RunAppend(events, e);
  }

  lemma SameReaction(a: seq<Event>, b: seq<Event>, e: Event, sid: nat)
    requires IsOwn(e, sid) && Captured(a, sid) == Captured(b, sid) && Pending(a, sid) == Pending(b, sid)
    ensures Captured(a + [e], sid) == Captured(b + [e], sid) && Pending(a + [e], sid) == Pending(b + [e], sid)
  {
    hide Captured, Pending;
    match e
    case QueryStart(_, sql, at) =>
      CaptureStart(a, sid, sql, at);
      CaptureStart(b, sid, sql, at);
    case QueryReturning(_, columns, rows) =>
      CaptureReturning(a, sid, columns, rows);
      CaptureReturning(b, sid, columns, rows);
    case _ =>
      CaptureDone(a, sid, e);
      CaptureDone(b, sid, e);
  }

  lemma EndCaptures(events: seq<Event>, sid: nat)
    ensures Captured(events + [SessionEnd(sid)], sid) == Captured(events, sid)
    ensures sid in Collector.Run(events + [SessionEnd(sid)]) <==> sid in Collector.Run(events)
  {
    Collector.RunAppend(events, SessionEnd(sid));
  }

  lemma FramedCaptures(c: Client, events: seq<Event>)
    requires forall i :: 0 <= i < |events| ==> IsOwn(events[i], c.sid)
    ensures Captured(Framed(c, events), c.sid) == Captured(events, c.sid)
    ensures c.sid in Collector.Run(Framed(c, events))
  {
    var start := SessionStart(c.sid, c.user, c.database, c.since);
    AnnouncedCaptures(start, events, c.sid);
    EndCaptures([start] + events, c.sid);
    assert [start] + events + [] == [start] + events;
  }

  // Within the frame, RETURNING answers still come in turn.
  lemma FramedInTurn(c: Client, events: seq<Event>, now: nat, a: nat)
    requires Tidy(events, c.sid, now) && a < |Framed(c, events)| && Framed(c, events)[a].QueryReturning?
    ensures Fresh(Framed(c, events)[..a], c.sid)
  {
    var start := SessionStart(c.sid, c.user, c.database, c.since);
    var all := Framed(c, events);
    assert 0 < a <= |events| && all[a] == events[a - 1];
    assert all[..a] == [start] + events[..a - 1];
    AnnouncedCaptures(start, events[..a - 1], c.sid);
  }

  // ---- several connections in one channel ----

  // Any interleaving of what the connections send.
  ghost predicate Carries(events: seq<Event>, clients: seq<Client>) {
    && (forall i :: 0 <= i < |clients| ==> Collector.Only(events, clients[i].sid) == SentEvents(clients[i]))
    && forall k :: 0 <= k < |events| ==> exists i :: 0 <= i < |clients| && events[k].sid == clients[i].sid
  }

  ghost predicate AllServed(clients: seq<Client>) {
    forall i :: 0 <= i < |clients| ==> Served(clients[i])
  }

  lemma StartIsFirst(c: Client, a: nat)
    requires Served(c) && a < |SentEvents(c)| && SentEvents(c)[a].SessionStart?
    ensures a == 0
  {
    var _ := ServedIsTidy(c);
  }

  lemma CarriedStartFirst(events: seq<Event>, clients: seq<Client>)
    requires Carries(events, clients) && AllServed(clients)
    ensures Collector.StartsFirst(events)
  {
    hide SentEvents, Served;
    forall i, j | 0 <= i < j < |events| && events[j].SessionStart? ensures events[i].sid != events[j].sid {
      if events[i].sid == events[j].sid {
        var k :| 0 <= k < |clients| && events[j].sid == clients[k].sid;
        var a, b := OnlyOrder(events, i, j, clients[k].sid);
        StartIsFirst(clients[k], b);
      }
    }
  }

  lemma StartsAreInOrder(c: Client, a: nat, b: nat)
    requires Served(c) && a < b < |SentEvents(c)|
    requires SentEvents(c)[a].QueryStart? && SentEvents(c)[b].QueryStart?
    ensures SentEvents(c)[a].at <= SentEvents(c)[b].at
  {
    var _ := ServedIsTidy(c);
    assert SentEvents(c)[a] == QueryEvents(c)[a - 1] && SentEvents(c)[b] == QueryEvents(c)[b - 1];
  }

  lemma CarriedClock(events: seq<Event>, c: Client)
    requires Collector.Only(events, c.sid) == SentEvents(c) && Served(c)
    ensures Control.ClockForward(events, c.sid)
  {
    hide SentEvents, Served;
    forall i, j | 0 <= i < j < |events| && Control.StartsQuery(events[i], c.sid)
                  && Control.StartsQuery(events[j], c.sid)
      ensures events[i].at <= events[j].at
    {
      var a, b := OnlyOrder(events, i, j, c.sid);
      StartsAreInOrder(c, a, b);
    }
  }

  // The events of a schedule up to one of its ticks.
  lemma EventsAt(rx: seq<Staging.Tick>, t: nat)
    requires t < |rx| && rx[t].Recv?
    ensures var n := |Staging.Events(rx[..t])|;
            && n < |Staging.Events(rx)| && Staging.Events(rx)[n] == rx[t].event
            && Staging.Events(rx)[..n] == Staging.Events(rx[..t])
  {
    var last := |rx| - 1;
    if t < last {
      EventsAt(rx[..last], t);
      assert rx[..last][..t] == rx[..t];
    }
  }

  lemma FreshIsUnanswered(events: seq<Event>, sid: nat)
    requires Fresh(events, sid)
    ensures Staging.Unanswered(Collector.Run(events), sid)
  {
    var m := Collector.Run(events);
    if sid in m && m[sid].queries != [] {
      var c := Captured(events, sid);
      assert c[|c| - 1].response == m[sid].queries[|c| - 1].response;
    }
  }

  lemma CarriedAnsweredAt(events: seq<Event>, n: nat, c: Client)
    requires Collector.Only(events, c.sid) == SentEvents(c) && Served(c)
    requires n < |events| && events[n].QueryReturning? && events[n].sid == c.sid
    ensures Staging.Unanswered(Collector.Run(events[..n]), c.sid)
  {
    OnlyAt(events, n, c.sid);
    var end := ServedIsTidy(c);
    FramedInTurn(c, QueryEvents(c), end, |Collector.Only(events[..n], c.sid)|);
    CapturedOnly(events[..n], c.sid);
    FreshIsUnanswered(events[..n], c.sid);
  }

  lemma CarriedAnsweredOnce(rx: seq<Staging.Tick>, c: Client)
    requires Collector.Only(Staging.Events(rx), c.sid) == SentEvents(c) && Served(c)
    ensures Staging.AnsweredOnce(rx, c.sid)
  {
    hide SentEvents, Served;
    forall t | 0 <= t < |rx| && rx[t].Recv? && rx[t].event.QueryReturning? && rx[t].event.sid == c.sid
      ensures Staging.Unanswered(Collector.Run(Staging.Events(rx[..t])), c.sid)
    {
      EventsAt(rx, t);
      CarriedAnsweredAt(Staging.Events(rx), |Staging.Events(rx[..t])|, c);
    }
  }

  // ---- what the profile holds ----

  function Briefs(queries: seq<CapturedQuery>): seq<Brief> {
    seq(|queries|, i requires 0 <= i < |queries| => Brief(queries[i].sql, queries[i].error, queries[i].response))
  }

  // The expected texts and errors, in order.
  predicate SameOutcomes(queries: seq<CapturedQuery>, expected: seq<Brief>) {
    && |queries| == |expected|
    && forall k :: 0 <= k < |queries| ==> queries[k].sql == expected[k].sql && queries[k].error == expected[k].error
  }

  lemma SameBriefs(a: seq<CapturedQuery>, b: seq<CapturedQuery>)
    requires Control.SameQueries(a, b)
    ensures |a| == |b|
    ensures forall i :: 0 <= i < |a| ==> a[i].sql == b[i].sql && a[i].error == b[i].error
    ensures Briefs(a) == Briefs(b) <==> a == b
  {
    forall i | 0 <= i < |a| ensures a[i].sql == b[i].sql && a[i].error == b[i].error {
      Control.SameButResponse(a[i], b[i]);
    }
    if Briefs(a) == Briefs(b) {
      forall i | 0 <= i < |a| ensures a[i] == b[i] {
        assert Briefs(a)[i].response == Briefs(b)[i].response;
        assert a[i] == a[i].(response := None).(response := a[i].response);
        assert b[i] == b[i].(response := None).(response := b[i].response);
      }
    }
  }

  lemma {:induction false} OnlyIsPart(events: seq<Event>, sid: nat)
    ensures forall e :: e in Collector.Only(events, sid) ==> e in events
  {
    if events == [] {
    } else {
      OnlyIsPart(events[..|events| - 1], sid);
    }
  }

  // Who a connection says it is.
  lemma CarriedName(events: seq<Event>, c: Client, user: string, database: string)
    requires Collector.Only(events, c.sid) == SentEvents(c) && Staging.AnnouncedAs(events, c.sid, user, database)
    ensures user == c.user && database == c.database
  {
    var start := SessionStart(c.sid, c.user, c.database, c.since);
    assert SentEvents(c)[0] == start;
    assert start in Collector.Only(events, c.sid);
    OnlyIsPart(events, c.sid);
    var i :| 0 <= i < |events| && events[i] == start;
  }

  predicate NamedRows(rows: seq<Staging.StagingRow>, id: string, c: Client) {
    forall k :: 0 <= k < |rows| && rows[k].sid == c.sid ==>
      rows[k].captureId == id && rows[k].user == c.user && rows[k].database == c.database
  }

  lemma CarriedNames(id: string, events: seq<Event>, rows: seq<Staging.StagingRow>, c: Client)
    requires Collector.Only(events, c.sid) == SentEvents(c) && Control.HoldsNames(id, events, c.sid, rows)
    ensures NamedRows(rows, id, c)
  {
    forall k | 0 <= k < |rows| && rows[k].sid == c.sid
      ensures rows[k].user == c.user && rows[k].database == c.database
    {
      CarriedName(events, c, rows[k].user, rows[k].database);
    }
  }

  // What the collector would hold in memory is what the exchanges should lead to.
  lemma CarriedCaptures(events: seq<Event>, c: Client)
    requires Collector.Only(events, c.sid) == SentEvents(c) && Served(c)
    ensures c.sid in Collector.Run(events)
    ensures Briefs(Collector.Run(events)[c.sid].queries) == AllCaptured(c.cfg, c.xs)
  {
    var _ := ServedIsTidy(c);
    FramedCaptures(c, QueryEvents(c));
    CapturedOnly(events, c.sid);
    assert Briefs(Collector.Run(events)[c.sid].queries) == Captured(events, c.sid);
  }

  // The queries of one session read back from a capture window.
  lemma ReadFromWindow(id: string, rx: seq<Staging.Tick>, clients: seq<Client>, i: nat)
    requires Carries(Staging.Events(rx), clients) && AllServed(clients) && i < |clients|
    ensures var c, queries := clients[i], Staging.QueriesOf(Control.ByStart(Staging.Staged(id, rx)), clients[i].sid);
            var expected := AllCaptured(c.cfg, c.xs);
            && SameOutcomes(queries, expected)
            && (Briefs(queries) == expected <==> Control.Undisturbed(id, rx, c.sid))
  {
    hide SentEvents, Served, Briefs, Control.Undisturbed, Control.HoldsPairs, Control.SameQueries, Staging.EqualUpTo;
    hide Collector.TellsAll, Collector.StartsFirst, Control.ClockForward, Staging.AnsweredOnce, Staging.Lost;
    var c, events := clients[i], Staging.Events(rx);
    CarriedStartFirst(events, clients);
    CarriedClock(events, c);
    CarriedAnsweredOnce(rx, c);
    CarriedCaptures(events, c);
    Control.ReadPairs(id, rx, c.sid);
    Staging.StagingRefinesCollector(id, rx, c.sid);
    var queries, kept := Staging.QueriesOf(Staging.Staged(id, rx), c.sid), Collector.Run(events)[c.sid].queries;
    Control.EqualIsSame(queries, kept, Staging.Lost(id, rx, c.sid));
    SameBriefs(queries, kept);
    BriefsOf(kept);
  }

  lemma NamesFromWindow(id: string, rx: seq<Staging.Tick>, clients: seq<Client>, i: nat)
    requires Carries(Staging.Events(rx), clients) && AllServed(clients) && i < |clients|
    ensures NamedRows(Control.ByStart(Staging.Staged(id, rx)), id, clients[i])
  {
    CarriedStartFirst(Staging.Events(rx), clients);
    Control.ReadNames(id, rx, clients[i].sid);
    CarriedNames(id, Staging.Events(rx), Control.ByStart(Staging.Staged(id, rx)), clients[i]);
  }

  lemma BriefsOf(queries: seq<CapturedQuery>)
    ensures |Briefs(queries)| == |queries|
    ensures forall k :: 0 <= k < |queries| ==>
              Briefs(queries)[k].sql == queries[k].sql && Briefs(queries)[k].error == queries[k].error
  {
  }

  // What was done while a profile's capture was open.
  function Window(actions: seq<Control.Action>, w: Control.Profile): seq<Control.Action> {
    if w.lo < w.hi < |actions| then actions[w.lo + 1..w.hi] else []
  }

  /** Several connections whose steps come in time and whose events are interleaved in any way within one
      capture window: the written profile holds, for each of them, under its user and database, one query per
      exchange with its text and error, in order; and also the rows that each exchange returned, exactly if no
      flush came between one of its completions and its rows. */
  lemma ProfileHoldsTheExchanges(actions: seq<Control.Action>, p: nat, clients: seq<Client>, i: nat)
    requires p < |Control.Run(actions).written| && i < |clients| && AllServed(clients)
    requires Carries(Control.Forwarded(Window(actions, Control.Run(actions).written[p])), clients)
    ensures var w, c := Control.Run(actions).written[p], clients[i];
            var queries, expected := Staging.QueriesOf(w.rows, c.sid), AllCaptured(c.cfg, c.xs);
            && SameOutcomes(queries, expected)
            && (Briefs(queries) == expected <==>
                  Control.Undisturbed(w.id, Control.Ticks(Window(actions, w)), c.sid))
            && forall k :: 0 <= k < |w.rows| && w.rows[k].sid == c.sid ==>
                 w.rows[k].captureId == w.id && w.rows[k].user == c.user && w.rows[k].database == c.database
  {
    hide Carries, Control.Undisturbed, Briefs, Control.Run;
    var w := Control.Run(actions).written[p];
    Control.WrittenIsWindow(actions, p);
    Control.TicksEvents(Window(actions, w));
    ReadFromWindow(w.id, Control.Ticks(Window(actions, w)), clients, i);
    NamesFromWindow(w.id, Control.Ticks(Window(actions, w)), clients, i);
  }
}
