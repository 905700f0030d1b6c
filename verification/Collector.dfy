/** The in-memory capture collector (src/proxy/capture.rs, run_collector): a loop over the event
    channel that keeps one state per session, and what its result means in terms of the events. */
module Collector {
  import opened Wrappers
  import opened CaptureEvents

  datatype SessionState = SessionState(
    user: string, database: string, sessionStart: nat, queries: seq<CapturedQuery>, pending: Option<(string, nat)>)

  type Sessions = map<nat, SessionState>

  // The collector's reaction to one event.
  function Step(m: Sessions, e: Event): Sessions {
    match e
    case SessionStart(sid, user, database, at) =>
      m[sid := SessionState(user, database, at, [], None)]
    case QueryStart(sid, sql, at) =>
      var s := if sid in m then m[sid] else SessionState("unknown", "unknown", at, [], None);
      m[sid := s.(pending := Some((sql, at)))]
    case QueryComplete(sid, _) => Close(m, e)
    case QueryError(sid, _, _) => Close(m, e)
    case QueryReturning(sid, columns, rows) =>
      if sid in m && m[sid].queries != [] then
        var s := m[sid];
        var last := |s.queries| - 1;
        m[sid := s.(queries := s.queries[last := s.queries[last].(response := Some(RenderRows(columns, rows)))])]
      else m
    case SessionEnd(_) => m
  }

  function Close(m: Sessions, e: Event): Sessions
    requires IsCompletion(e)
  {
    if e.sid in m && m[e.sid].pending.Some? then
      var s := m[e.sid];
      var (sql, start) := s.pending.value;
      m[e.sid := s.(queries := s.queries + [Record(s.sessionStart, sql, start, e)], pending := None)]
    else m
  }

  function Run(events: seq<Event>): Sessions {
    if events == [] then map[]
    else Step(Run(events[..|events| - 1]), events[|events| - 1])
  }

  lemma RunAppend(events: seq<Event>, e: Event)
    ensures Run(events + [e]) == Step(Run(events), e)
  {
    assert (events + [e])[..|events|] == events;
  }

  /** The collector loop; sessions without a captured query are dropped from the result. */
  method RunCollector(rx: seq<Event>) returns (captured: map<nat, (string, string, seq<CapturedQuery>)>)
    ensures forall sid :: sid in captured <==> sid in Run(rx) && Run(rx)[sid].queries != []
    ensures forall sid :: sid in captured ==>
      captured[sid] == (Run(rx)[sid].user, Run(rx)[sid].database, Run(rx)[sid].queries)
    ensures StartsFirst(rx) ==> forall sid :: sid in captured <==> Pairs(rx, sid) != []
    ensures StartsFirst(rx) ==> forall sid :: sid in captured ==>
      TellsAll(rx, sid, captured[sid].0, captured[sid].1, Run(rx)[sid].sessionStart, captured[sid].2)
  {
    hide TellsAll, StartsFirst, RenderRows;
    var sessions: Sessions := map[];
    for n := 0 to |rx|
      invariant sessions == Run(rx[..n])
    {
      assert rx[..n + 1] == rx[..n] + [rx[n]];
      RunAppend(rx[..n], rx[n]);
      match rx[n]
      case SessionStart(sid, user, database, at) =>
        sessions := sessions[sid := SessionState(user, database, at, [], None)];
      case QueryStart(sid, sql, at) =>
        if sid !in sessions {
          sessions := sessions[sid := SessionState("unknown", "unknown", at, [], None)];
        }
        sessions := sessions[sid := sessions[sid].(pending := Some((sql, at)))];
      case QueryComplete(sid, at) =>
        if sid in sessions && sessions[sid].pending.Some? {
          var s := sessions[sid];
          var q := CapturedQuery(s.pending.value.0, Since(s.pending.value.1, s.sessionStart),
                                 Since(at, s.pending.value.1), None, None);
          sessions := sessions[sid := s.(pending := None, queries := s.queries + [q])];
        }
      case QueryError(sid, message, at) =>
        if sid in sessions && sessions[sid].pending.Some? {
          var s := sessions[sid];
          var q := CapturedQuery(s.pending.value.0, Since(s.pending.value.1, s.sessionStart),
                                 Since(at, s.pending.value.1), Some(message), None);
          sessions := sessions[sid := s.(pending := None, queries := s.queries + [q])];
        }
      case QueryReturning(sid, columns, rows) =>
        if sid in sessions && sessions[sid].queries != [] {
          var s := sessions[sid];
          var last := |s.queries| - 1;
          var q := s.queries[last].(response := Some(RenderRows(columns, rows)));
          sessions := sessions[sid := s.(queries := s.queries[last := q])];
        }
      case SessionEnd(sid) =>
    }
    assert rx[..|rx|] == rx;
    captured := map sid | sid in sessions && sessions[sid].queries != [] ::
      (sessions[sid].user, sessions[sid].database, sessions[sid].queries);
    if StartsFirst(rx) {
      forall sid: nat
        ensures sid in captured <==> Pairs(rx, sid) != []
        ensures sid in captured ==>
          TellsAll(rx, sid, captured[sid].0, captured[sid].1, Run(rx)[sid].sessionStart, captured[sid].2)
      {
        CapturedIffPaired(rx, sid);
      }
    }
  }

  lemma CapturedIffPaired(events: seq<Event>, sid: nat)
    requires StartsFirst(events)
    ensures sid in Run(events) && Run(events)[sid].queries != [] <==> Pairs(events, sid) != []
    ensures sid in Run(events) ==>
              var s := Run(events)[sid]; TellsAll(events, sid, s.user, s.database, s.sessionStart, s.queries)
  {
    CollectorCapturesMatches(events, sid);
  }

  // ---- What a capture means: matched start/completion pairs ----

  // Relays announce a session once, before any of its other events.
  ghost predicate StartsFirst(events: seq<Event>) {
    forall i, j :: 0 <= i < j < |events| && events[j].SessionStart? ==> events[i].sid != events[j].sid
  }

  // Event j closes the query opened by event i of the same session.
  ghost predicate Matches(events: seq<Event>, sid: nat, i: int, j: int) {
    && 0 <= i < j < |events|
    && events[i].QueryStart? && events[i].sid == sid
    && IsCompletion(events[j]) && events[j].sid == sid
    && forall k :: i < k < j ==> !(events[k].sid == sid && IsQueryEvent(events[k]))
  }

  // Index of the query of `sid` still open after `events`, if any.
  ghost function OpenAt(events: seq<Event>, sid: nat): Option<nat> {
    if events == [] then None
    else
      var n := |events| - 1;
      if events[n].sid == sid && events[n].QueryStart? then Some(n)
      else if events[n].sid == sid && IsCompletion(events[n]) then None
      else OpenAt(events[..n], sid)
  }

  lemma OpenAtMeaning(events: seq<Event>, sid: nat, i: nat)
    requires i < |events|
    ensures OpenAt(events, sid) == Some(i) <==>
            (&& events[i].QueryStart? && events[i].sid == sid
             && forall k :: i < k < |events| ==> !(events[k].sid == sid && IsQueryEvent(events[k])))
  {
    var n := |events| - 1;
    if i < n && !(events[n].sid == sid && IsQueryEvent(events[n])) {
      OpenAtMeaning(events[..n], sid, i);
    } else if i < n {
      OpenAtBound(events[..n], sid);
    } else {
      OpenAtBound(events[..n], sid);
    }
  }

  lemma OpenAtBound(events: seq<Event>, sid: nat)
    ensures OpenAt(events, sid).Some? ==> OpenAt(events, sid).value < |events|
  {
  }

  // The matched pairs of a session, in order of completion.
  ghost function Pairs(events: seq<Event>, sid: nat): seq<(nat, nat)> {
    if events == [] then []
    else
      var n := |events| - 1;
      var before := Pairs(events[..n], sid);
      if events[n].sid == sid && IsCompletion(events[n]) && OpenAt(events[..n], sid).Some?
      then before + [(OpenAt(events[..n], sid).value, n)]
      else before
  }

  /** Pairs lists exactly the matched pairs, ordered and without repetition. */
  lemma {:induction false} PairsAreTheMatches(events: seq<Event>, sid: nat)
    ensures forall i: nat, j: nat :: (i, j) in Pairs(events, sid) <==> Matches(events, sid, i, j)
    ensures forall a, b :: 0 <= a < b < |Pairs(events, sid)| ==> Pairs(events, sid)[a].1 < Pairs(events, sid)[b].1
  {
    if events == [] {
    } else {
      var n := |events| - 1;
      var prefix := events[..n];
      PairsAreTheMatches(prefix, sid);
      forall i: nat, j: nat
        ensures (i, j) in Pairs(events, sid) <==> Matches(events, sid, i, j)
      {
        if j < n {
          assert Matches(prefix, sid, i, j) <==> Matches(events, sid, i, j);
        } else if j == n && i < n {
          OpenAtMeaning(prefix, sid, i);
          assert !Matches(prefix, sid, i, j);
        } else {
          OpenAtBound(prefix, sid);
          assert !Matches(prefix, sid, i, j);
        }
      }
      forall p | p in Pairs(prefix, sid) ensures p.1 < n {
        assert (p.0, p.1) in Pairs(prefix, sid);
        assert Matches(prefix, sid, p.0, p.1);
      }
    }
  }

  ghost predicate AllMatch(events: seq<Event>, sid: nat) {
    var pairs := Pairs(events, sid);
    forall k :: 0 <= k < |pairs| ==> Matches(events, sid, pairs[k].0, pairs[k].1)
  }

  // The rows of the last QueryReturning of `sid` strictly between lo and hi.
  ghost function ResponseBetween(events: seq<Event>, sid: nat, lo: nat, hi: nat): Option<seq<ResponseRow>>
    requires hi <= |events|
    decreases hi
  {
    if hi <= lo + 1 then None
    else if events[hi - 1].QueryReturning? && events[hi - 1].sid == sid
    then Some(RenderRows(events[hi - 1].columns, events[hi - 1].rows))
    else ResponseBetween(events, sid, lo, hi - 1)
  }

  // User, database and start instant of a session: announced, or made up at its first query.
  ghost function Meta(events: seq<Event>, sid: nat): Option<(string, string, nat)> {
    if events == [] then None
    else
      var n := |events| - 1;
      var before := Meta(events[..n], sid);
      if before.Some? || events[n].sid != sid then before
      else match events[n]
           case SessionStart(_, user, database, at) => Some((user, database, at))
           case QueryStart(_, _, at) => Some(("unknown", "unknown", at))
           case _ => None
  }

  // Where the k-th query's rows stop coming: at the next completion, or at the end.
  ghost function NextDone(events: seq<Event>, sid: nat, k: nat): (n: nat)
    requires AllMatch(events, sid)
    ensures n <= |events|
  {
    var pairs := Pairs(events, sid);
    if k + 1 < |pairs| then pairs[k + 1].1 else |events|
  }

  // The k-th capture of a session, read off the event stream alone.
  ghost function Expected(events: seq<Event>, sid: nat, k: nat): CapturedQuery
    requires k < |Pairs(events, sid)| && Meta(events, sid).Some?
    requires AllMatch(events, sid)
  {
    var pairs := Pairs(events, sid);
    var i, j := pairs[k].0, pairs[k].1;
    Record(Meta(events, sid).value.2, events[i].sql, events[i].at, events[j])
      .(response := ResponseBetween(events, sid, j, NextDone(events, sid, k)))
  }

  lemma PairsMatch(events: seq<Event>, sid: nat)
    ensures AllMatch(events, sid)
  {
    PairsAreTheMatches(events, sid);
    var pairs := Pairs(events, sid);
    forall k | 0 <= k < |pairs| ensures Matches(events, sid, pairs[k].0, pairs[k].1) {
      assert (pairs[k].0, pairs[k].1) in pairs;
    }
  }

  // What the collector has stored for a session, in terms of the events.
  ghost predicate Captures(events: seq<Event>, sid: nat)
  {
    var m := Run(events);
    && (sid in m <==> Meta(events, sid).Some?)
    && (sid !in m ==> Pairs(events, sid) == [] && OpenAt(events, sid).None?)
    && (sid in m ==>
          && Meta(events, sid).value == (m[sid].user, m[sid].database, m[sid].sessionStart)
          && (m[sid].pending.None? <==> OpenAt(events, sid).None?)
          && (forall i: nat :: OpenAt(events, sid) == Some(i) && i < |events| && events[i].QueryStart? ==>
                m[sid].pending == Some((events[i].sql, events[i].at)))
          && (AllMatch(events, sid))
          && |m[sid].queries| == |Pairs(events, sid)|
          && (forall k :: 0 <= k < |m[sid].queries| ==> m[sid].queries[k] == Expected(events, sid, k)))
  }

  lemma ResponseBetweenPrefix(events: seq<Event>, n: nat, sid: nat, lo: nat, hi: nat)
    requires hi <= n <= |events|
    ensures ResponseBetween(events[..n], sid, lo, hi) == ResponseBetween(events, sid, lo, hi)
    decreases hi
  {
    if hi > lo + 1 { ResponseBetweenPrefix(events, n, sid, lo, hi - 1); }
  }

  lemma MetaHasEvent(events: seq<Event>, sid: nat)
    requires Meta(events, sid).Some?
    ensures exists i :: 0 <= i < |events| && events[i].sid == sid
  {
    var n := |events| - 1;
    if Meta(events[..n], sid).Some? {
      MetaHasEvent(events[..n], sid);
      var i :| 0 <= i < n && events[..n][i].sid == sid;
      assert events[i].sid == sid;
    } else {
      assert events[n].sid == sid;
    }
  }

  // The first event of the session that says who it is or, if it comes too late to be announced, a query.
  ghost predicate IntroducedAt(events: seq<Event>, sid: nat, i: int) {
    && 0 <= i < |events| && events[i].sid == sid && (events[i].SessionStart? || events[i].QueryStart?)
    && forall h :: 0 <= h < i && events[h].sid == sid ==> !events[h].SessionStart? && !events[h].QueryStart?
  }

  // The user, the database and the start of a session are the announced ones; without an announcement
  // they are unknown, and it starts with its first query.
  ghost predicate Introduced(events: seq<Event>, sid: nat, user: string, database: string, start: nat) {
    exists i :: IntroducedAt(events, sid, i) &&
      (if events[i].SessionStart? then user == events[i].user && database == events[i].database
       else user == "unknown" && database == "unknown")
      && start == events[i].at
  }

  lemma {:induction false} MetaIntroduces(events: seq<Event>, sid: nat)
    ensures match Meta(events, sid)
            case Some((user, database, start)) => Introduced(events, sid, user, database, start)
            case None => forall i :: !IntroducedAt(events, sid, i)
    ensures Meta(events, sid).None? ==> forall h :: 0 <= h < |events| && events[h].sid == sid ==>
                                          !events[h].SessionStart? && !events[h].QueryStart?
  {
    if events == [] {
    } else {
      var n := |events| - 1;
      var prefix := events[..n];
      MetaIntroduces(prefix, sid);
      if Meta(prefix, sid).Some? {
        var i :| IntroducedAt(prefix, sid, i) && Meta(prefix, sid).value.2 == prefix[i].at &&
          (if prefix[i].SessionStart? then Meta(prefix, sid).value.0 == prefix[i].user
                                           && Meta(prefix, sid).value.1 == prefix[i].database
           else Meta(prefix, sid).value.0 == "unknown" && Meta(prefix, sid).value.1 == "unknown");
        assert IntroducedAt(events, sid, i);
      } else if Meta(events, sid).Some? {
        assert IntroducedAt(events, sid, n);
      }
    }
  }

  // Event t brings the last RETURNING rows of the session strictly between events lo and hi.
  ghost predicate LastRows(events: seq<Event>, sid: nat, lo: int, hi: int, t: int) {
    && lo < t < hi <= |events| && 0 <= t && events[t].QueryReturning? && events[t].sid == sid
    && forall k :: t < k < hi ==> !(events[k].QueryReturning? && events[k].sid == sid)
  }

  lemma {:induction false} ResponseIsLastRows(events: seq<Event>, sid: nat, lo: nat, hi: nat)
    requires hi <= |events|
    ensures ResponseBetween(events, sid, lo, hi).Some? <==> exists t :: LastRows(events, sid, lo, hi, t)
    ensures forall t :: LastRows(events, sid, lo, hi, t) ==>
              Tabulates(ResponseBetween(events, sid, lo, hi).value, events[t].columns, events[t].rows)
    decreases hi
  {
    if hi > lo + 1 {
      if events[hi - 1].QueryReturning? && events[hi - 1].sid == sid {
        RenderedTable(events[hi - 1].columns, events[hi - 1].rows);
        assert LastRows(events, sid, lo, hi, hi - 1);
      } else {
        var before := hi - 1;
        ResponseIsLastRows(events, sid, lo, before);
        forall t ensures LastRows(events, sid, lo, before, t) <==> LastRows(events, sid, lo, hi, t) {}
        if t :| LastRows(events, sid, lo, before, t) { assert LastRows(events, sid, lo, hi, t); }
      }
    }
  }

  // The query that event i started and event j completed, in a session that began at `start`, with the last
  // rows that came before event `end`.
  ghost predicate Tells(q: CapturedQuery, events: seq<Event>, sid: nat, start: nat, i: nat, j: nat, end: nat)
    requires i < j < end <= |events| && events[i].QueryStart? && IsCompletion(events[j])
  {
    && q.sql == events[i].sql
    && q.startOffsetUs == (if start <= events[i].at then events[i].at - start else 0)
    && q.durationUs == (if events[i].at <= events[j].at then events[j].at - events[i].at else 0)
    && q.error == (match events[j] case QueryError(_, message, _) => Some(message) case _ => None)
    && (q.response.Some? <==> exists t :: LastRows(events, sid, j, end, t))
    && forall t :: LastRows(events, sid, j, end, t) ==>
         Tabulates(q.response.value, events[t].columns, events[t].rows)
  }

  // What a session's capture says of the events: who it was, and its queries in order of completion.
  ghost predicate TellsAll(events: seq<Event>, sid: nat, user: string, database: string, start: nat,
                           queries: seq<CapturedQuery>)
  {
    var pairs := Pairs(events, sid);
    && Introduced(events, sid, user, database, start)
    && |queries| == |pairs|
    && forall k {:trigger queries[k]} {:trigger pairs[k]} :: 0 <= k < |pairs| ==>
         var end := if k + 1 < |pairs| then pairs[k + 1].1 else |events|;
         && Matches(events, sid, pairs[k].0, pairs[k].1) && pairs[k].1 < end <= |events|
         && Tells(queries[k], events, sid, start, pairs[k].0, pairs[k].1, end)
  }

  /** For every stream in which a session is announced first, the collector holds for each session
      one query per matched start/completion pair, in order, with the table of the last RETURNING rows
      that came before the next completion, under the announced user and database. */
  lemma CollectorCapturesMatches(events: seq<Event>, sid: nat)
    requires StartsFirst(events)
    ensures sid in Run(events) <==> exists i :: IntroducedAt(events, sid, i)
    ensures sid in Run(events) ==>
              var s := Run(events)[sid]; TellsAll(events, sid, s.user, s.database, s.sessionStart, s.queries)
    ensures sid !in Run(events) ==> Pairs(events, sid) == []
  {
    CapturesAlways(events, sid);
    MetaIntroduces(events, sid);
    if sid in Run(events) {
      PairsAreTheMatches(events, sid);
      forall k | 0 <= k < |Pairs(events, sid)|
        ensures Pairs(events, sid)[k].1 < NextDone(events, sid, k)
        ensures var (i, j) := Pairs(events, sid)[k];
                Matches(events, sid, i, j)
                && Tells(Run(events)[sid].queries[k], events, sid, Run(events)[sid].sessionStart, i, j,
                         NextDone(events, sid, k))
      {
        ExpectedTells(events, sid, k);
      }
    }
  }

  lemma ExpectedTells(events: seq<Event>, sid: nat, k: nat)
    requires AllMatch(events, sid) && k < |Pairs(events, sid)| && Meta(events, sid).Some?
    requires forall a, b :: 0 <= a < b < |Pairs(events, sid)| ==> Pairs(events, sid)[a].1 < Pairs(events, sid)[b].1
    ensures Pairs(events, sid)[k].1 < NextDone(events, sid, k)
    ensures var (i, j) := Pairs(events, sid)[k];
            Matches(events, sid, i, j)
            && Tells(Expected(events, sid, k), events, sid, Meta(events, sid).value.2, i, j, NextDone(events, sid, k))
  {
    var (i, j) := Pairs(events, sid)[k];
    assert Matches(events, sid, i, j);
    ResponseIsLastRows(events, sid, j, NextDone(events, sid, k));
  }

  lemma {:induction false} CapturesAlways(events: seq<Event>, sid: nat)
    requires StartsFirst(events)
    ensures Captures(events, sid)
  {
    if events == [] {
    } else {
      var n := |events| - 1;
      var prefix := events[..n];
      assert StartsFirst(prefix);
      CapturesAlways(prefix, sid);
      PairsMatch(events, sid);
      OpenAtBound(prefix, sid);
      OpenAtBound(events, sid);
      if events[n].SessionStart? && events[n].sid == sid && Meta(prefix, sid).Some? {
        MetaHasEvent(prefix, sid);
      }
      CaptureStep(events, sid);
    }
  }

  lemma CaptureStep(events: seq<Event>, sid: nat)
    requires events != [] && Captures(events[..|events| - 1], sid)
    requires AllMatch(events, sid)
    requires OpenAt(events, sid).Some? ==> OpenAt(events, sid).value < |events|
    requires var e := events[|events| - 1]; e.SessionStart? && e.sid == sid ==> Meta(events[..|events| - 1], sid).None?
    ensures Captures(events, sid)
  {
    var n := |events| - 1;
    var prefix := events[..n];
    var e := events[n];
    var before, after := Run(prefix), Run(events);
    if OpenAt(prefix, sid).Some? {
      var i := OpenAt(prefix, sid).value;
      OpenAtBound(prefix, sid);
      OpenAtMeaning(prefix, sid, i);
      assert prefix[i] == events[i];
    }
    if sid in after && sid in before {
      forall k | 0 <= k < |after[sid].queries|
        ensures after[sid].queries[k] == Expected(events, sid, k)
      {
        ExpectedStep(events, sid, k);
      }
    }
  }

  lemma ExpectedStep(events: seq<Event>, sid: nat, k: nat)
    requires events != [] && Captures(events[..|events| - 1], sid) && sid in Run(events[..|events| - 1])
    requires AllMatch(events, sid)
    requires var e := events[|events| - 1]; !(e.SessionStart? && e.sid == sid)
    requires sid in Run(events) && k < |Run(events)[sid].queries|
    ensures k < |Pairs(events, sid)| && Meta(events, sid).Some?
    ensures Run(events)[sid].queries[k] == Expected(events, sid, k)
  {
    if k < |Pairs(events[..|events| - 1], sid)| { ExpectedStays(events, sid, k); } else { ExpectedNew(events, sid, k); }
  }

  // A query that was captured before the last event.
  lemma ExpectedStays(events: seq<Event>, sid: nat, k: nat)
    requires events != [] && Captures(events[..|events| - 1], sid) && sid in Run(events[..|events| - 1])
    requires AllMatch(events, sid)
    requires var e := events[|events| - 1]; !(e.SessionStart? && e.sid == sid)
    requires sid in Run(events) && k < |Run(events)[sid].queries| && k < |Pairs(events[..|events| - 1], sid)|
    ensures k < |Pairs(events, sid)| && Meta(events, sid).Some?
    ensures Run(events)[sid].queries[k] == Expected(events, sid, k)
  {
    ExpectedGrows(events, sid, k);
  }

  // One more event pushes the end of the latest capture's rows, unless it is the next completion.
  lemma NextDoneGrows(events: seq<Event>, sid: nat, k: nat)
    requires events != [] && AllMatch(events, sid) && AllMatch(events[..|events| - 1], sid)
    requires k < |Pairs(events[..|events| - 1], sid)|
    ensures Pairs(events[..|events| - 1], sid) <= Pairs(events, sid)
    ensures Pairs(events, sid)[k].1 < |events| - 1
    ensures var before, after := NextDone(events[..|events| - 1], sid, k), NextDone(events, sid, k);
            if after == |events| then before == |events| - 1 && k + 1 == |Pairs(events[..|events| - 1], sid)|
            else after == before
    ensures k + 1 == |Pairs(events[..|events| - 1], sid)| && events[|events| - 1].QueryReturning? ==>
              NextDone(events, sid, k) == |events|
  {
    var prefix := events[..|events| - 1];
    var before := Pairs(prefix, sid);
    assert Matches(prefix, sid, before[k].0, before[k].1);
    assert k + 1 < |before| ==> Matches(prefix, sid, before[k + 1].0, before[k + 1].1);
  }

  // What one more event changes about an earlier capture: the rows of the latest one.
  lemma ExpectedGrows(events: seq<Event>, sid: nat, k: nat)
    requires events != [] && AllMatch(events, sid) && AllMatch(events[..|events| - 1], sid)
    requires k < |Pairs(events[..|events| - 1], sid)| && Meta(events[..|events| - 1], sid).Some?
    ensures Meta(events, sid).Some? && k < |Pairs(events, sid)|
    ensures var e, before := events[|events| - 1], Expected(events[..|events| - 1], sid, k);
            Expected(events, sid, k)
            == if e.QueryReturning? && e.sid == sid && k + 1 == |Pairs(events[..|events| - 1], sid)|
               then before.(response := Some(RenderRows(e.columns, e.rows)))
               else before
  {
    var n := |events| - 1;
    NextDoneGrows(events, sid, k);
    var (i, j) := Pairs(events[..n], sid)[k];
    ResponseBetweenPrefix(events, n, sid, j, NextDone(events[..n], sid, k));
    assert Pairs(events, sid)[k] == (i, j);
    assert Matches(events[..n], sid, i, j);
    assert events[..n][i] == events[i] && events[..n][j] == events[j];
  }

  // The query that the last event completes.
  lemma ExpectedNew(events: seq<Event>, sid: nat, k: nat)
    requires events != [] && Captures(events[..|events| - 1], sid) && sid in Run(events[..|events| - 1])
    requires AllMatch(events, sid)
    requires var e := events[|events| - 1]; !(e.SessionStart? && e.sid == sid)
    requires sid in Run(events) && k < |Run(events)[sid].queries| && k >= |Pairs(events[..|events| - 1], sid)|
    ensures k < |Pairs(events, sid)| && Meta(events, sid).Some?
    ensures Run(events)[sid].queries[k] == Expected(events, sid, k)
  {
    var prefix := events[..|events| - 1];
    OpenAtBound(prefix, sid);
    OpenAtMeaning(prefix, sid, OpenAt(prefix, sid).value);
  }

  // ---- Sessions do not influence each other ----

  ghost function Only(events: seq<Event>, sid: nat): seq<Event> {
    if events == [] then []
    else
      var n := |events| - 1;
      Only(events[..n], sid) + (if events[n].sid == sid then [events[n]] else [])
  }

  predicate SameAt(m: Sessions, m': Sessions, sid: nat) {
    (sid in m <==> sid in m') && (sid in m ==> m[sid] == m'[sid])
  }

  lemma StepIsLocal(m: Sessions, m': Sessions, e: Event, sid: nat)
    requires SameAt(m, m', sid)
    ensures if e.sid == sid then SameAt(Step(m, e), Step(m', e), sid) else SameAt(Step(m, e), m', sid)
  {
  }

  /** However the sessions' events are interleaved in the channel, a session's capture depends on
      its own events only. */
  lemma {:induction false} SessionsAreIndependent(events: seq<Event>, sid: nat)
    ensures SameAt(Run(events), Run(Only(events, sid)), sid)
  {
    if events == [] {
    } else {
      var n := |events| - 1;
      SessionsAreIndependent(events[..n], sid);
      StepIsLocal(Run(events[..n]), Run(Only(events[..n], sid)), events[n], sid);
      if events[n].sid == sid {
        RunAppend(Only(events[..n], sid), events[n]);
      } else {
        assert Only(events, sid) == Only(events[..n], sid);
      }
    }
  }
}
