/** The managed proxy's command loop and event forwarder (src/proxy/mod.rs, run_proxy_managed_multi):
    captures are started and stopped while relays keep emitting events. */
module Control {
  import opened Wrappers
  import opened CaptureEvents
  import Collector
  import Staging

  // One step of the proxy: a command, an event taken off the persistent channel, or a flush timeout
  // of the active collector.
  datatype Action = Start(id: string) | Stop | Forward(event: Event) | FlushTimeout

  // Rows are read ordered by their start offset; rows that start together keep their order.
  function Insert(rows: seq<Staging.StagingRow>, r: Staging.StagingRow): seq<Staging.StagingRow> {
    if rows == [] then [r]
    else
      var n := |rows| - 1;
      if rows[n].query.startOffsetUs <= r.query.startOffsetUs then rows + [r] else Insert(rows[..n], r) + [rows[n]]
  }

  function ByStart(rows: seq<Staging.StagingRow>): seq<Staging.StagingRow> {
    if rows == [] then [] else Insert(ByStart(rows[..|rows| - 1]), rows[|rows| - 1])
  }

  // The capture under way: since when, and what its collector has been sent.
  datatype Capture = Capture(id: string, since: nat, ticks: seq<Staging.Tick>)

  // A written profile: the actions that opened and closed its capture, and its rows.
  datatype Profile = Profile(id: string, lo: nat, hi: nat, rows: seq<Staging.StagingRow>)

  // `now` numbers the actions.
  datatype State = State(active: Option<Capture>, noCapture: bool, now: nat, written: seq<Profile>)

  const INITIAL: State := State(None, true, 0, [])

  function Act(st: State, a: Action): State {
    var st' := st.(now := st.now + 1);
    match a
    case Start(id) => if st.active.Some? then st' else st'.(active := Some(Capture(id, st.now, [])), noCapture := false)
    case Stop =>
      if st.active.None? then st'
      else
        var c := st.active.value;
        st'.(active := None, noCapture := true,
             written := st.written + [Profile(c.id, c.since, st.now, ByStart(Staging.Staged(c.id, c.ticks)))])
    case Forward(e) => Receive(st', Staging.Recv(e))
    case FlushTimeout => Receive(st', Staging.Timeout)
  }

  function Receive(st: State, t: Staging.Tick): State {
    if st.active.None? then st else st.(active := Some(st.active.value.(ticks := st.active.value.ticks + [t])))
  }

  function Run(actions: seq<Action>): State {
    if actions == [] then INITIAL else Act(Run(actions[..|actions| - 1]), actions[|actions| - 1])
  }

  // The rows that belong to a capture (mine), or the others.
  function Rows(rows: seq<Staging.StagingRow>, id: string, mine: bool): seq<Staging.StagingRow> {
    if rows == [] then []
    else
      var n := |rows| - 1;
      Rows(rows[..n], id, mine) + if (rows[n].captureId == id) == mine then [rows[n]] else []
  }

  lemma OwnRows(rows: seq<Staging.StagingRow>, id: string)
    requires forall r :: r in rows ==> r.captureId == id
    ensures Rows(rows, id, true) == rows && Rows(rows, id, false) == []
  {
    if rows == [] {
    } else {
      assert rows[|rows| - 1] in rows;
      OwnRows(rows[..|rows| - 1], id);
    }
  }

  lemma {:induction false} RowsAre(rows: seq<Staging.StagingRow>, id: string, mine: bool)
    ensures forall r :: r in Rows(rows, id, mine) <==> r in rows && (r.captureId == id) == mine
  {
    if rows == [] {
    } else {
      RowsAre(rows[..|rows| - 1], id, mine);
      assert rows == rows[..|rows| - 1] + [rows[|rows| - 1]];
    }
  }

  lemma SortMore(rows: seq<Staging.StagingRow>, r: Staging.StagingRow)
    ensures ByStart(rows + [r]) == Insert(ByStart(rows), r)
  {
    assert (rows + [r])[..|rows|] == rows;
  }

  /** The variables of the command loop, the forwarder's target and the staging table. */
  class ManagedProxy {
    const db: Staging.StagingDb
    var activeCaptureId: Option<string>
    var activeStagingTx: Option<seq<Staging.Tick>>
    var collectorRunning: bool
    var noCapture: bool
    ghost var since: nat
    ghost var now: nat
    var written: seq<(string, seq<Staging.StagingRow>)>
    ghost var profiles: seq<Profile>

    // At the head of the loop the capture id, the collector and the channel are all there or all
    // absent, the flag is down exactly while they are there, and no staged rows are left over.
    ghost predicate Valid()
      reads this, db
    {
      && (activeCaptureId.Some? <==> collectorRunning)
      && (activeCaptureId.Some? <==> activeStagingTx.Some?)
      && (activeCaptureId.Some? <==> !noCapture)
      && db.rows == []
      && |written| == |profiles|
      && forall i :: 0 <= i < |written| ==> written[i] == (profiles[i].id, profiles[i].rows)
    }

    ghost function View(): State
      reads this
      requires activeCaptureId.Some? ==> activeStagingTx.Some?
    {
      State(if activeCaptureId.Some? then Some(Capture(activeCaptureId.value, since, activeStagingTx.value)) else None,
            noCapture, now, profiles)
    }

    constructor (db: Staging.StagingDb)
      requires db.rows == []
      ensures this.db == db && Valid() && View() == INITIAL
    {
      this.db := db;
      activeCaptureId, activeStagingTx, collectorRunning, noCapture := None, None, false, true;
      since, now, written, profiles := 0, 0, [], [];
    }

    /** Start command; fails while a capture is under way. */
    method StartCapture(id: string) returns (reply: Result<string, string>)
      requires Valid()
      modifies this
      ensures Valid() && View() == Act(old(View()), Start(id))
      ensures reply == if old(activeCaptureId).None? then Ok(id) else Err("Already capturing")
    {
      now := now + 1;
      if activeCaptureId.Some? {
        return Err("Already capturing");
      }
      activeStagingTx := Some([]);
      collectorRunning := true;
      noCapture := false;
      activeCaptureId := Some(id);
      since := now - 1;
      reply := Ok(id);
    }

    /** Stop command: closes the collector's channel, waits for it, and writes the profile. */
    method StopCapture() returns (reply: Result<seq<Staging.StagingRow>, string>)
      requires Valid()
      modifies this, db
      ensures Valid() && View() == Act(old(View()), Stop)
      ensures old(activeCaptureId).None? ==> reply == Err("Not currently capturing") && written == old(written)
      ensures old(activeCaptureId).Some? ==>
                reply.Ok? && written == old(written) + [(old(activeCaptureId).value, reply.value)]
    {
      now := now + 1;
      if activeCaptureId.None? {
        return Err("Not currently capturing");
      }
      var id := activeCaptureId.value;
      activeCaptureId := None;
      noCapture := true;
      var ticks := activeStagingTx.value;
      activeStagingTx := None;
      collectorRunning := false;
      var rows := CollectRows(id, ticks);
      written := written + [(id, rows)];
      profiles := profiles + [Profile(id, since, now - 1, rows)];
      reply := Ok(rows);
    }

    // Lets the collector finish, then moves its rows out of the staging table.
    method CollectRows(id: string, ticks: seq<Staging.Tick>) returns (rows: seq<Staging.StagingRow>)
      requires db.rows == []
      modifies db
      ensures rows == ByStart(Staging.Staged(id, ticks)) && db.rows == []
    {
      Staging.RunStagingCollector(ticks, db, id);
      Staging.StagedIds(id, ticks);
      assert db.rows == Staging.Staged(id, ticks);
      OwnRows(db.rows, id);
      rows := ReadCapture(id);
      ClearCapture(id);
    }

    method ClearCapture(id: string)
      modifies db
      ensures db.rows == Rows(old(db.rows), id, false)
      ensures forall r :: r in db.rows <==> r in old(db.rows) && r.captureId != id
    {
      var kept: seq<Staging.StagingRow> := [];
      for i := 0 to |db.rows|
        invariant db.rows == old(db.rows) && kept == Rows(db.rows[..i], id, false)
      {
        assert db.rows[..i + 1][..i] == db.rows[..i];
        if db.rows[i].captureId != id {
          kept := kept + [db.rows[i]];
        }
      }
      assert db.rows[..|db.rows|] == db.rows;
      RowsAre(db.rows, id, false);
      db.rows := kept;
    }

    method ReadCapture(id: string) returns (found: seq<Staging.StagingRow>)
      ensures found == ByStart(Rows(db.rows, id, true))
      ensures forall r :: r in found <==> r in db.rows && r.captureId == id
    {
      found := [];
      ghost var mine := [];
      for i := 0 to |db.rows|
        invariant mine == Rows(db.rows[..i], id, true) && found == ByStart(mine)
      {
        assert db.rows[..i + 1][..i] == db.rows[..i];
        var row := db.rows[i];
        if row.captureId == id {
          SortMore(mine, row);
          mine, found := mine + [row], Insert(found, row);
        }
      }
      assert db.rows[..|db.rows|] == db.rows;
      RowsAre(db.rows, id, true);
      ByStartKeepsAll(mine);
      assert forall r :: r in found <==> r in multiset(found);
    }

    /** The forwarder: an event reaches the active collector, or is dropped. */
    method ForwardEvent(e: Event)
      requires Valid()
      modifies this
      ensures Valid() && View() == Act(old(View()), Forward(e))
    {
      now := now + 1;
      if activeStagingTx.Some? {
        activeStagingTx := Some(activeStagingTx.value + [Staging.Recv(e)]);
      }
    }

    /** The collector's flush interval passes without an event. */
    method ExpireFlushInterval()
      requires Valid()
      modifies this
      ensures Valid() && View() == Act(old(View()), FlushTimeout)
    {
      now := now + 1;
      if activeStagingTx.Some? {
        activeStagingTx := Some(activeStagingTx.value + [Staging.Timeout]);
      }
    }
  }

  // ---- What a profile holds ----

  // What the collector of a capture open during `actions` is sent.
  function Ticks(actions: seq<Action>): seq<Staging.Tick> {
    if actions == [] then []
    else
      var n := |actions| - 1;
      Ticks(actions[..n]) +
      match actions[n]
      case Forward(e) => [Staging.Recv(e)]
      case FlushTimeout => [Staging.Timeout]
      case _ => []
  }

  function Forwarded(actions: seq<Action>): seq<Event> {
    if actions == [] then []
    else
      var n := |actions| - 1;
      Forwarded(actions[..n]) + if actions[n].Forward? then [actions[n].event] else []
  }

  lemma TicksEvents(actions: seq<Action>)
    ensures Staging.Events(Ticks(actions)) == Forwarded(actions)
  {
    if actions == [] {
    } else {
      var n := |actions| - 1;
      TicksEvents(actions[..n]);
      if !actions[n].Start? && !actions[n].Stop? {
        assert Ticks(actions)[..|Ticks(actions)| - 1] == Ticks(actions[..n]);
      } else {
        assert Ticks(actions) == Ticks(actions[..n]);
      }
    }
  }

  predicate StopsBetween(actions: seq<Action>, lo: nat, hi: nat) {
    exists k :: lo < k < hi && k < |actions| && actions[k].Stop?
  }

  // Every Start before n is followed by a Stop before n.
  predicate AllStopped(actions: seq<Action>, n: nat) {
    forall k :: 0 <= k < n && k < |actions| && actions[k].Start? ==> StopsBetween(actions, k, n)
  }

  // The Start at lo opened a capture that is still open before action n.
  predicate OpenedAt(actions: seq<Action>, lo: nat, n: nat) {
    lo < n && lo < |actions| && actions[lo].Start? && AllStopped(actions, lo) && !StopsBetween(actions, lo, n)
  }

  // The capture of p was open strictly between its Start and its Stop, and saw all of that.
  ghost predicate IsWindow(actions: seq<Action>, p: Profile) {
    && p.lo < p.hi < |actions|
    && OpenedAt(actions, p.lo, p.hi) && actions[p.lo] == Start(p.id) && actions[p.hi] == Stop
    && p.rows == ByStart(Staging.Staged(p.id, Ticks(actions[p.lo + 1..p.hi])))
  }

  // Every Stop that ends a capture has written its profile.
  ghost predicate AllWritten(actions: seq<Action>, written: seq<Profile>) {
    forall lo: nat, hi: nat :: OpenedAt(actions, lo, hi) && hi < |actions| && actions[hi].Stop? ==>
                       exists i :: 0 <= i < |written| && written[i].hi == hi
  }

  ghost predicate Windows(actions: seq<Action>, st: State) {
    && st.now == |actions|
    && (st.active.None? <==> st.noCapture)
    && (forall i :: 0 <= i < |st.written| ==> IsWindow(actions, st.written[i]))
    && (forall i, j :: 0 <= i < j < |st.written| ==> st.written[i].hi < st.written[j].lo)
    && AllWritten(actions, st.written)
    && (st.active.None? ==> AllStopped(actions, |actions|))
    && (st.active.Some? ==>
          var c := st.active.value;
          && OpenedAt(actions, c.since, |actions|) && actions[c.since] == Start(c.id)
          && c.ticks == Ticks(actions[c.since + 1..])
          && forall i :: 0 <= i < |st.written| ==> st.written[i].hi < c.since)
  }

  lemma StopsNext(actions: seq<Action>, a: Action, lo: nat, hi: nat)
    requires hi <= |actions| + 1
    ensures StopsBetween(actions + [a], lo, hi)
       <==> StopsBetween(actions, lo, hi) || (lo < |actions| < hi && a.Stop?)
  {
    var after := actions + [a];
    assert forall k :: 0 <= k < |actions| ==> after[k] == actions[k];
    if lo < |actions| < hi && a.Stop? { assert after[|actions|].Stop?; }
  }

  lemma StoppedNext(actions: seq<Action>, a: Action, n: nat)
    requires n <= |actions|
    ensures AllStopped(actions + [a], n) <==> AllStopped(actions, n)
  {
    var after := actions + [a];
    forall k: nat ensures StopsBetween(after, k, n) <==> StopsBetween(actions, k, n) { StopsNext(actions, a, k, n); }
    assert forall k :: 0 <= k < |actions| ==> after[k] == actions[k];
  }

  lemma OpenedNext(actions: seq<Action>, a: Action, lo: nat, hi: nat)
    requires hi <= |actions|
    ensures OpenedAt(actions + [a], lo, hi) <==> OpenedAt(actions, lo, hi)
  {
    StopsNext(actions, a, lo, hi);
    if lo < hi { StoppedNext(actions, a, lo); }
  }

  // Which capture is open after one more action.
  lemma OpenAfter(actions: seq<Action>, a: Action, st: State)
    requires st.active.None? ==> AllStopped(actions, |actions|)
    requires st.active.Some? ==> OpenedAt(actions, st.active.value.since, |actions|)
    requires st.now == |actions|
    ensures var after, st' := actions + [a], Act(st, a);
            && (st'.active.None? ==> AllStopped(after, |after|))
            && (st'.active.Some? ==> OpenedAt(after, st'.active.value.since, |after|))
  {
    var n, after := |actions|, actions + [a];
    forall k: nat ensures StopsBetween(after, k, n + 1) <==> StopsBetween(actions, k, n) || (k < n && a.Stop?) {
      StopsNext(actions, a, k, n + 1);
      assert StopsBetween(actions, k, n + 1) <==> StopsBetween(actions, k, n);
    }
    StoppedNext(actions, a, n);
    if st.active.Some? { StoppedNext(actions, a, st.active.value.since); }
    assert forall k :: 0 <= k < n ==> after[k] == actions[k];
  }

  lemma AllWrittenNext(actions: seq<Action>, a: Action, written: seq<Profile>, more: seq<Profile>)
    requires AllWritten(actions, written) && written <= more
    requires a.Stop? && !AllStopped(actions, |actions|) ==> more != [] && more[|more| - 1].hi == |actions|
    ensures AllWritten(actions + [a], more)
  {
    var after := actions + [a];
    forall lo: nat, hi: nat | OpenedAt(after, lo, hi) && hi < |after| && after[hi].Stop?
      ensures exists i :: 0 <= i < |more| && more[i].hi == hi
    {
      OpenedNext(actions, a, lo, hi);
      if hi < |actions| {
        var i :| 0 <= i < |written| && written[i].hi == hi;
        assert more[i].hi == hi;
      }
    }
  }

  lemma WindowStays(actions: seq<Action>, a: Action, p: Profile)
    requires IsWindow(actions, p)
    ensures IsWindow(actions + [a], p)
  {
    assert (actions + [a])[p.lo + 1..p.hi] == actions[p.lo + 1..p.hi];
    OpenedNext(actions, a, p.lo, p.hi);
  }

  lemma WindowsStart(actions: seq<Action>, id: string, st: State)
    requires Windows(actions, st)
    ensures Windows(actions + [Start(id)], Act(st, Start(id)))
  {
    var after := actions + [Start(id)];
    forall i | 0 <= i < |st.written| ensures IsWindow(after, st.written[i]) {
      WindowStays(actions, Start(id), st.written[i]);
    }
    OpenAfter(actions, Start(id), st);
    AllWrittenNext(actions, Start(id), st.written, st.written);
    if st.active.Some? {
      var c := st.active.value;
      assert after[c.since + 1..][..|actions| - c.since - 1] == actions[c.since + 1..];
    } else {
      assert after[|actions| + 1..] == [];
    }
  }

  lemma StoppedWindow(actions: seq<Action>, c: Capture, p: Profile)
    requires OpenedAt(actions, c.since, |actions|) && actions[c.since] == Start(c.id)
    requires c.ticks == Ticks(actions[c.since + 1..])
    requires p == Profile(c.id, c.since, |actions|, ByStart(Staging.Staged(c.id, c.ticks)))
    ensures IsWindow(actions + [Stop], p)
  {
    assert (actions + [Stop])[c.since + 1..|actions|] == actions[c.since + 1..];
    OpenedNext(actions, Stop, c.since, |actions|);
  }

  lemma StopWrites(actions: seq<Action>, st: State)
    requires st.now == |actions| && (st.active.None? ==> AllStopped(actions, |actions|))
    ensures st.written <= Act(st, Stop).written
    ensures !AllStopped(actions, |actions|) ==>
              Act(st, Stop).written != st.written && Act(st, Stop).written[|st.written|].hi == |actions|
    ensures |Act(st, Stop).written| <= |st.written| + 1
  {
  }

  lemma WindowsStop(actions: seq<Action>, st: State)
    requires Windows(actions, st)
    ensures Windows(actions + [Stop], Act(st, Stop))
  {
    hide IsWindow, AllWritten, AllStopped, OpenedAt, ByStart, Staging.Staged, Ticks;
    var after := actions + [Stop];
    forall i | 0 <= i < |st.written| ensures IsWindow(after, st.written[i]) {
      WindowStays(actions, Stop, st.written[i]);
    }
    OpenAfter(actions, Stop, st);
    StopWrites(actions, st);
    AllWrittenNext(actions, Stop, st.written, Act(st, Stop).written);
    if st.active.Some? {
      var c := st.active.value;
      var p := Profile(c.id, c.since, st.now, ByStart(Staging.Staged(c.id, c.ticks)));
      StoppedWindow(actions, c, p);
      OneMoreProfile(after, st.written, p, c.since);
      assert Act(st, Stop).written == st.written + [p];
    }
  }

  lemma OneMoreProfile(actions: seq<Action>, written: seq<Profile>, p: Profile, since: nat)
    requires p.lo == since && IsWindow(actions, p)
    requires forall i :: 0 <= i < |written| ==> written[i].hi < since && IsWindow(actions, written[i])
    requires forall i, j :: 0 <= i < j < |written| ==> written[i].hi < written[j].lo
    ensures forall i :: 0 <= i < |written| + 1 ==> IsWindow(actions, (written + [p])[i])
    ensures forall i, j :: 0 <= i < j < |written| + 1 ==> (written + [p])[i].hi < (written + [p])[j].lo
  {
    hide IsWindow;
  }

  lemma TicksReceive(actions: seq<Action>, a: Action, since: nat)
    requires since < |actions| && (a.Forward? || a.FlushTimeout?)
    ensures Ticks((actions + [a])[since + 1..])
         == Ticks(actions[since + 1..]) + [if a.Forward? then Staging.Recv(a.event) else Staging.Timeout]
  {
    assert (actions + [a])[since + 1..][..|actions| - since - 1] == actions[since + 1..];
  }

  lemma WindowsReceive(actions: seq<Action>, a: Action, st: State)
    requires Windows(actions, st) && (a.Forward? || a.FlushTimeout?)
    ensures Windows(actions + [a], Act(st, a))
  {
    var after := actions + [a];
    forall i | 0 <= i < |st.written| ensures IsWindow(after, st.written[i]) {
      WindowStays(actions, a, st.written[i]);
    }
    OpenAfter(actions, a, st);
    AllWrittenNext(actions, a, st.written, st.written);
    if st.active.Some? { TicksReceive(actions, a, st.active.value.since); }
  }

  /** Capture isolation: in every run of commands, forwarded events and timeouts, each written profile
      is the staging of exactly the events forwarded between its own Start and Stop, and the windows
      of different profiles do not overlap; the flag is up exactly while no capture is active. */
  lemma {:induction false} CapturesAreIsolated(actions: seq<Action>)
    ensures Windows(actions, Run(actions))
  {
    if actions == [] {
    } else {
      var before, a := actions[..|actions| - 1], actions[|actions| - 1];
      CapturesAreIsolated(before);
      assert before + [a] == actions;
      match a
      case Start(id) => WindowsStart(before, id, Run(before));
      case Stop => WindowsStop(before, Run(before));
      case _ => WindowsReceive(before, a, Run(before));
    }
  }

  lemma ForwardedPart(actions: seq<Action>, lo: nat, hi: nat) returns (k: nat)
    requires lo <= hi <= |actions|
    ensures k + |Forwarded(actions[lo..hi])| <= |Forwarded(actions)|
    ensures Forwarded(actions[lo..hi]) == Forwarded(actions)[k..k + |Forwarded(actions[lo..hi])|]
  {
    ForwardedConcat(actions[..lo], actions[lo..hi]);
    ForwardedConcat(actions[..lo] + actions[lo..hi], actions[hi..]);
    assert actions[..lo] + actions[lo..hi] + actions[hi..] == actions;
    k := |Forwarded(actions[..lo])|;
  }

  lemma ForwardedConcat(a: seq<Action>, b: seq<Action>)
    ensures Forwarded(a + b) == Forwarded(a) + Forwarded(b)
  {
    if b == [] {
      assert a + b == a;
    } else {
      var n := |b| - 1;
      assert (a + b)[..|a + b| - 1] == a + b[..n];
      ForwardedConcat(a, b[..n]);
    }
  }

  lemma WindowStartsFirst(actions: seq<Action>, lo: nat, hi: nat)
    requires lo <= hi <= |actions| && Collector.StartsFirst(Forwarded(actions))
    ensures Collector.StartsFirst(Forwarded(actions[lo..hi]))
  {
    var from := ForwardedPart(actions, lo, hi);
    var all, events := Forwarded(actions), Forwarded(actions[lo..hi]);
    forall i, j | 0 <= i < j < |events| && events[j].SessionStart? ensures events[i].sid != events[j].sid {
      assert events[i] == all[from + i] && events[j] == all[from + j];
    }
  }

  // ---- The order in which rows are read ----

  predicate Ascending(queries: seq<CapturedQuery>) {
    forall i, j :: 0 <= i < j < |queries| ==> queries[i].startOffsetUs <= queries[j].startOffsetUs
  }

  predicate RowsAscend(rows: seq<Staging.StagingRow>) {
    forall i, j :: 0 <= i < j < |rows| ==> rows[i].query.startOffsetUs <= rows[j].query.startOffsetUs
  }

  lemma {:induction false} InsertAscends(rows: seq<Staging.StagingRow>, r: Staging.StagingRow)
    requires RowsAscend(rows)
    ensures RowsAscend(Insert(rows, r))
    ensures forall x :: x in Insert(rows, r) ==> x == r || x in rows
  {
    if rows != [] && rows[|rows| - 1].query.startOffsetUs > r.query.startOffsetUs {
      var n := |rows| - 1;
      var s := Insert(rows[..n], r);
      InsertAscends(rows[..n], r);
      forall i | 0 <= i < |s| ensures s[i].query.startOffsetUs <= rows[n].query.startOffsetUs {
        assert s[i] in s;
      }
    }
  }

  lemma {:induction false} ByStartAscends(rows: seq<Staging.StagingRow>)
    ensures RowsAscend(ByStart(rows))
  {
    if rows == [] {
    } else {
      ByStartAscends(rows[..|rows| - 1]);
      InsertAscends(ByStart(rows[..|rows| - 1]), rows[|rows| - 1]);
    }
  }

  lemma {:induction false} QueriesAscend(rows: seq<Staging.StagingRow>, sid: nat)
    requires RowsAscend(rows)
    ensures Ascending(Staging.QueriesOf(rows, sid))
    ensures forall q :: rows != [] && q in Staging.QueriesOf(rows, sid) ==>
              q.startOffsetUs <= rows[|rows| - 1].query.startOffsetUs
  {
    if rows == [] {
    } else {
      var n := |rows| - 1;
      QueriesAscend(rows[..n], sid);
      assert n > 0 ==> rows[n - 1].query.startOffsetUs <= rows[n].query.startOffsetUs;
    }
  }

  // What a row is to a session.
  function Own(r: Staging.StagingRow, sid: nat): seq<CapturedQuery> {
    if r.sid == sid then [r.query] else []
  }

  lemma QueriesAppend(rows: seq<Staging.StagingRow>, r: Staging.StagingRow, sid: nat)
    ensures Staging.QueriesOf(rows + [r], sid) == Staging.QueriesOf(rows, sid) + Own(r, sid)
  {
    assert (rows + [r])[..|rows|] == rows;
  }

  predicate StartBy(queries: seq<CapturedQuery>, t: nat) {
    forall i :: 0 <= i < |queries| ==> queries[i].startOffsetUs <= t
  }

  lemma StartByParts(a: seq<CapturedQuery>, r: Staging.StagingRow, sid: nat, t: nat)
    requires StartBy(a + Own(r, sid), t)
    ensures StartBy(a, t) && (r.sid == sid ==> r.query.startOffsetUs <= t)
  {
    var all := a + Own(r, sid);
    assert forall i :: 0 <= i < |a| ==> a[i] == all[i];
    assert r.sid == sid ==> all[|a|] == r.query;
  }

  // Two rows that trade places, of which at most one is the session's.
  lemma Trade(a: seq<CapturedQuery>, r: Staging.StagingRow, last: Staging.StagingRow, sid: nat)
    requires !(r.sid == last.sid == sid)
    ensures a + Own(r, sid) + Own(last, sid) == a + Own(last, sid) + Own(r, sid)
  {
  }

  // A row that starts last of its session is put behind the others of its session.
  lemma {:induction false} InsertQueries(rows: seq<Staging.StagingRow>, r: Staging.StagingRow, sid: nat)
    requires r.sid == sid ==> StartBy(Staging.QueriesOf(rows, sid), r.query.startOffsetUs)
    ensures Staging.QueriesOf(Insert(rows, r), sid) == Staging.QueriesOf(rows, sid) + Own(r, sid)
  {
    if rows == [] {
      QueriesAppend([], r, sid);
      assert [] + [r] == [r];
    } else if rows[|rows| - 1].query.startOffsetUs <= r.query.startOffsetUs {
      QueriesAppend(rows, r, sid);
    } else {
      var init, last := rows[..|rows| - 1], rows[|rows| - 1];
      QueriesAppend(init, last, sid);
      assert rows == init + [last];
      if r.sid == sid { StartByParts(Staging.QueriesOf(init, sid), last, sid, r.query.startOffsetUs); }
      InsertQueries(init, r, sid);
      QueriesAppend(Insert(init, r), last, sid);
      Trade(Staging.QueriesOf(init, sid), r, last, sid);
    }
  }

  lemma AscendingParts(before: seq<CapturedQuery>, r: Staging.StagingRow, sid: nat)
    requires Ascending(before + Own(r, sid))
    ensures Ascending(before) && (r.sid == sid ==> StartBy(before, r.query.startOffsetUs))
  {
    var all := before + Own(r, sid);
    assert forall i :: 0 <= i < |before| ==> before[i] == all[i];
    assert r.sid == sid ==> all[|before|] == r.query;
  }

  lemma {:induction false} ByStartKeeps(rows: seq<Staging.StagingRow>, sid: nat)
    requires Ascending(Staging.QueriesOf(rows, sid))
    ensures Staging.QueriesOf(ByStart(rows), sid) == Staging.QueriesOf(rows, sid)
  {
    if rows == [] {
    } else {
      var init, last := rows[..|rows| - 1], rows[|rows| - 1];
      QueriesAppend(init, last, sid);
      assert rows == init + [last];
      AscendingParts(Staging.QueriesOf(init, sid), last, sid);
      ByStartKeeps(init, sid);
      InsertQueries(ByStart(init), last, sid);
    }
  }

  lemma {:induction false} InsertKeepsAll(rows: seq<Staging.StagingRow>, r: Staging.StagingRow)
    ensures multiset(Insert(rows, r)) == multiset(rows) + multiset{r}
  {
    if rows == [] {
    } else {
      var init, last := rows[..|rows| - 1], rows[|rows| - 1];
      InsertKeepsAll(init, r);
      assert rows == init + [last];
    }
  }

  lemma {:induction false} ByStartKeepsAll(rows: seq<Staging.StagingRow>)
    ensures multiset(ByStart(rows)) == multiset(rows)
  {
    if rows == [] {
    } else {
      var init, last := rows[..|rows| - 1], rows[|rows| - 1];
      ByStartKeepsAll(init);
      AppendCounts(rows, init, last);
    }
  }

  lemma AppendCounts(rows: seq<Staging.StagingRow>, init: seq<Staging.StagingRow>, last: Staging.StagingRow)
    requires rows == init + [last]
    ensures multiset(rows) == multiset(init) + multiset{last}
    ensures multiset(ByStart(rows)) == multiset(ByStart(init)) + multiset{last}
  {
    SortMore(init, last);
    hide ByStart, Insert;
    InsertKeepsAll(ByStart(init), last);
  }

  /** Reading the rows back sorts them by start offset, keeps each of them, and leaves a session's queries in
      the order of their completion exactly if their start offsets do not go back. */
  lemma ReadOrderIff(rows: seq<Staging.StagingRow>, sid: nat)
    ensures multiset(ByStart(rows)) == multiset(rows) && RowsAscend(ByStart(rows))
    ensures Staging.QueriesOf(ByStart(rows), sid) == Staging.QueriesOf(rows, sid)
       <==> Ascending(Staging.QueriesOf(rows, sid))
  {
    ByStartKeepsAll(rows);
    ByStartAscends(rows);
    QueriesAscend(ByStart(rows), sid);
    if Ascending(Staging.QueriesOf(rows, sid)) { ByStartKeeps(rows, sid); }
  }

  predicate StartsQuery(e: Event, sid: nat) {
    e.QueryStart? && e.sid == sid
  }

  // The clock that stamps a session's queries does not go back.
  ghost predicate ClockForward(events: seq<Event>, sid: nat) {
    forall i, j :: 0 <= i < j < |events| && StartsQuery(events[i], sid) && StartsQuery(events[j], sid) ==>
                     events[i].at <= events[j].at
  }

  // The staged queries of a session are those of the matched pairs, in order.
  ghost predicate HoldsPairs(events: seq<Event>, sid: nat, queries: seq<CapturedQuery>) {
    && |queries| == |Collector.Pairs(events, sid)|
    && (queries != [] ==>
          exists i :: Collector.IntroducedAt(events, sid, i) && HoldsFrom(events, sid, events[i].at, queries))
  }

  // Counted from `start`, the session's beginning.
  ghost predicate HoldsFrom(events: seq<Event>, sid: nat, start: nat, queries: seq<CapturedQuery>)
    requires |queries| == |Collector.Pairs(events, sid)|
  {
    var pairs := Collector.Pairs(events, sid);
    forall k :: 0 <= k < |queries| ==>
      && Collector.Matches(events, sid, pairs[k].0, pairs[k].1)
      && queries[k].sql == events[pairs[k].0].sql
      && queries[k].startOffsetUs == (if start <= events[pairs[k].0].at then events[pairs[k].0].at - start else 0)
      && queries[k].durationUs == (if events[pairs[k].0].at <= events[pairs[k].1].at
                                   then events[pairs[k].1].at - events[pairs[k].0].at else 0)
      && queries[k].error == match events[pairs[k].1] case QueryError(_, message, _) => Some(message) case _ => None
  }

  lemma SameButResponse(q: CapturedQuery, r: CapturedQuery)
    requires q.(response := None) == r.(response := None)
    ensures q.sql == r.sql && q.startOffsetUs == r.startOffsetUs && q.durationUs == r.durationUs && q.error == r.error
  {
    var a, b := q.(response := None), r.(response := None);
    assert a.sql == b.sql && a.startOffsetUs == b.startOffsetUs && a.durationUs == b.durationUs && a.error == b.error;
  }

  lemma StagedPairs(id: string, rx: seq<Staging.Tick>, sid: nat)
    requires Collector.StartsFirst(Staging.Events(rx))
    ensures HoldsPairs(Staging.Events(rx), sid, Staging.QueriesOf(Staging.Staged(id, rx), sid))
  {
    var events := Staging.Events(rx);
    Staging.StagingRefinesCollector(id, rx, sid);
    Collector.CollectorCapturesMatches(events, sid);
    var queries := Staging.QueriesOf(Staging.Staged(id, rx), sid);
    if queries != [] {
      var s := Collector.Run(events)[sid];
      EqualIsSame(queries, s.queries, Staging.Lost(id, rx, sid));
      var i :| Collector.IntroducedAt(events, sid, i) && s.sessionStart == events[i].at;
      ToldHolds(events, sid, s, queries);
    }
  }

  // Equal but for some responses.
  predicate SameQueries(a: seq<CapturedQuery>, b: seq<CapturedQuery>) {
    |a| == |b| && forall i :: 0 <= i < |a| ==> a[i].(response := None) == b[i].(response := None)
  }

  lemma EqualIsSame(a: seq<CapturedQuery>, b: seq<CapturedQuery>, lost: set<nat>)
    requires Staging.EqualUpTo(a, b, lost)
    ensures SameQueries(a, b)
  {
  }

  lemma ToldHolds(events: seq<Event>, sid: nat, s: Collector.SessionState, queries: seq<CapturedQuery>)
    requires Collector.TellsAll(events, sid, s.user, s.database, s.sessionStart, s.queries)
    requires SameQueries(queries, s.queries)
    ensures |queries| == |Collector.Pairs(events, sid)| && HoldsFrom(events, sid, s.sessionStart, queries)
  {
    forall k | 0 <= k < |queries|
      ensures queries[k].sql == s.queries[k].sql && queries[k].startOffsetUs == s.queries[k].startOffsetUs
           && queries[k].durationUs == s.queries[k].durationUs && queries[k].error == s.queries[k].error
    {
      SameButResponse(queries[k], s.queries[k]);
    }
  }

  // A query starts after the one before it has completed.
  lemma PairsInTurn(events: seq<Event>, sid: nat, k: nat, l: nat)
    requires k < l < |Collector.Pairs(events, sid)| && Collector.AllMatch(events, sid)
    ensures Collector.Pairs(events, sid)[k].0 < Collector.Pairs(events, sid)[l].0
  {
    var pairs := Collector.Pairs(events, sid);
    Collector.PairsAreTheMatches(events, sid);
    assert Collector.Matches(events, sid, pairs[k].0, pairs[k].1);
    assert Collector.Matches(events, sid, pairs[l].0, pairs[l].1);
    assert pairs[k].1 < pairs[l].1;
  }

  lemma PairsAscend(events: seq<Event>, sid: nat, queries: seq<CapturedQuery>)
    requires HoldsPairs(events, sid, queries) && ClockForward(events, sid)
    ensures Ascending(queries)
  {
    var pairs := Collector.Pairs(events, sid);
    Collector.PairsMatch(events, sid);
    forall k, l | 0 <= k < l < |queries| ensures queries[k].startOffsetUs <= queries[l].startOffsetUs {
      PairsInTurn(events, sid, k, l);
      var start :| HoldsFrom(events, sid, start, queries);
      assert Collector.Matches(events, sid, pairs[k].0, pairs[k].1);
      assert Collector.Matches(events, sid, pairs[l].0, pairs[l].1);
      assert events[pairs[k].0].at <= events[pairs[l].0].at;
    }
  }

  // No timeout and no full batch wrote the table between a completion of the session and its rows.
  ghost predicate Undisturbed(id: string, rx: seq<Staging.Tick>, sid: nat) {
    forall c, t :: Staging.AnswersAt(id, rx, c, t, sid) ==> !Staging.FlushedBetween(id, rx, c, t)
  }

  // Where the session is known and no query is answered twice, the responses are those in memory
  // exactly if its rows arrived undisturbed; and those in memory are the tables of the returned rows.
  ghost predicate HoldsResponses(id: string, rx: seq<Staging.Tick>, sid: nat, queries: seq<CapturedQuery>) {
    sid in Collector.Run(Staging.Events(rx)) && Staging.AnsweredOnce(rx, sid) ==>
      var s := Collector.Run(Staging.Events(rx))[sid];
      && (queries == s.queries <==> Undisturbed(id, rx, sid))
      && Collector.TellsAll(Staging.Events(rx), sid, s.user, s.database, s.sessionStart, s.queries)
  }

  // The rows of a session carry the capture's id and what the session announced.
  ghost predicate HoldsNames(id: string, events: seq<Event>, sid: nat, rows: seq<Staging.StagingRow>) {
    forall k :: 0 <= k < |rows| && rows[k].sid == sid ==>
      rows[k].captureId == id && Staging.AnnouncedAs(events, sid, rows[k].user, rows[k].database)
  }

  lemma ReadNames(id: string, rx: seq<Staging.Tick>, sid: nat)
    requires Collector.StartsFirst(Staging.Events(rx))
    ensures HoldsNames(id, Staging.Events(rx), sid, ByStart(Staging.Staged(id, rx)))
  {
    var staged := Staging.Staged(id, rx);
    var rows := ByStart(staged);
    ByStartKeepsAll(staged);
    forall k | 0 <= k < |rows| && rows[k].sid == sid
      ensures rows[k].captureId == id && Staging.AnnouncedAs(Staging.Events(rx), sid, rows[k].user, rows[k].database)
    {
      assert rows[k] in multiset(rows);
      assert rows[k] in staged;
      var j :| 0 <= j < |staged| && staged[j] == rows[k];
      Staging.RowsAreAnnounced(id, rx, j);
    }
  }

  // What is read back for a session, queries and responses.
  lemma ReadPairs(id: string, rx: seq<Staging.Tick>, sid: nat)
    requires Collector.StartsFirst(Staging.Events(rx)) && ClockForward(Staging.Events(rx), sid)
    ensures Staging.QueriesOf(ByStart(Staging.Staged(id, rx)), sid) == Staging.QueriesOf(Staging.Staged(id, rx), sid)
    ensures HoldsPairs(Staging.Events(rx), sid, Staging.QueriesOf(ByStart(Staging.Staged(id, rx)), sid))
    ensures HoldsResponses(id, rx, sid, Staging.QueriesOf(ByStart(Staging.Staged(id, rx)), sid))
  {
    hide HoldsPairs, HoldsResponses, Collector.StartsFirst, Staging.Events;
    StagedPairs(id, rx, sid);
    PairsAscend(Staging.Events(rx), sid, Staging.QueriesOf(Staging.Staged(id, rx), sid));
    ReadOrderIff(Staging.Staged(id, rx), sid);
    StagedResponses(id, rx, sid);
  }

  lemma StagedResponses(id: string, rx: seq<Staging.Tick>, sid: nat)
    requires Collector.StartsFirst(Staging.Events(rx))
    ensures HoldsResponses(id, rx, sid, Staging.QueriesOf(Staging.Staged(id, rx), sid))
  {
    if sid in Collector.Run(Staging.Events(rx)) && Staging.AnsweredOnce(rx, sid) {
      Collector.CollectorCapturesMatches(Staging.Events(rx), sid);
      Staging.StagingExactIffNoFlushBetween(id, rx, sid);
    }
  }

  lemma WindowClock(actions: seq<Action>, lo: nat, hi: nat, sid: nat)
    requires lo <= hi <= |actions| && ClockForward(Forwarded(actions), sid)
    ensures ClockForward(Forwarded(actions[lo..hi]), sid)
  {
    var from := ForwardedPart(actions, lo, hi);
    var all, events := Forwarded(actions), Forwarded(actions[lo..hi]);
    forall i, j | 0 <= i < j < |events| && StartsQuery(events[i], sid) && StartsQuery(events[j], sid)
      ensures events[i].at <= events[j].at
    {
      assert events[i] == all[from + i] && events[j] == all[from + j];
    }
  }

  lemma WindowHolds(actions: seq<Action>, lo: nat, hi: nat, part: seq<Action>, id: string, sid: nat)
    requires Collector.StartsFirst(Forwarded(actions)) && ClockForward(Forwarded(actions), sid)
    requires lo <= hi <= |actions| && part == actions[lo..hi]
    ensures HoldsPairs(Forwarded(part), sid, Staging.QueriesOf(ByStart(Staging.Staged(id, Ticks(part))), sid))
    ensures HoldsResponses(id, Ticks(part), sid, Staging.QueriesOf(ByStart(Staging.Staged(id, Ticks(part))), sid))
    ensures HoldsNames(id, Forwarded(part), sid, ByStart(Staging.Staged(id, Ticks(part))))
  {
    TicksEvents(part);
    WindowStartsFirst(actions, lo, hi);
    WindowClock(actions, lo, hi, sid);
    ReadPairs(id, Ticks(part), sid);
    ReadNames(id, Ticks(part), sid);
  }

  ghost predicate Holds(actions: seq<Action>, w: Profile, sid: nat) {
    && w.lo < w.hi < |actions| && actions[w.lo] == Start(w.id) && actions[w.hi] == Stop
    && HoldsPairs(Forwarded(actions[w.lo + 1..w.hi]), sid, Staging.QueriesOf(w.rows, sid))
    && HoldsResponses(w.id, Ticks(actions[w.lo + 1..w.hi]), sid, Staging.QueriesOf(w.rows, sid))
    && HoldsNames(w.id, Forwarded(actions[w.lo + 1..w.hi]), sid, w.rows)
  }

  lemma ProfileHolds(actions: seq<Action>, w: Profile, sid: nat)
    requires Collector.StartsFirst(Forwarded(actions)) && ClockForward(Forwarded(actions), sid)
    requires IsWindow(actions, w)
    ensures Holds(actions, w, sid)
  {
    WindowHolds(actions, w.lo + 1, w.hi, actions[w.lo + 1..w.hi], w.id, sid);
  }

  lemma WrittenIsWindow(actions: seq<Action>, p: nat)
    requires p < |Run(actions).written|
    ensures IsWindow(actions, Run(actions).written[p])
  {
    CapturesAreIsolated(actions);
  }

  /** Each profile holds, for each session, exactly the queries whose start and matching completion were
      both forwarded between that capture's Start and Stop, in the order of their completion; their
      responses are those in memory exactly if no flush came between a completion and its rows. */
  lemma ProfileHoldsItsQueries(actions: seq<Action>, p: nat, sid: nat)
    requires Collector.StartsFirst(Forwarded(actions)) && ClockForward(Forwarded(actions), sid)
    requires p < |Run(actions).written|
    ensures Holds(actions, Run(actions).written[p], sid)
  {
    WrittenIsWindow(actions, p);
    ProfileHolds(actions, Run(actions).written[p], sid);
  }
}
