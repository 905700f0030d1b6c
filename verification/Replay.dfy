/** Numbering of transactions (src/profile/mod.rs) and the query loop that replays a session
    (src/replay/session.rs), against a model of the server's transaction state. */
module Replay {
  import opened Wrappers

  datatype QueryKind = Select | Insert | Update | Delete | Ddl | Begin | Commit | Rollback | OtherKind {
    predicate IsReadOnly() { Select? }

    predicate IsTransactionControl() { Begin? || Commit? || Rollback? }

    predicate EndsTransaction() { Commit? || Rollback? }
  }

  datatype Query = Query(sql: string, kind: QueryKind, txn: Option<nat>)

  // ---- Transaction ids ----

  datatype Numbering = Numbering(queries: seq<Query>, current: Option<nat>, next: nat)

  function NumberNext(n: Numbering, q: Query): Numbering {
    match q.kind
    case Begin => Numbering(n.queries + [q.(txn := Some(n.next))], Some(n.next), n.next + 1)
    case Commit => Numbering(n.queries + [if n.current.Some? then q.(txn := n.current) else q], None, n.next)
    case Rollback => Numbering(n.queries + [if n.current.Some? then q.(txn := n.current) else q], None, n.next)
    case _ => Numbering(n.queries + [q.(txn := n.current)], n.current, n.next)
  }

  function Number(queries: seq<Query>, next: nat): (n: Numbering)
    ensures |n.queries| == |queries|
  {
    if queries == [] then Numbering([], None, next)
    else NumberNext(Number(queries[..|queries| - 1], next), queries[|queries| - 1])
  }

  function Begins(queries: seq<Query>): nat {
    if queries == [] then 0
    else Begins(queries[..|queries| - 1]) + if queries[|queries| - 1].kind.Begin? then 1 else 0
  }

  // Query j is the last before query i that begins or ends a transaction.
  ghost predicate LastControl(queries: seq<Query>, j: int, i: int) {
    && 0 <= j < i <= |queries| && queries[j].kind in {Begin, Commit, Rollback}
    && forall k :: j < k < i ==> queries[k].kind !in {Begin, Commit, Rollback}
  }

  // Query i is in no transaction: nothing began one, or something ended it.
  ghost predicate Outside(queries: seq<Query>, i: int) {
    forall j :: LastControl(queries, j, i) ==> !queries[j].kind.Begin?
  }

  // What query i becomes. A BEGIN has the next number; up to and including the COMMIT or ROLLBACK after it the
  // queries have the same; outside of transactions there is none, and a stray COMMIT or ROLLBACK is left alone.
  ghost predicate NumberedAs(queries: seq<Query>, next: nat, i: nat, q: Query)
    requires i < |queries|
  {
    && q.sql == queries[i].sql && q.kind == queries[i].kind
    && (q.kind.Begin? ==> q.txn == Some(next + Begins(queries[..i])))
    && (!q.kind.Begin? ==> forall j :: LastControl(queries, j, i) && queries[j].kind.Begin? ==>
                             q.txn == Some(next + Begins(queries[..j])))
    && (!q.kind.Begin? && Outside(queries, i) ==>
          q.txn == if q.kind.Commit? || q.kind.Rollback? then queries[i].txn else None)
  }

  // The transaction open after the queries, if any.
  lemma {:induction false} CurrentIs(queries: seq<Query>, next: nat)
    ensures Number(queries, next).next == next + Begins(queries)
    ensures forall j :: LastControl(queries, j, |queries|) && queries[j].kind.Begin? ==>
              Number(queries, next).current == Some(next + Begins(queries[..j]))
    ensures Outside(queries, |queries|) ==> Number(queries, next).current.None?
  {
    if queries == [] {
    } else {
      var n := |queries| - 1;
      var init := queries[..n];
      CurrentIs(init, next);
      if queries[n].kind in {Begin, Commit, Rollback} {
        assert LastControl(queries, n, n + 1);
      } else {
        forall j ensures LastControl(queries, j, n + 1) <==> LastControl(init, j, n) {}
        forall j | LastControl(init, j, n) ensures queries[..j] == init[..j] {}
      }
    }
  }

  lemma ControlsBefore(queries: seq<Query>, i: nat)
    requires i < |queries|
    ensures forall j :: LastControl(queries, j, i) <==> LastControl(queries[..i], j, i)
    ensures forall j :: 0 <= j <= i ==> queries[..i][..j] == queries[..j]
  {
  }

  lemma NumberedByBlocks(queries: seq<Query>, next: nat, i: nat)
    requires i < |queries|
    ensures NumberedAs(queries, next, i, Number(queries, next).queries[i])
  {
    hide Number, NumberedAs, LastControl, Outside, NumberNext;
    NumberAt(queries, next, i);
    assert Number(queries, next).queries[i] == Number(queries[..i + 1], next).queries[i];
    CurrentBefore(queries, next, i);
    NumberedHere(queries, next, i, Number(queries[..i], next));
  }

  lemma CurrentBefore(queries: seq<Query>, next: nat, i: nat)
    requires i < |queries|
    ensures var n := Number(queries[..i], next);
            && n.next == next + Begins(queries[..i])
            && (forall j :: LastControl(queries, j, i) && queries[j].kind.Begin? ==>
                  n.current == Some(next + Begins(queries[..j])))
            && (Outside(queries, i) ==> n.current.None?)
  {
    hide Number, Begins;
    CurrentIs(queries[..i], next);
    ControlsBefore(queries, i);
  }

  lemma NumberedHere(queries: seq<Query>, next: nat, i: nat, n: Numbering)
    requires i < |queries| && |n.queries| == i && n.next == next + Begins(queries[..i])
    requires forall j :: LastControl(queries, j, i) && queries[j].kind.Begin? ==>
               n.current == Some(next + Begins(queries[..j]))
    requires Outside(queries, i) ==> n.current.None?
    ensures NumberedAs(queries, next, i, NumberNext(n, queries[i]).queries[i])
  {
    hide Begins;
  }

  /** Numbers the transactions in place, continuing from nextTxnId: each block of queries from a BEGIN to the
      COMMIT or ROLLBACK that ends it has the next number. */
  method AssignTransactionIds(queries: array<Query>, nextTxnId: nat) returns (next: nat)
    modifies queries
    ensures queries[..] == Number(old(queries[..]), nextTxnId).queries
    ensures next == Number(old(queries[..]), nextTxnId).next == nextTxnId + Begins(old(queries[..]))
    ensures forall i :: 0 <= i < queries.Length ==> NumberedAs(old(queries[..]), nextTxnId, i, queries[i])
  {
    hide NumberedAs;
    next := nextTxnId;
    var currentTxn: Option<nat> := None;
    ghost var was := queries[..];
    for i := 0 to queries.Length
      invariant Number(was[..i], nextTxnId) == Numbering(queries[..i], currentTxn, next)
      invariant forall k :: i <= k < queries.Length ==> queries[k] == was[k]
    {
      assert was[..i + 1][..i] == was[..i];
      assert queries[i] == was[i];
      match queries[i].kind
      case Begin =>
        var txnId := next;
        next := next + 1;
        currentTxn := Some(txnId);
        queries[i] := queries[i].(txn := Some(txnId));
      case Commit =>
        if currentTxn.Some? {
          queries[i] := queries[i].(txn := currentTxn);
        }
        currentTxn := None;
      case Rollback =>
        if currentTxn.Some? {
          queries[i] := queries[i].(txn := currentTxn);
        }
        currentTxn := None;
      case _ =>
        queries[i] := queries[i].(txn := currentTxn);
    }
    assert was[..queries.Length] == was;
    CurrentIs(was, nextTxnId);
    forall i | 0 <= i < queries.Length ensures NumberedAs(was, nextTxnId, i, queries[i]) {
      NumberedByBlocks(was, nextTxnId, i);
    }
  }

  // ---- The server ----

  datatype Server = Idle | InTransaction | Failed

  // How the server takes a statement, and whether the transaction is over then. An accepted COMMIT or
  // ROLLBACK ends it unless AND CHAIN opens the next one; of the others only PREPARE TRANSACTION does.
  // A refused COMMIT ends it if the server could not commit, but not if it is refused for itself, as
  // COMMIT PREPARED is inside a transaction.
  datatype Outcome = Accepted(ends: bool) | Refused(ends: bool)

  // The transaction state after one statement. A failed transaction accepts nothing but its end and
  // ROLLBACK TO SAVEPOINT, which opens it again.
  function After(server: Server, kind: QueryKind, o: Outcome): Server {
    match server
    case Idle => if kind.Begin? && o.Accepted? then InTransaction else Idle
    case _ =>
      match o
      case Accepted(ends) => if ends && !kind.Begin? then Idle else InTransaction
      case Refused(ends) => if ends && kind.EndsTransaction() then Idle else Failed
  }

  // What was sent, and the transaction state it was sent in.
  datatype Sent = Statement(index: nat, before: Server) | InjectedRollback(txn: nat, before: Server)

  class Connection {
    var server: Server
    var sent: seq<Sent>

    constructor ()
      ensures server == Idle && sent == []
    {
      server, sent := Idle, [];
    }

    method SimpleQuery(index: nat, kind: QueryKind, o: Outcome)
      modifies this
      ensures server == After(old(server), kind, o) && sent == old(sent) + [Statement(index, old(server))]
    {
      sent := sent + [Statement(index, server)];
      server := After(server, kind, o);
    }

    method SendRollback(txn: nat)
      modifies this
      ensures server == Idle && sent == old(sent) + [InjectedRollback(txn, old(server))]
    {
      sent := sent + [InjectedRollback(txn, server)];
      server := Idle;
    }
  }

  // ---- The replay loop ----

  datatype Mode = ReadWrite | ReadOnly {
    predicate ShouldReplay(q: Query) {
      ReadWrite? || q.kind.IsReadOnly()
    }
  }

  datatype Status = Succeeded | FailedOnServer | SkippedEnd | SkippedInside

  datatype QueryResult = QueryResult(sql: string, status: Status)

  datatype State = State(failed: Option<nat>, server: Server, sent: seq<Sent>, results: seq<QueryResult>)

  const INITIAL: State := State(None, Idle, [], [])

  // The loop body for query number `index`.
  function Turn(mode: Mode, s: State, index: nat, q: Query, o: Outcome): State {
    if !mode.ShouldReplay(q) then s
    else if s.failed.Some? && q.txn == s.failed then
      if q.kind.Commit? || q.kind.Rollback? then
        s.(failed := None, results := s.results + [QueryResult(q.sql, SkippedEnd)])
      else s.(results := s.results + [QueryResult(q.sql, SkippedInside)])
    else
      var server := After(s.server, q.kind, o);
      var sent := s.sent + [Statement(index, s.server)];
      if o.Accepted? then State(None, server, sent, s.results + [QueryResult(q.sql, Succeeded)])
      else if q.txn.Some? && !q.kind.IsTransactionControl() then
        State(q.txn, Idle, sent + [InjectedRollback(q.txn.value, server)],
              s.results + [QueryResult(q.sql, FailedOnServer)])
      else State(None, server, sent, s.results + [QueryResult(q.sql, FailedOnServer)])
  }

  // The first n queries, the server's outcome for each being given.
  function Replayed(mode: Mode, queries: seq<Query>, outcomes: seq<Outcome>, n: nat): State
    requires n <= |queries| && |queries| == |outcomes|
  {
    if n == 0 then INITIAL
    else Turn(mode, Replayed(mode, queries, outcomes, n - 1), n - 1, queries[n - 1], outcomes[n - 1])
  }

  method ReplaySession(c: Connection, mode: Mode, queries: seq<Query>, outcomes: seq<Outcome>)
    returns (results: seq<QueryResult>)
    requires |queries| == |outcomes| && c.server == Idle && c.sent == []
    modifies c
    ensures c.server == Replayed(mode, queries, outcomes, |queries|).server
    ensures c.sent == Replayed(mode, queries, outcomes, |queries|).sent
    ensures results == Replayed(mode, queries, outcomes, |queries|).results
    ensures mode.ReadOnly? ==> OnlySelects(queries, c.sent) && ResultSql(results) == SelectTexts(queries)
    ensures mode.ReadWrite? ==> ResultSql(results) == Texts(queries)
  {
    results := [];
    var failedTxnId: Option<nat> := None;
    for i := 0 to |queries|
      invariant Replayed(mode, queries, outcomes, i) == State(failedTxnId, c.server, c.sent, results)
    {
      var q := queries[i];
      if !mode.ShouldReplay(q) {
        continue;
      }
      if failedTxnId.Some? {
        if q.txn == failedTxnId {
          if q.kind == Commit || q.kind == Rollback {
            failedTxnId := None;
            results := results + [QueryResult(q.sql, SkippedEnd)];
          } else {
            results := results + [QueryResult(q.sql, SkippedInside)];
          }
          continue;
        } else {
          failedTxnId := None;
        }
      }
      c.SimpleQuery(i, q.kind, outcomes[i]);
      if outcomes[i].Refused? {
        if q.txn.Some? {
          if !q.kind.IsTransactionControl() {
            c.SendRollback(q.txn.value);
            failedTxnId := q.txn;
          }
        }
      }
      results := results + [QueryResult(q.sql, if outcomes[i].Accepted? then Succeeded else FailedOnServer)];
    }
    OneResultPerQuery(mode, queries, outcomes, |queries|);
    ReadOnlySelects(queries, outcomes, |queries|);
    assert queries[..|queries|] == queries;
  }

  // What is sent of the session are SELECTs.
  predicate OnlySelects(queries: seq<Query>, sent: seq<Sent>) {
    forall p :: 0 <= p < |sent| && sent[p].Statement? ==>
      sent[p].index < |queries| && queries[sent[p].index].kind == Select
  }

  function Texts(queries: seq<Query>): seq<string> {
    seq(|queries|, i requires 0 <= i < |queries| => queries[i].sql)
  }

  function SelectTexts(queries: seq<Query>): seq<string> {
    if queries == [] then []
    else
      var q := queries[|queries| - 1];
      SelectTexts(queries[..|queries| - 1]) + if q.kind == Select then [q.sql] else []
  }

  /** A read-only replay sends nothing but SELECTs, whatever the server does. */
  lemma {:induction false} ReadOnlySelects(queries: seq<Query>, outcomes: seq<Outcome>, n: nat)
    requires n <= |queries| && |queries| == |outcomes|
    ensures OnlySelects(queries, Replayed(ReadOnly, queries, outcomes, n).sent)
  {
    if n > 0 { ReadOnlySelects(queries, outcomes, n - 1); }
  }

  // ---- Properties ----

  predicate Unset(queries: seq<Query>) {
    forall i :: 0 <= i < |queries| ==> queries[i].txn.None?
  }

  // The queries of one transaction are contiguous.
  ghost predicate Contiguous(queries: seq<Query>) {
    forall i, j, k :: 0 <= i < j < k < |queries| && queries[i].txn.Some? && queries[i].txn == queries[k].txn ==>
      queries[j].txn == queries[i].txn
  }

  ghost predicate WellNumbered(n: Numbering) {
    && (n.current.Some? ==> n.current.value < n.next && n.queries != [] && n.queries[|n.queries| - 1].txn == n.current)
    && (forall i :: 0 <= i < |n.queries| && n.queries[i].txn.Some? ==> n.queries[i].txn.value < n.next)
    && Contiguous(n.queries)
  }

  lemma WellNumberedNext(n: Numbering, q: Query)
    requires WellNumbered(n) && q.txn.None?
    ensures WellNumbered(NumberNext(n, q))
  {
    var n' := NumberNext(n, q);
    var last := |n.queries|;
    forall i, j, k | 0 <= i < j < k < |n'.queries| && n'.queries[i].txn.Some? && n'.queries[i].txn == n'.queries[k].txn
      ensures n'.queries[j].txn == n'.queries[i].txn
    {
      if k == last && j < last - 1 {
        assert n.queries[i].txn == n.queries[last - 1].txn;
      }
    }
  }

  lemma {:induction false} NumberingIsWell(queries: seq<Query>, next: nat)
    requires Unset(queries)
    ensures WellNumbered(Number(queries, next))
  {
    if queries == [] {
    } else {
      var n := |queries| - 1;
      NumberingIsWell(queries[..n], next);
      WellNumberedNext(Number(queries[..n], next), queries[n]);
    }
  }

  // Query i after numbering, in terms of the numbering of the queries before it.
  lemma {:induction false} NumberAt(queries: seq<Query>, next: nat, i: nat)
    requires i < |queries|
    ensures Number(queries[..i + 1], next) == NumberNext(Number(queries[..i], next), queries[i])
    ensures Number(queries[..i + 1], next).queries == Number(queries, next).queries[..i + 1]
  {
    assert queries[..i + 1][..i] == queries[..i];
    var n := |queries| - 1;
    if i < n {
      NumberAt(queries[..n], next, i);
      assert queries[..n][..i + 1] == queries[..i + 1] && queries[..n][..i] == queries[..i];
      assert Number(queries, next).queries[..n] == Number(queries[..n], next).queries;
    } else {
      assert queries[..i + 1] == queries;
    }
  }

  // No query after the end of a transaction carries its id.
  lemma EndedForGood(queries: seq<Query>, next: nat, i: nat, k: nat)
    requires Unset(queries) && i < k < |queries|
    requires queries[i].kind.Commit? || queries[i].kind.Rollback?
    requires Number(queries, next).queries[i].txn.Some?
    ensures Number(queries, next).queries[k].txn != Number(queries, next).queries[i].txn
  {
    var q := Number(queries, next).queries;
    NumberingIsWell(queries, next);
    NumberingIsWell(queries[..i + 1], next);
    NumberAt(queries, next, i);
    NumberAt(queries, next, i + 1);
    assert q[i] == q[..i + 1][i] && q[i + 1] == q[..i + 2][i + 1];
    assert Number(queries[..i + 1], next).current.None?;
    assert q[i + 1].txn != q[i].txn;
  }

  function ResultSql(results: seq<QueryResult>): (r: seq<string>)
    ensures |r| == |results|
  {
    seq(|results|, i requires 0 <= i < |results| => results[i].sql)
  }

  lemma TurnReports(mode: Mode, s: State, index: nat, q: Query, o: Outcome)
    ensures ResultSql(Turn(mode, s, index, q, o).results)
         == ResultSql(s.results) + if mode.ReadWrite? || q.kind == Select then [q.sql] else []
  {
    hide After;
  }

  lemma MoreTexts(queries: seq<Query>, q: Query)
    ensures Texts(queries + [q]) == Texts(queries) + [q.sql]
    ensures SelectTexts(queries + [q]) == SelectTexts(queries) + if q.kind == Select then [q.sql] else []
  {
    assert (queries + [q])[..|queries|] == queries;
  }

  /** One result per query, in order; in a read-only replay one per SELECT. */
  lemma {:induction false} OneResultPerQuery(mode: Mode, queries: seq<Query>, outcomes: seq<Outcome>, n: nat)
    requires n <= |queries| && |queries| == |outcomes|
    ensures ResultSql(Replayed(mode, queries, outcomes, n).results)
         == if mode.ReadOnly? then SelectTexts(queries[..n]) else Texts(queries[..n])
  {
    if n == 0 {
    } else {
      OneResultPerQuery(mode, queries, outcomes, n - 1);
      var s, q := Replayed(mode, queries, outcomes, n - 1), queries[n - 1];
      TurnReports(mode, s, n - 1, q, outcomes[n - 1]);
      MoreTexts(queries[..n - 1], q);
      assert queries[..n] == queries[..n - 1] + [q];
    }
  }

  // ---- One ROLLBACK per failed transaction, and nothing of it afterwards ----

  // Sending this made its transaction a failed one.
  predicate Fails(queries: seq<Query>, outcomes: seq<Outcome>, x: Sent)
    requires |queries| == |outcomes|
  {
    && x.Statement? && x.index < |queries| && outcomes[x.index].Refused?
    && queries[x.index].txn.Some? && !queries[x.index].kind.IsTransactionControl()
  }

  function FailedTxns(queries: seq<Query>, outcomes: seq<Outcome>, sent: seq<Sent>): set<nat>
    requires |queries| == |outcomes|
  {
    if sent == [] then {}
    else
      var x := sent[|sent| - 1];
      FailedTxns(queries, outcomes, sent[..|sent| - 1])
      + if Fails(queries, outcomes, x) then {queries[x.index].txn.value} else {}
  }

  function Rollbacks(sent: seq<Sent>, t: nat): nat {
    if sent == [] then 0
    else
      var x := sent[|sent| - 1];
      Rollbacks(sent[..|sent| - 1], t) + if x.InjectedRollback? && x.txn == t then 1 else 0
  }

  lemma RollbacksAppend(sent: seq<Sent>, x: Sent, t: nat)
    ensures Rollbacks(sent + [x], t) == Rollbacks(sent, t) + if x.InjectedRollback? && x.txn == t then 1 else 0
  {
    assert (sent + [x])[..|sent|] == sent;
  }

  lemma FailedAppend(queries: seq<Query>, outcomes: seq<Outcome>, sent: seq<Sent>, x: Sent)
    requires |queries| == |outcomes|
    ensures FailedTxns(queries, outcomes, sent + [x])
         == FailedTxns(queries, outcomes, sent)
              + if Fails(queries, outcomes, x) then {queries[x.index].txn.value} else {}
  {
    assert (sent + [x])[..|sent|] == sent;
  }

  // A ROLLBACK follows the failing statement directly, and no statement of its transaction comes later.
  ghost predicate RollbacksInPlace(queries: seq<Query>, outcomes: seq<Outcome>, sent: seq<Sent>)
    requires |queries| == |outcomes|
  {
    && (forall p :: 0 <= p < |sent| && sent[p].InjectedRollback? ==>
          p > 0 && Fails(queries, outcomes, sent[p - 1]) && queries[sent[p - 1].index].txn == Some(sent[p].txn))
    && (forall p, r ::
          0 <= p < r < |sent| && sent[p].InjectedRollback? && sent[r].Statement? && sent[r].index < |queries| ==>
          queries[sent[r].index].txn != Some(sent[p].txn))
  }

  ghost predicate SeenBefore(queries: seq<Query>, t: nat, n: nat) {
    exists i :: 0 <= i < n && i < |queries| && queries[i].txn == Some(t)
  }

  ghost predicate OverFrom(queries: seq<Query>, t: nat, n: nat) {
    forall k :: n <= k < |queries| ==> queries[k].txn != Some(t)
  }

  lemma OverOnceLeft(queries: seq<Query>, t: nat, n: nat)
    requires Contiguous(queries) && n < |queries| && SeenBefore(queries, t, n) && queries[n].txn != Some(t)
    ensures OverFrom(queries, t, n)
  {
    var i :| 0 <= i < n && queries[i].txn == Some(t);
  }

  ghost predicate Counted(sent: seq<Sent>, failedTxns: set<nat>) {
    && (forall t :: Rollbacks(sent, t) == if t in failedTxns then 1 else 0)
    && (forall p :: 0 <= p < |sent| && sent[p].InjectedRollback? ==> sent[p].txn in failedTxns)
  }

  // The failed transactions are over by query n, except the one being skipped.
  ghost predicate Tracked(queries: seq<Query>, failedTxns: set<nat>, failed: Option<nat>, n: nat) {
    && (forall t :: t in failedTxns ==> SeenBefore(queries, t, n) && (failed == Some(t) || OverFrom(queries, t, n)))
    && (failed.Some? ==> failed.value in failedTxns)
  }

  // The bookkeeping that keeps failed transactions closed, before query n.
  ghost predicate Closed(queries: seq<Query>, outcomes: seq<Outcome>, s: State, n: nat)
    requires |queries| == |outcomes|
  {
    var failedTxns := FailedTxns(queries, outcomes, s.sent);
    && RollbacksInPlace(queries, outcomes, s.sent)
    && Counted(s.sent, failedTxns)
    && Tracked(queries, failedTxns, s.failed, n)
  }

  // None of the failed transactions goes on at query n or later.
  ghost predicate AllDone(queries: seq<Query>, failedTxns: set<nat>, n: nat) {
    forall t :: t in failedTxns ==> SeenBefore(queries, t, n + 1) && OverFrom(queries, t, n)
  }

  // That is so if query n is not of the transaction being skipped.
  lemma AllOver(queries: seq<Query>, failedTxns: set<nat>, failed: Option<nat>, n: nat)
    requires Contiguous(queries) && n < |queries| && Tracked(queries, failedTxns, failed, n)
    requires failed.Some? ==> queries[n].txn != failed
    ensures AllDone(queries, failedTxns, n)
  {
    forall t | t in failedTxns ensures SeenBefore(queries, t, n + 1) && OverFrom(queries, t, n) {
      if failed == Some(t) { OverOnceLeft(queries, t, n); }
    }
  }

  lemma InPlaceStatement(queries: seq<Query>, outcomes: seq<Outcome>, sent: seq<Sent>, failedTxns: set<nat>, n: nat,
                         x: Sent)
    requires |queries| == |outcomes| && n < |queries| && RollbacksInPlace(queries, outcomes, sent)
    requires Counted(sent, failedTxns) && forall t :: t in failedTxns ==> OverFrom(queries, t, n)
    requires x.Statement? && x.index == n
    ensures RollbacksInPlace(queries, outcomes, sent + [x])
  {
  }

  lemma InPlaceRollback(queries: seq<Query>, outcomes: seq<Outcome>, sent: seq<Sent>, x: Sent)
    requires |queries| == |outcomes| && RollbacksInPlace(queries, outcomes, sent)
    requires sent != [] && x.InjectedRollback? && Fails(queries, outcomes, sent[|sent| - 1])
    requires queries[sent[|sent| - 1].index].txn == Some(x.txn)
    ensures RollbacksInPlace(queries, outcomes, sent + [x])
  {
  }

  lemma CountedStatement(sent: seq<Sent>, failedTxns: set<nat>, x: Sent)
    requires Counted(sent, failedTxns) && x.Statement?
    ensures Counted(sent + [x], failedTxns)
  {
    forall t ensures Rollbacks(sent + [x], t) == if t in failedTxns then 1 else 0 {
      RollbacksAppend(sent, x, t);
    }
  }

  // Sending query n when all failed transactions are over.
  lemma ClosedSend(queries: seq<Query>, outcomes: seq<Outcome>, s: State, n: nat, x: Sent)
    requires |queries| == |outcomes| && n < |queries| && Closed(queries, outcomes, s, n)
    requires AllDone(queries, FailedTxns(queries, outcomes, s.sent), n)
    requires x.Statement? && x.index == n
    ensures RollbacksInPlace(queries, outcomes, s.sent + [x])
    ensures Counted(s.sent + [x], FailedTxns(queries, outcomes, s.sent))
    ensures FailedTxns(queries, outcomes, s.sent + [x])
         == FailedTxns(queries, outcomes, s.sent) + if Fails(queries, outcomes, x) then {queries[n].txn.value} else {}
  {
    FailedAppend(queries, outcomes, s.sent, x);
    CountedStatement(s.sent, FailedTxns(queries, outcomes, s.sent), x);
    InPlaceStatement(queries, outcomes, s.sent, FailedTxns(queries, outcomes, s.sent), n, x);
  }

  // Afterwards only a transaction that query n has made fail can go on.
  lemma TrackedSend(queries: seq<Query>, failedTxns: set<nat>, more: set<nat>, failed: Option<nat>, n: nat)
    requires n < |queries| && AllDone(queries, failedTxns, n)
    requires match failed
             case None => more == failedTxns
             case Some(t) => more == failedTxns + {t} && queries[n].txn == failed
    ensures Tracked(queries, more, failed, n + 1)
  {
    forall t | t in more ensures SeenBefore(queries, t, n + 1) && (failed == Some(t) || OverFrom(queries, t, n + 1)) {
      if t in failedTxns { assert SeenBefore(queries, t, n + 1) && OverFrom(queries, t, n); }
    }
  }

  // One more ROLLBACK, for a transaction that had none.
  lemma CountedRollback(sent: seq<Sent>, failedTxns: set<nat>, r: Sent)
    requires Counted(sent, failedTxns) && r.InjectedRollback? && r.txn !in failedTxns
    ensures Counted(sent + [r], failedTxns + {r.txn})
  {
    var more := failedTxns + {r.txn};
    forall t ensures Rollbacks(sent + [r], t) == if t in more then 1 else 0 {
      RollbacksAppend(sent, r, t);
    }
  }

  lemma NotYetFailed(queries: seq<Query>, failedTxns: set<nat>, n: nat, t: nat)
    requires n < |queries| && AllDone(queries, failedTxns, n) && queries[n].txn == Some(t)
    ensures t !in failedTxns
  {
  }

  lemma ClosedRollback(queries: seq<Query>, outcomes: seq<Outcome>, s: State, n: nat, x: Sent, r: Sent, s': State)
    requires |queries| == |outcomes| && n < |queries| && Closed(queries, outcomes, s, n)
    requires AllDone(queries, FailedTxns(queries, outcomes, s.sent), n)
    requires x.Statement? && x.index == n && Fails(queries, outcomes, x)
    requires r.InjectedRollback? && queries[n].txn == Some(r.txn)
    requires s'.failed == queries[n].txn && s'.sent == s.sent + [x] + [r]
    ensures Closed(queries, outcomes, s', n + 1)
  {
    var failedTxns := FailedTxns(queries, outcomes, s.sent);
    NotYetFailed(queries, failedTxns, n, r.txn);
    ClosedSend(queries, outcomes, s, n, x);
    CountedRollback(s.sent + [x], failedTxns, r);
    FailedAppend(queries, outcomes, s.sent + [x], r);
    InPlaceRollback(queries, outcomes, s.sent + [x], r);
    TrackedSend(queries, failedTxns, failedTxns + {r.txn}, s'.failed, n);
  }

  lemma ClosedOther(queries: seq<Query>, outcomes: seq<Outcome>, s: State, n: nat, x: Sent, s': State)
    requires |queries| == |outcomes| && n < |queries| && Closed(queries, outcomes, s, n)
    requires AllDone(queries, FailedTxns(queries, outcomes, s.sent), n)
    requires x.Statement? && x.index == n && !Fails(queries, outcomes, x)
    requires s'.failed.None? && s'.sent == s.sent + [x]
    ensures Closed(queries, outcomes, s', n + 1)
  {
    var failedTxns := FailedTxns(queries, outcomes, s.sent);
    ClosedSend(queries, outcomes, s, n, x);
    TrackedSend(queries, failedTxns, failedTxns, None, n);
  }

  lemma ClosedSkip(queries: seq<Query>, outcomes: seq<Outcome>, s: State, n: nat, s': State)
    requires |queries| == |outcomes| && n < |queries| && Closed(queries, outcomes, s, n)
    requires s'.sent == s.sent
    requires s'.failed == s.failed || (s.failed.Some? && s'.failed.None? && OverFrom(queries, s.failed.value, n + 1))
    ensures Closed(queries, outcomes, s', n + 1)
  {
    var failedTxns := FailedTxns(queries, outcomes, s.sent);
    forall t | t in failedTxns ensures SeenBefore(queries, t, n + 1) {
      assert SeenBefore(queries, t, n);
    }
  }

  lemma ClosedTurn(mode: Mode, queries: seq<Query>, outcomes: seq<Outcome>, s: State, n: nat)
    requires |queries| == |outcomes| && n < |queries| && Closed(queries, outcomes, s, n)
    requires s.failed.None? || queries[n].txn != s.failed ==> AllDone(queries, FailedTxns(queries, outcomes, s.sent), n)
    requires s.failed.Some? && queries[n].txn == s.failed && queries[n].kind.EndsTransaction() ==>
               OverFrom(queries, s.failed.value, n + 1)
    ensures Closed(queries, outcomes, Turn(mode, s, n, queries[n], outcomes[n]), n + 1)
  {
    var q, o, x := queries[n], outcomes[n], Statement(n, s.server);
    var s' := Turn(mode, s, n, q, o);
    if !mode.ShouldReplay(q) || (s.failed.Some? && q.txn == s.failed) {
      ClosedSkip(queries, outcomes, s, n, s');
    } else if Fails(queries, outcomes, x) {
      ClosedRollback(queries, outcomes, s, n, x, InjectedRollback(q.txn.value, After(s.server, q.kind, o)), s');
    } else {
      ClosedOther(queries, outcomes, s, n, x, s');
    }
  }

  // What the numbering contributes: its transactions are contiguous and end for good.
  lemma NumberedTurn(queries: seq<Query>, next: nat, failedTxns: set<nat>, failed: Option<nat>, n: nat)
    requires Unset(queries) && n < |queries|
    requires Tracked(Number(queries, next).queries, failedTxns, failed, n)
    ensures var qs := Number(queries, next).queries;
            && (failed.None? || qs[n].txn != failed ==> AllDone(qs, failedTxns, n))
            && (failed.Some? && qs[n].txn == failed && qs[n].kind.EndsTransaction() ==>
                  OverFrom(qs, failed.value, n + 1))
  {
    var qs := Number(queries, next).queries;
    NumberingIsWell(queries, next);
    if failed.None? || qs[n].txn != failed {
      AllOver(qs, failedTxns, failed, n);
    } else if qs[n].kind.EndsTransaction() {
      KindKept(queries, next, n);
      forall k | n + 1 <= k < |qs| ensures qs[k].txn != failed {
        EndedForGood(queries, next, n, k);
      }
    }
  }

  lemma {:induction false} ClosedAlways(mode: Mode, queries: seq<Query>, next: nat, outcomes: seq<Outcome>, n: nat)
    requires Unset(queries) && |queries| == |outcomes| && n <= |queries|
    ensures Closed(Number(queries, next).queries, outcomes,
                   Replayed(mode, Number(queries, next).queries, outcomes, n), n)
  {
    if n == 0 {
    } else {
      var qs := Number(queries, next).queries;
      var s := Replayed(mode, qs, outcomes, n - 1);
      ClosedAlways(mode, queries, next, outcomes, n - 1);
      NumberedTurn(queries, next, FailedTxns(qs, outcomes, s.sent), s.failed, n - 1);
      ClosedTurn(mode, qs, outcomes, s, n - 1);
    }
  }

  lemma {:induction false} KindKept(queries: seq<Query>, next: nat, i: nat)
    requires i < |queries|
    ensures Number(queries, next).queries[i].kind == queries[i].kind
    ensures Number(queries, next).queries[i].sql == queries[i].sql
  {
    var n := |queries| - 1;
    if i < n { KindKept(queries[..n], next, i); }
  }

  /** For every session, every outcome of every statement and both modes: exactly one ROLLBACK is sent
      for each failed transaction, directly after the statement that failed, and no later statement of
      that transaction is sent. */
  lemma FailedTransactionsStayClosed(mode: Mode, queries: seq<Query>, next: nat, outcomes: seq<Outcome>)
    requires Unset(queries) && |queries| == |outcomes|
    ensures var qs := Number(queries, next).queries;
            var sent := Replayed(mode, qs, outcomes, |qs|).sent;
            && RollbacksInPlace(qs, outcomes, sent)
            && forall t :: Rollbacks(sent, t) == if t in FailedTxns(qs, outcomes, sent) then 1 else 0
  {
    ClosedAlways(mode, queries, next, outcomes, |queries|);
  }

  // ---- What is sent, and what is reported ----

  ghost predicate IsSent(sent: seq<Sent>, i: nat) {
    exists p :: 0 <= p < |sent| && sent[p].Statement? && sent[p].index == i
  }

  // An earlier statement of the same transaction was sent and refused, and it was not transaction control.
  ghost predicate AfterFailure(queries: seq<Query>, outcomes: seq<Outcome>, sent: seq<Sent>, i: nat)
    requires i < |queries| == |outcomes|
  {
    exists f: nat :: f < i && IsSent(sent, f) && outcomes[f].Refused? && queries[f].txn.Some?
                     && queries[f].txn == queries[i].txn && queries[f].kind !in {Begin, Commit, Rollback}
  }

  // How many results precede that of query i.
  function Ordinal(mode: Mode, queries: seq<Query>, i: nat): nat
    requires i <= |queries|
  {
    if mode.ReadOnly? then |SelectTexts(queries[..i])| else i
  }

  lemma TurnSends(mode: Mode, s: State, index: nat, q: Query, o: Outcome)
    ensures var sent := Turn(mode, s, index, q, o).sent;
            && |s.sent| <= |sent| && (forall p :: 0 <= p < |s.sent| ==> sent[p] == s.sent[p])
            && forall p :: |s.sent| <= p < |sent| && sent[p].Statement? ==> sent[p].index == index
  {
  }

  predicate AllBelow(sent: seq<Sent>, n: nat) {
    forall p :: 0 <= p < |sent| && sent[p].Statement? ==> sent[p].index < n
  }

  lemma {:induction false} SentBelow(mode: Mode, queries: seq<Query>, outcomes: seq<Outcome>, n: nat)
    requires n <= |queries| == |outcomes|
    ensures AllBelow(Replayed(mode, queries, outcomes, n).sent, n)
  {
    if n > 0 {
      ReplayedNext(mode, queries, outcomes, n - 1);
      SentBelow(mode, queries, outcomes, n - 1);
      TurnSends(mode, Replayed(mode, queries, outcomes, n - 1), n - 1, queries[n - 1], outcomes[n - 1]);
    }
  }

  lemma {:induction false} SentOnTurn(mode: Mode, queries: seq<Query>, outcomes: seq<Outcome>, i: nat, n: nat)
    requires i < n <= |queries| == |outcomes|
    ensures var s := Replayed(mode, queries, outcomes, i);
            IsSent(Replayed(mode, queries, outcomes, n).sent, i)
            <==> mode.ShouldReplay(queries[i]) && !(s.failed.Some? && queries[i].txn == s.failed)
    decreases n
  {
    var before, after := Replayed(mode, queries, outcomes, n - 1), Replayed(mode, queries, outcomes, n);
    if i == n - 1 {
      SentBelow(mode, queries, outcomes, i);
      if mode.ShouldReplay(queries[i]) && !(before.failed.Some? && queries[i].txn == before.failed) {
        assert after.sent[|before.sent|].Statement?;
      }
    } else {
      SentOnTurn(mode, queries, outcomes, i, n - 1);
      if p :| 0 <= p < |before.sent| && before.sent[p].Statement? && before.sent[p].index == i {
        assert after.sent[p] == before.sent[p];
      }
    }
  }

  lemma {:induction false} FailedBy(queries: seq<Query>, outcomes: seq<Outcome>, sent: seq<Sent>, t: nat)
    requires |queries| == |outcomes|
    ensures t in FailedTxns(queries, outcomes, sent) <==>
            exists p :: 0 <= p < |sent| && Fails(queries, outcomes, sent[p]) && queries[sent[p].index].txn == Some(t)
  {
    if sent == [] {
    } else {
      FailedBy(queries, outcomes, sent[..|sent| - 1], t);
    }
  }

  // At query i the replay is skipping its transaction exactly if an earlier statement of it has failed.
  lemma SkipsIff(mode: Mode, queries: seq<Query>, next: nat, outcomes: seq<Outcome>, i: nat)
    requires Unset(queries) && i < |queries| == |outcomes|
    ensures var qs := Number(queries, next).queries;
            var s := Replayed(mode, qs, outcomes, i);
            s.failed.Some? && qs[i].txn == s.failed
            <==> AfterFailure(qs, outcomes, Replayed(mode, qs, outcomes, |qs|).sent, i)
  {
    var qs := Number(queries, next).queries;
    var s, all := Replayed(mode, qs, outcomes, i), Replayed(mode, qs, outcomes, |qs|).sent;
    ClosedAlways(mode, queries, next, outcomes, i);
    SentBelow(mode, qs, outcomes, i);
    hide Number, Replayed, FailedTxns, RollbacksInPlace, Counted, Tracked, AfterFailure, IsSent;
    forall f: nat | f < i ensures IsSent(all, f) <==> IsSent(s.sent, f) {
      SentOnTurn(mode, qs, outcomes, f, |qs|);
      SentOnTurn(mode, qs, outcomes, f, i);
    }
    FailedIffAfter(qs, outcomes, s, all, i);
  }

  lemma FailedIffAfter(qs: seq<Query>, outcomes: seq<Outcome>, s: State, all: seq<Sent>, i: nat)
    requires i < |qs| == |outcomes| && Tracked(qs, FailedTxns(qs, outcomes, s.sent), s.failed, i)
    requires forall f: nat :: f < i ==> (IsSent(all, f) <==> IsSent(s.sent, f))
    requires AllBelow(s.sent, i)
    ensures s.failed.Some? && qs[i].txn == s.failed <==> AfterFailure(qs, outcomes, all, i)
  {
    hide FailedTxns;
    if s.failed.Some? && qs[i].txn == s.failed {
      FailedBy(qs, outcomes, s.sent, s.failed.value);
      var p :| 0 <= p < |s.sent| && Fails(qs, outcomes, s.sent[p]) && qs[s.sent[p].index].txn == s.failed;
      assert IsSent(s.sent, s.sent[p].index);
      assert IsSent(all, s.sent[p].index);
    }
    if AfterFailure(qs, outcomes, all, i) {
      var f: nat :| f < i && IsSent(all, f) && outcomes[f].Refused? && qs[f].txn.Some? && qs[f].txn == qs[i].txn
                    && qs[f].kind !in {Begin, Commit, Rollback};
      var p :| 0 <= p < |s.sent| && s.sent[p].Statement? && s.sent[p].index == f;
      assert Fails(qs, outcomes, s.sent[p]);
      FailedBy(qs, outcomes, s.sent, qs[i].txn.value);
      assert qs[i].txn == Some(qs[i].txn.value);
    }
  }

  lemma {:induction false} ResultStays(mode: Mode, queries: seq<Query>, outcomes: seq<Outcome>, n: nat, m: nat)
    requires n <= m <= |queries| == |outcomes|
    ensures Replayed(mode, queries, outcomes, n).results <= Replayed(mode, queries, outcomes, m).results
  {
    if n < m { ResultStays(mode, queries, outcomes, n, m - 1); }
  }

  lemma ResultOnTurn(mode: Mode, queries: seq<Query>, outcomes: seq<Outcome>, i: nat)
    requires i < |queries| == |outcomes| && mode.ShouldReplay(queries[i])
    ensures var s, k := Replayed(mode, queries, outcomes, i), Ordinal(mode, queries, i);
            var skips := s.failed.Some? && queries[i].txn == s.failed;
            var results, q := Replayed(mode, queries, outcomes, |queries|).results, queries[i];
            && k < |results| && results[k].sql == q.sql
            && results[k].status == (if skips then if q.kind == Commit || q.kind == Rollback then SkippedEnd
                                                   else SkippedInside
                                     else if outcomes[i].Accepted? then Succeeded else FailedOnServer)
  {
    OneResultPerQuery(mode, queries, outcomes, i);
    ResultStays(mode, queries, outcomes, i + 1, |queries|);
    ReplayedNext(mode, queries, outcomes, i);
    var s, after := Replayed(mode, queries, outcomes, i), Replayed(mode, queries, outcomes, i + 1);
    assert |s.results| == |ResultSql(s.results)| == Ordinal(mode, queries, i);
    assert after.results[|s.results|] == Replayed(mode, queries, outcomes, |queries|).results[|s.results|];
  }

  /** For every session, mode and server: a query is sent exactly if the mode replays it (all of them, or only
      SELECTs) and no earlier statement of its transaction was sent and refused; a query that the mode
      replays has the result that says so, at its place. */
  lemma SentAndReported(mode: Mode, queries: seq<Query>, next: nat, outcomes: seq<Outcome>, i: nat)
    requires Unset(queries) && i < |queries| == |outcomes|
    ensures var qs, o, kind := Number(queries, next).queries, outcomes[i], queries[i].kind;
            var end := Replayed(mode, qs, outcomes, |qs|);
            var k, failed := Ordinal(mode, qs, i), AfterFailure(qs, outcomes, end.sent, i);
            && (IsSent(end.sent, i) <==> (mode.ReadWrite? || kind == Select) && !failed)
            && (mode.ReadWrite? || kind == Select ==>
                  k < |end.results| && end.results[k] == QueryResult(queries[i].sql,
                    if !failed then if o.Accepted? then Succeeded else FailedOnServer
                    else if kind == Commit || kind == Rollback then SkippedEnd else SkippedInside))
  {
    var qs := Number(queries, next).queries;
    KindKept(queries, next, i);
    SkipsIff(mode, queries, next, outcomes, i);
    SentOnTurn(mode, qs, outcomes, i, |qs|);
    if mode.ShouldReplay(qs[i]) { ResultOnTurn(mode, qs, outcomes, i); }
  }

  // ---- Statements sent into a failed transaction ----

  ghost predicate NoneIntoFailed(sent: seq<Sent>) {
    forall p :: 0 <= p < |sent| ==> !(sent[p].Statement? && sent[p].before.Failed?)
  }

  // What the texts of transaction-control statements can do: open the next transaction at once, or be
  // refused inside a transaction and leave it failed (COMMIT PREPARED; BEGIN with an isolation level
  // after the first query; anything misspelt).
  datatype Traits = Traits(chains: string -> bool, canFail: string -> bool)

  predicate LegalOutcome(traits: Traits, q: Query, o: Outcome) {
    match o
    case Accepted(ends) => q.kind.EndsTransaction() ==> (ends <==> !traits.chains(q.sql))
    case Refused(ends) =>
      q.kind.IsTransactionControl() ==> traits.canFail(q.sql) || (ends && q.kind.EndsTransaction())
  }

  predicate Legal(traits: Traits, queries: seq<Query>, outcomes: seq<Outcome>) {
    |outcomes| == |queries| && forall i :: 0 <= i < |queries| ==> LegalOutcome(traits, queries[i], outcomes[i])
  }

  // Whether the captured statements leave a transaction open, if each is accepted.
  predicate Open(traits: Traits, queries: seq<Query>) {
    if queries == [] then false
    else
      var q, before := queries[|queries| - 1], Open(traits, queries[..|queries| - 1]);
      q.kind.Begin? || (before && (q.kind.EndsTransaction() ==> traits.chains(q.sql)))
  }

  // If the statement fails its transaction, the replay does not roll it back.
  predicate Unguarded(traits: Traits, q: Query) {
    if q.kind.IsTransactionControl() then traits.canFail(q.sql) else q.txn.None?
  }

  predicate RiskyAt(traits: Traits, queries: seq<Query>, next: nat, i: nat)
    requires i < |queries|
  {
    Open(traits, queries[..i]) && Unguarded(traits, Number(queries, next).queries[i])
  }

  // An unguarded statement in an open transaction is followed by another one.
  predicate Risky(traits: Traits, queries: seq<Query>, next: nat) {
    exists i :: 0 <= i < |queries| - 1 && RiskyAt(traits, queries, next, i)
  }

  predicate RiskyBelow(traits: Traits, queries: seq<Query>, next: nat, n: nat)
    requires n <= |queries|
  {
    exists i :: 0 <= i < n - 1 && RiskyAt(traits, queries, next, i)
  }

  // Before query n: if nothing risky came so far, the server is in a failed transaction only if the
  // statement just before was an unguarded one.
  ghost predicate InStep(mode: Mode, traits: Traits, queries: seq<Query>, next: nat, s: State, n: nat)
    requires n <= |queries|
  {
    || (mode.ReadWrite? && RiskyBelow(traits, queries, next, n))
    || (&& NoneIntoFailed(s.sent)
        && (s.failed.Some? ==> s.server.Idle?)
        && (!s.server.Idle? ==> mode.ReadWrite?)
        && (s.server.InTransaction? ==> Open(traits, queries[..n]))
        && (s.server.Failed? ==> n > 0 && RiskyAt(traits, queries, next, n - 1)))
  }

  lemma OpenNext(traits: Traits, queries: seq<Query>, n: nat)
    requires n < |queries|
    ensures Open(traits, queries[..n + 1])
       <==> queries[n].kind.Begin?
            || (Open(traits, queries[..n]) && (queries[n].kind.EndsTransaction() ==> traits.chains(queries[n].sql)))
  {
    assert queries[..n + 1][..n] == queries[..n];
  }

  // The state after a statement that is sent in good order.
  lemma SendInStep(mode: Mode, traits: Traits, queries: seq<Query>, next: nat, s: State, n: nat, q: Query, o: Outcome)
    requires n < |queries| && q == Number(queries, next).queries[n] && LegalOutcome(traits, q, o)
    requires q.kind == queries[n].kind && q.sql == queries[n].sql
    requires NoneIntoFailed(s.sent) && !s.server.Failed? && mode.ShouldReplay(q)
    requires !s.server.Idle? ==> mode.ReadWrite? && Open(traits, queries[..n])
    requires s.failed.Some? ==> q.txn != s.failed
    ensures InStep(mode, traits, queries, next, Turn(mode, s, n, q, o), n + 1)
  {
    OpenNext(traits, queries, n);
  }

  lemma {:induction false} InStepAlways(mode: Mode, traits: Traits, queries: seq<Query>, next: nat,
                                        outcomes: seq<Outcome>, n: nat)
    requires Unset(queries) && Legal(traits, queries, outcomes) && n <= |queries|
    ensures InStep(mode, traits, queries, next, Replayed(mode, Number(queries, next).queries, outcomes, n), n)
  {
    if n == 0 {
    } else {
      var i, qs := n - 1, Number(queries, next).queries;
      var s := Replayed(mode, qs, outcomes, i);
      InStepAlways(mode, traits, queries, next, outcomes, i);
      KindKept(queries, next, i);
      assert LegalOutcome(traits, queries[i], outcomes[i]);
      if mode.ReadWrite? && RiskyBelow(traits, queries, next, i) {
        var k :| 0 <= k < i - 1 && RiskyAt(traits, queries, next, k);
      } else if s.server.Failed? {
        assert RiskyAt(traits, queries, next, i - 1);
      } else if mode.ShouldReplay(qs[i]) && !(s.failed.Some? && qs[i].txn == s.failed) {
        SendInStep(mode, traits, queries, next, s, i, qs[i], outcomes[i]);
      } else {
        StayInStep(mode, traits, queries, next, s, i, qs[i], outcomes[i]);
      }
    }
  }

  // A statement that is not sent leaves the server alone.
  lemma StayInStep(mode: Mode, traits: Traits, queries: seq<Query>, next: nat, s: State, n: nat, q: Query, o: Outcome)
    requires n < |queries| && !s.server.Failed? && InStep(mode, traits, queries, next, s, n)
    requires !(mode.ReadWrite? && RiskyBelow(traits, queries, next, n))
    requires !mode.ShouldReplay(q) || (s.failed.Some? && q.txn == s.failed)
    ensures InStep(mode, traits, queries, next, Turn(mode, s, n, q, o), n + 1)
  {
  }

  // ---- and the outcomes that do it ----

  function AcceptedBy(traits: Traits, q: Query): Outcome {
    Accepted(q.kind.EndsTransaction() && !traits.chains(q.sql))
  }

  // Everything is accepted but query i.
  function OnlyRefused(traits: Traits, queries: seq<Query>, i: nat): (outcomes: seq<Outcome>)
    ensures |outcomes| == |queries|
  {
    seq(|queries|, k requires 0 <= k < |queries| => if k == i then Refused(false) else AcceptedBy(traits, queries[k]))
  }

  lemma {:induction false} AcceptedSoFar(traits: Traits, queries: seq<Query>, next: nat, i: nat, n: nat)
    requires n <= i < |queries|
    ensures var s := Replayed(ReadWrite, Number(queries, next).queries, OnlyRefused(traits, queries, i), n);
            s.failed.None? && s.server == if Open(traits, queries[..n]) then InTransaction else Idle
  {
    if n == 0 {
    } else {
      AcceptedSoFar(traits, queries, next, i, n - 1);
      KindKept(queries, next, n - 1);
      OpenNext(traits, queries, n - 1);
    }
  }

  lemma {:induction false} SentStays(mode: Mode, queries: seq<Query>, outcomes: seq<Outcome>, n: nat, m: nat)
    requires n <= m <= |queries| && |queries| == |outcomes|
    ensures Replayed(mode, queries, outcomes, n).sent <= Replayed(mode, queries, outcomes, m).sent
  {
    if n < m { SentStays(mode, queries, outcomes, n, m - 1); }
  }

  lemma ReplayedNext(mode: Mode, queries: seq<Query>, outcomes: seq<Outcome>, n: nat)
    requires n < |queries| == |outcomes|
    ensures Replayed(mode, queries, outcomes, n + 1)
         == Turn(mode, Replayed(mode, queries, outcomes, n), n, queries[n], outcomes[n])
  {
  }

  // Refusing an unguarded statement in an open transaction leaves it failed, and the next one is sent.
  lemma UnguardedTurns(s: State, n: nat, q: Query, after: Query, o: Outcome)
    requires s.failed.None? && s.server.InTransaction? && (q.kind.IsTransactionControl() || q.txn.None?)
    ensures var failed := Turn(ReadWrite, s, n, q, Refused(false));
            && |failed.sent| == |s.sent| + 1
            && Turn(ReadWrite, failed, n + 1, after, o).sent[..|s.sent| + 2] == failed.sent + [Statement(n + 1, Failed)]
  {
  }

  /** With these outcomes the statement after a risky one is sent into a failed transaction. */
  lemma RiskComesTrue(traits: Traits, queries: seq<Query>, next: nat, i: nat)
    requires Unset(queries) && i + 1 < |queries| && RiskyAt(traits, queries, next, i)
    ensures Legal(traits, queries, OnlyRefused(traits, queries, i))
    ensures Statement(i + 1, Failed)
         in Replayed(ReadWrite, Number(queries, next).queries, OnlyRefused(traits, queries, i), |queries|).sent
  {
    var qs, outcomes := Number(queries, next).queries, OnlyRefused(traits, queries, i);
    AcceptedSoFar(traits, queries, next, i, i);
    KindKept(queries, next, i);
    var s := Replayed(ReadWrite, qs, outcomes, i);
    ReplayedNext(ReadWrite, qs, outcomes, i);
    ReplayedNext(ReadWrite, qs, outcomes, i + 1);
    UnguardedTurns(s, i, qs[i], qs[i + 1], outcomes[i + 1]);
    SentStays(ReadWrite, qs, outcomes, i + 2, |queries|);
    var p := |s.sent| + 1;
    assert Replayed(ReadWrite, qs, outcomes, i + 2).sent[..p + 1][p] == Statement(i + 1, Failed);
    assert Replayed(ReadWrite, qs, outcomes, |queries|).sent[p] == Statement(i + 1, Failed);
  }

  ghost predicate SendsIntoFailed(mode: Mode, traits: Traits, queries: seq<Query>, next: nat, outcomes: seq<Outcome>) {
    && Legal(traits, queries, outcomes)
    && !NoneIntoFailed(Replayed(mode, Number(queries, next).queries, outcomes, |queries|).sent)
  }

  /** Some server outcomes make the replay of a session send a statement into a failed transaction exactly
      if it replays writes and, in the captured session, a statement that the replay would not roll back
      (a transaction-control statement that can fail, or one without a transaction number) stands in an open
      transaction and is not the last. */
  lemma NeverIntoFailedIff(mode: Mode, traits: Traits, queries: seq<Query>, next: nat)
    requires Unset(queries)
    ensures (forall outcomes :: !SendsIntoFailed(mode, traits, queries, next, outcomes))
       <==> !(mode.ReadWrite? && Risky(traits, queries, next))
  {
    if mode.ReadWrite? && Risky(traits, queries, next) {
      var i :| 0 <= i < |queries| - 1 && RiskyAt(traits, queries, next, i);
      RiskComesTrue(traits, queries, next, i);
      assert SendsIntoFailed(mode, traits, queries, next, OnlyRefused(traits, queries, i));
    } else {
      forall outcomes ensures !SendsIntoFailed(mode, traits, queries, next, outcomes) {
        if Legal(traits, queries, outcomes) {
          InStepAlways(mode, traits, queries, next, outcomes, |queries|);
        }
      }
    }
  }

  // Without AND CHAIN the numbering has a transaction open exactly while the server may have one.
  lemma {:induction false} OpenIsNumbered(traits: Traits, queries: seq<Query>, next: nat)
    requires forall i :: 0 <= i < |queries| && queries[i].kind.EndsTransaction() ==> !traits.chains(queries[i].sql)
    ensures Open(traits, queries) <==> Number(queries, next).current.Some?
  {
    if queries == [] {
    } else {
      OpenIsNumbered(traits, queries[..|queries| - 1], next);
    }
  }

  // A transaction-control statement that can fail comes while the numbering has a transaction open.
  predicate LooseControl(traits: Traits, queries: seq<Query>, next: nat, i: nat)
    requires i < |queries|
  {
    && Number(queries[..i], next).current.Some?
    && queries[i].kind.IsTransactionControl() && traits.canFail(queries[i].sql)
  }

  lemma RiskyIsLoose(traits: Traits, queries: seq<Query>, next: nat, i: nat)
    requires i < |queries|
    requires forall i :: 0 <= i < |queries| && queries[i].kind.EndsTransaction() ==> !traits.chains(queries[i].sql)
    ensures RiskyAt(traits, queries, next, i) <==> LooseControl(traits, queries, next, i)
  {
    OpenIsNumbered(traits, queries[..i], next);
    KindKept(queries, next, i);
    NumberAt(queries, next, i);
    assert Number(queries, next).queries[i] == Number(queries[..i + 1], next).queries[i];
  }

  /** In a session without AND CHAIN, the numbering alone shows it: some outcomes send a statement into a
      failed transaction exactly if writes are replayed and a transaction-control statement that can fail
      comes inside a numbered transaction and is not the last. */
  lemma NeverIntoFailedUnchained(mode: Mode, traits: Traits, queries: seq<Query>, next: nat)
    requires Unset(queries)
    requires forall i :: 0 <= i < |queries| && queries[i].kind.EndsTransaction() ==> !traits.chains(queries[i].sql)
    ensures (forall outcomes :: !SendsIntoFailed(mode, traits, queries, next, outcomes))
       <==> !(mode.ReadWrite? && exists i :: 0 <= i < |queries| - 1 && LooseControl(traits, queries, next, i))
  {
    hide SendsIntoFailed, RiskyAt, LooseControl;
    NeverIntoFailedIff(mode, traits, queries, next);
    forall i | 0 <= i < |queries| - 1
      ensures RiskyAt(traits, queries, next, i) <==> LooseControl(traits, queries, next, i)
    {
      RiskyIsLoose(traits, queries, next, i);
    }
  }

  // BEGIN, a transaction-control statement that is refused, and another statement.
  function Sample(kind: QueryKind, sql: string): seq<Query> {
    [Query("BEGIN", Begin, None), Query(sql, kind, None), Query("SELECT 1", Select, None)]
  }

  /** For example a refused COMMIT PREPARED, or a BEGIN refused inside a transaction. */
  lemma RefusedControlRun(kind: QueryKind, sql: string)
    requires kind.IsTransactionControl()
    ensures Replayed(ReadWrite, Number(Sample(kind, sql), 1).queries,
                     [Accepted(false), Refused(false), Accepted(false)], 3).sent
         == [Statement(0, Idle), Statement(1, InTransaction), Statement(2, Failed)]
  {
    var queries, outcomes := Sample(kind, sql), [Accepted(false), Refused(false), Accepted(false)];
    var qs := Number(queries, 1).queries;
    KindKept(queries, 1, 0);
    KindKept(queries, 1, 1);
    KindKept(queries, 1, 2);
    assert Replayed(ReadWrite, qs, outcomes, 0) == INITIAL;
    ReplayedNext(ReadWrite, qs, outcomes, 0);
    ReplayedNext(ReadWrite, qs, outcomes, 1);
    ReplayedNext(ReadWrite, qs, outcomes, 2);
    var s1 := Replayed(ReadWrite, qs, outcomes, 1);
    assert s1.server == InTransaction && s1.sent == [Statement(0, Idle)] && s1.failed.None?;
    var s2 := Replayed(ReadWrite, qs, outcomes, 2);
    assert s2.server == Failed && s2.sent == [Statement(0, Idle), Statement(1, InTransaction)] && s2.failed.None?;
  }
}
