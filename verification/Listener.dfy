/** The per-address connection counter of the accept loop (src/proxy/listener.rs). The accept loop is
    one task; guards are dropped by other tasks at any time. Each atomic operation is one step. A limit
    of zero switches the counting off; here there is a limit. */
module Listener {
  import opened Wrappers

  type Ip = string

  // `guards` are the connections being served, `rejecting` the address whose count the accept loop
  // has raised in vain and not yet lowered again, and `removing` the guards that have counted down to
  // zero and not yet looked at the entry again.
  datatype State = State(counters: map<Ip, nat>, guards: multiset<Ip>, rejecting: Option<Ip>, removing: multiset<Ip>)

  const INITIAL: State := State(map[], multiset{}, None, multiset{})

  datatype Action = Accept(ip: Ip) | FinishReject | Drop(ip: Ip) | RemoveIfZero(ip: Ip)

  function Count(counters: map<Ip, nat>, ip: Ip): nat {
    if ip in counters then counters[ip] else 0
  }

  // Counting down wraps around below zero, which `Counted` rules out.
  function Lowered(counters: map<Ip, nat>, ip: Ip): map<Ip, nat> {
    if ip !in counters then counters
    else counters[ip := if counters[ip] == 0 then 0xFFFF_FFFF else counters[ip] - 1]
  }

  predicate Legal(s: State, a: Action) {
    match a
    case Accept(_) => s.rejecting.None?
    case FinishReject => s.rejecting.Some?
    case Drop(ip) => ip in s.guards
    case RemoveIfZero(ip) => ip in s.removing
  }

  function Step(s: State, a: Action, limit: nat): State {
    match a
    case Accept(ip) =>
      var current := Count(s.counters, ip) + 1;
      var raised := s.(counters := s.counters[ip := current]);
      if current > limit then raised.(rejecting := Some(ip)) else raised.(guards := s.guards + multiset{ip})
    case FinishReject =>
      if s.rejecting.None? then s
      else s.(counters := Lowered(s.counters, s.rejecting.value), rejecting := None)
    case Drop(ip) =>
      var last := ip in s.counters && s.counters[ip] == 1;
      s.(counters := Lowered(s.counters, ip), guards := s.guards - multiset{ip},
         removing := s.removing + if last then multiset{ip} else multiset{})
    case RemoveIfZero(ip) =>
      s.(counters := if ip in s.counters && s.counters[ip] == 0 then s.counters - {ip} else s.counters,
         removing := s.removing - multiset{ip})
  }

  /** The shared map of counters. */
  class IpConnectionMap {
    const limit: nat
    var counters: map<Ip, nat>
    ghost var guards: multiset<Ip>
    ghost var rejecting: Option<Ip>
    ghost var removing: multiset<Ip>

    ghost function View(): State
      reads this
    {
      State(counters, guards, rejecting, removing)
    }

    constructor (limit: nat)
      requires limit > 0
      ensures this.limit == limit && View() == INITIAL
    {
      this.limit := limit;
      counters, guards, rejecting, removing := map[], multiset{}, None, multiset{};
    }

    /** A connection arrives; the count is raised before it is compared. */
    method AcceptOne(ip: Ip) returns (accepted: bool)
      requires rejecting.None?
      modifies this
      ensures View() == Step(old(View()), Accept(ip), limit)
      ensures accepted <==> rejecting.None?
    {
      if ip !in counters { counters := counters[ip := 0]; }
      counters := counters[ip := counters[ip] + 1];
      assert counters == old(counters)[ip := Count(old(counters), ip) + 1];
      var current := counters[ip];
      accepted := current <= limit;
      if accepted { guards := guards + multiset{ip}; } else { rejecting := Some(ip); }
    }

    /** The count of a rejected connection is lowered again. */
    method LowerRejected(ip: Ip)
      requires rejecting == Some(ip)
      modifies this
      ensures View() == Step(old(View()), FinishReject, limit)
    {
      counters := Lowered(counters, ip);
      rejecting := None;
    }

    /** The first half of dropping a guard. */
    method DropGuard(ip: Ip) returns (mustRemove: bool)
      requires ip in guards
      modifies this
      ensures View() == Step(old(View()), Drop(ip), limit)
      ensures mustRemove <==> ip in old(counters) && old(counters)[ip] == 1
    {
      mustRemove := ip in counters && counters[ip] == 1;
      counters := Lowered(counters, ip);
      guards := guards - multiset{ip};
      if mustRemove { removing := removing + multiset{ip}; }
    }

    /** The second half: the entry goes if it is still zero. */
    method RemoveEntry(ip: Ip)
      requires ip in removing
      modifies this
      ensures View() == Step(old(View()), RemoveIfZero(ip), limit)
    {
      if ip in counters && counters[ip] == 0 { counters := counters - {ip}; }
      removing := removing - multiset{ip};
    }
  }

  // ---- what every run keeps ----

  // Each counter is the number of live guards, plus one while a rejection is under way.
  ghost predicate Counted(s: State, limit: nat) {
    forall ip: Ip :: Count(s.counters, ip) == s.guards[ip] + (if s.rejecting == Some(ip) then 1 else 0)
                     && s.guards[ip] <= limit
  }

  lemma StepKeepsCount(s: State, a: Action, limit: nat)
    requires Counted(s, limit) && Legal(s, a)
    ensures Counted(Step(s, a, limit), limit)
    ensures a.Drop? ==> Count(s.counters, a.ip) > 0
    ensures a.FinishReject? ==> Count(s.counters, s.rejecting.value) > 0
  {
    var s' := Step(s, a, limit);
    forall ip: Ip
      ensures Count(s'.counters, ip) == s'.guards[ip] + (if s'.rejecting == Some(ip) then 1 else 0)
              && s'.guards[ip] <= limit
    {
      assert Count(s.counters, ip) == s.guards[ip] + (if s.rejecting == Some(ip) then 1 else 0);
    }
    match a
    case Drop(ip) => assert Count(s.counters, ip) >= s.guards[ip];
    case FinishReject => assert Count(s.counters, s.rejecting.value) >= 1;
    case _ =>
  }

  function Run(actions: seq<Action>, limit: nat): State {
    if actions == [] then INITIAL else Step(Run(actions[..|actions| - 1], limit), actions[|actions| - 1], limit)
  }

  predicate LegalRun(actions: seq<Action>, limit: nat) {
    actions == [] ||
    (LegalRun(actions[..|actions| - 1], limit) && Legal(Run(actions[..|actions| - 1], limit), actions[|actions| - 1]))
  }

  lemma {:induction false} RunsKeepCount(actions: seq<Action>, limit: nat)
    requires LegalRun(actions, limit)
    ensures Counted(Run(actions, limit), limit)
  {
    if actions == [] {
    } else {
      var before := actions[..|actions| - 1];
      RunsKeepCount(before, limit);
      StepKeepsCount(Run(before, limit), actions[|actions| - 1], limit);
    }
  }

  /** Over every interleaving, no address has more live connections than the limit, an address without
      an entry has none, and a connection is accepted exactly if its address is below the limit. */
  lemma LimitIsKept(actions: seq<Action>, ip: Ip, limit: nat)
    requires LegalRun(actions, limit)
    ensures var s := Run(actions, limit);
            && s.guards[ip] <= limit
            && (ip !in s.counters ==> s.guards[ip] == 0)
            && (s.rejecting.None? ==> (Step(s, Accept(ip), limit).rejecting.None? <==> s.guards[ip] < limit))
  {
    RunsKeepCount(actions, limit);
    var s := Run(actions, limit);
    assert Count(s.counters, ip) == s.guards[ip] + (if s.rejecting == Some(ip) then 1 else 0);
  }

  // ---- entries left behind ----

  // Every entry that has become zero is about to be removed.
  ghost predicate Clean(s: State) {
    forall ip: Ip :: ip in s.counters && s.counters[ip] == 0 ==> ip in s.removing
  }

  // The step ends a rejection for an address that has no guard any more and whose last guard is done.
  predicate LateRejection(s: State, a: Action) {
    a.FinishReject? && s.rejecting.Some? && s.guards[s.rejecting.value] == 0 && s.rejecting.value !in s.removing
  }

  /** Such a step is the only one that leaves an entry of zero behind. */
  lemma CleanUnlessLate(s: State, a: Action, limit: nat)
    requires limit > 0 && Counted(s, limit) && Legal(s, a) && Clean(s)
    ensures Clean(Step(s, a, limit)) <==> !LateRejection(s, a)
  {
    var s' := Step(s, a, limit);
    match a
    case Drop(ip) =>
      assert Count(s.counters, ip) >= s.guards[ip];
    case FinishReject =>
      var ip := s.rejecting.value;
      assert Count(s.counters, ip) == s.guards[ip] + 1;
      assert s'.counters[ip] == s.guards[ip];
    case _ =>
  }

  ghost predicate AlwaysClean(actions: seq<Action>, limit: nat) {
    Clean(Run(actions, limit)) && (actions == [] || AlwaysClean(actions[..|actions| - 1], limit))
  }

  // No rejection ends late.
  predicate Prompt(actions: seq<Action>, limit: nat) {
    actions == [] ||
    (Prompt(actions[..|actions| - 1], limit)
     && !LateRejection(Run(actions[..|actions| - 1], limit), actions[|actions| - 1]))
  }

  /** Over every interleaving: every entry of zero is always about to be removed exactly if no rejection
      ends after the last guard of its address is done. */
  lemma {:induction false} CleanIffPrompt(actions: seq<Action>, limit: nat)
    requires limit > 0 && LegalRun(actions, limit)
    ensures AlwaysClean(actions, limit) <==> Prompt(actions, limit)
  {
    if actions == [] {
    } else {
      var before, a := actions[..|actions| - 1], actions[|actions| - 1];
      CleanIffPrompt(before, limit);
      RunsKeepCount(before, limit);
      if AlwaysClean(before, limit) {
        assert Clean(Run(before, limit)) by { if before == [] { assert Run(before, limit) == INITIAL; } }
        CleanUnlessLate(Run(before, limit), a, limit);
      }
    }
  }

  /** A rejection that ends after the address's last guard leaves one: nobody looks at the entry again. */
  lemma RejectionLeavesEntry(ip: Ip)
    ensures var actions := [Accept(ip), Accept(ip), Drop(ip), FinishReject];
            LegalRun(actions, 1) && Run(actions, 1) == State(map[ip := 0], multiset{}, None, multiset{})
  {
    var s1 := State(map[ip := 1], multiset{ip}, None, multiset{});
    var s2 := State(map[ip := 2], multiset{ip}, Some(ip), multiset{});
    var s3 := State(map[ip := 1], multiset{}, Some(ip), multiset{});
    var s4 := State(map[ip := 0], multiset{}, None, multiset{});
    assert LegalRun([], 1) && Run([], 1) == INITIAL;
    Extend([], Accept(ip), 1, INITIAL, s1);
    Extend([] + [Accept(ip)], Accept(ip), 1, s1, s2);
    Extend([] + [Accept(ip)] + [Accept(ip)], Drop(ip), 1, s2, s3);
    Extend([] + [Accept(ip)] + [Accept(ip)] + [Drop(ip)], FinishReject, 1, s3, s4);
    assert [] + [Accept(ip)] + [Accept(ip)] + [Drop(ip)] + [FinishReject]
        == [Accept(ip), Accept(ip), Drop(ip), FinishReject];
  }

  lemma Extend(actions: seq<Action>, a: Action, limit: nat, s: State, s': State)
    requires LegalRun(actions, limit) && Run(actions, limit) == s && Legal(s, a) && Step(s, a, limit) == s'
    ensures LegalRun(actions + [a], limit) && Run(actions + [a], limit) == s'
  {
    assert (actions + [a])[..|actions|] == actions;
  }
}
