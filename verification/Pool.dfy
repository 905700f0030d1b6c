/** The pool of server connections (src/proxy/pool.rs). Every critical section under the lock is one
    step; connecting happens outside the lock. */
module Pool {
  import opened Wrappers

  // Instants are nanoseconds of a clock.
  const NANOS: nat := 1_000_000_000

  datatype ServerConn = ServerConn(id: nat, createdAt: nat, idleSince: Option<nat>)

  // Zero stands for no limit on the lifetime and for no idle timeout.
  datatype Config = Config(maxSize: nat, lifetimeSecs: nat, idleTimeoutSecs: nat)

  // `outstanding` are the connections that clients hold, `connecting` the ids of slots for which
  // a connection is being opened, and `leaked` counts the slots that nobody gives back: the opening
  // failed, or the session ended with an error before it came to discard its connection.
  datatype State = State(
    idle: seq<ServerConn>, activeCount: nat, nextId: nat,
    outstanding: set<ServerConn>, connecting: set<nat>, leaked: nat)

  const INITIAL: State := State([], 0, 1, {}, {}, 0)

  datatype Action =
    | Checkout(now: nat)
    | Connected(id: nat, now: nat)
    | ConnectFailed(id: nat)
    | Abandoned(conn: ServerConn)
    | Checkin(conn: ServerConn, now: nat)
    | Discard(conn: ServerConn)
    | ReapIdle(now: nat)

  datatype Grant = Reused(conn: ServerConn) | Opening(id: nat) | Refused

  function ElapsedSecs(since: nat, now: nat): nat {
    if now < since then 0 else (now - since) / NANOS
  }

  predicate LifetimeOver(conn: ServerConn, now: nat, cfg: Config) {
    cfg.lifetimeSecs > 0 && ElapsedSecs(conn.createdAt, now) >= cfg.lifetimeSecs
  }

  predicate IdleTooLong(conn: ServerConn, now: nat, cfg: Config) {
    cfg.idleTimeoutSecs > 0 && conn.idleSince.Some? && ElapsedSecs(conn.idleSince.value, now) >= cfg.idleTimeoutSecs
  }

  predicate Expired(conn: ServerConn, now: nat, cfg: Config) {
    LifetimeOver(conn, now, cfg) || IdleTooLong(conn, now, cfg)
  }

  // The same in nanoseconds: the connection was opened that many seconds ago or more, or has not been used for
  // that many.
  predicate Outlived(conn: ServerConn, now: nat, cfg: Config) {
    cfg.lifetimeSecs > 0 && conn.createdAt + cfg.lifetimeSecs * 1_000_000_000 <= now
  }

  predicate Unused(conn: ServerConn, now: nat, cfg: Config) {
    && cfg.idleTimeoutSecs > 0 && conn.idleSince.Some?
    && conn.idleSince.value + cfg.idleTimeoutSecs * 1_000_000_000 <= now
  }

  predicate Stale(conn: ServerConn, now: nat, cfg: Config) {
    Outlived(conn, now, cfg) || Unused(conn, now, cfg)
  }

  lemma ElapsedReaches(since: nat, now: nat, secs: nat)
    requires secs > 0
    ensures ElapsedSecs(since, now) >= secs <==> since + secs * 1_000_000_000 <= now
  {
    if now >= since {
      var d := now - since;
      assert d == d / NANOS * NANOS + d % NANOS;
      if d / NANOS >= secs { assert d / NANOS * NANOS >= secs * NANOS; }
      if d / NANOS < secs { assert (d / NANOS + 1) * NANOS <= secs * NANOS; }
    }
  }

  lemma ExpiredIsStale(conn: ServerConn, now: nat, cfg: Config)
    ensures LifetimeOver(conn, now, cfg) <==> Outlived(conn, now, cfg)
    ensures IdleTooLong(conn, now, cfg) <==> Unused(conn, now, cfg)
    ensures Expired(conn, now, cfg) <==> Stale(conn, now, cfg)
  {
    if cfg.lifetimeSecs > 0 { ElapsedReaches(conn.createdAt, now, cfg.lifetimeSecs); }
    if cfg.idleTimeoutSecs > 0 && conn.idleSince.Some? {
      ElapsedReaches(conn.idleSince.value, now, cfg.idleTimeoutSecs);
    }
  }

  // How many connections at the front of the queue are expired.
  function ExpiredRun(idle: seq<ServerConn>, now: nat, cfg: Config): (n: nat)
    ensures n <= |idle|
    ensures forall i :: 0 <= i < n ==> Expired(idle[i], now, cfg)
    ensures n < |idle| ==> !Expired(idle[n], now, cfg)
  {
    if idle == [] || !Expired(idle[0], now, cfg) then 0 else 1 + ExpiredRun(idle[1..], now, cfg)
  }

  lemma {:induction false} ExpiredRunIs(idle: seq<ServerConn>, n: nat, now: nat, cfg: Config)
    requires n <= |idle| && forall i :: 0 <= i < n ==> Expired(idle[i], now, cfg)
    requires n < |idle| ==> !Expired(idle[n], now, cfg)
    ensures ExpiredRun(idle, now, cfg) == n
  {
    if n == 0 {
    } else {
      ExpiredRunIs(idle[1..], n - 1, now, cfg);
    }
  }

  function Decrement(n: nat): nat {
    if n == 0 then 0 else n - 1
  }

  function Fresh(idle: seq<ServerConn>, now: nat, cfg: Config): seq<ServerConn> {
    if idle == [] then []
    else (if IdleTooLong(idle[0], now, cfg) then [] else [idle[0]]) + Fresh(idle[1..], now, cfg)
  }

  lemma FreshNext(kept: seq<ServerConn>, idle: seq<ServerConn>, i: nat, now: nat, cfg: Config)
    requires i < |idle|
    ensures kept + Fresh(idle[i..], now, cfg)
         == (if IdleTooLong(idle[i], now, cfg) then kept else kept + [idle[i]]) + Fresh(idle[i + 1..], now, cfg)
  {
    assert idle[i..][1..] == idle[i + 1..];
  }

  function CheckoutStep(s: State, now: nat, cfg: Config): (State, Grant) {
    var n := ExpiredRun(s.idle, now, cfg);
    if n < |s.idle| then
      var conn := s.idle[n].(idleSince := None);
      (s.(idle := s.idle[n + 1..], activeCount := s.activeCount + 1, outstanding := s.outstanding + {conn}),
       Reused(conn))
    else if s.activeCount < cfg.maxSize then
      (s.(idle := [], activeCount := s.activeCount + 1, nextId := s.nextId + 1,
          connecting := s.connecting + {s.nextId}),
       Opening(s.nextId))
    else (s.(idle := []), Refused)
  }

  // The first n connections of a queue are stale and, if there are more, the next one is not.
  predicate StaleFront(idle: seq<ServerConn>, n: nat, now: nat, cfg: Config) {
    && n <= |idle| && (forall i :: 0 <= i < n ==> Stale(idle[i], now, cfg))
    && (n < |idle| ==> !Stale(idle[n], now, cfg))
  }

  // What a checkout does: it hands out the first connection that is not stale and keeps those behind it;
  // without one, it reserves a slot under the next id, or refuses if the counter has reached the size.
  ghost predicate Grants(s: State, now: nat, cfg: Config, s': State, grant: Grant) {
    match grant
    case Reused(conn) =>
      (exists n: nat ::
         && StaleFront(s.idle, n, now, cfg) && n < |s.idle| && conn == s.idle[n].(idleSince := None)
         && s' == s.(idle := s.idle[n + 1..], activeCount := s.activeCount + 1, outstanding := s.outstanding + {conn}))
    case Opening(id) =>
      && StaleFront(s.idle, |s.idle|, now, cfg) && id == s.nextId && s.activeCount < cfg.maxSize
      && s' == s.(idle := [], activeCount := s.activeCount + 1, nextId := id + 1, connecting := s.connecting + {id})
    case Refused =>
      StaleFront(s.idle, |s.idle|, now, cfg) && s.activeCount >= cfg.maxSize && s' == s.(idle := [])
  }

  lemma CheckoutIs(s: State, now: nat, cfg: Config)
    ensures var (s', grant) := CheckoutStep(s, now, cfg); Grants(s, now, cfg, s', grant)
  {
    hide Expired, Stale;
    forall c ensures Expired(c, now, cfg) <==> Stale(c, now, cfg) { ExpiredIsStale(c, now, cfg); }
    assert StaleFront(s.idle, ExpiredRun(s.idle, now, cfg), now, cfg);
  }

  // The caller's part: what is opened was reserved, and each connection is returned once by its holder.
  predicate Legal(s: State, a: Action) {
    match a
    case Connected(id, _) => id in s.connecting
    case ConnectFailed(id) => id in s.connecting
    case Abandoned(conn) => conn in s.outstanding
    case Checkin(conn, _) => conn in s.outstanding
    case Discard(conn) => conn in s.outstanding
    case _ => true
  }

  function Step(s: State, a: Action, cfg: Config): State {
    match a
    case Checkout(now) => CheckoutStep(s, now, cfg).0
    case Connected(id, now) =>
      s.(connecting := s.connecting - {id}, outstanding := s.outstanding + {ServerConn(id, now, None)})
    case ConnectFailed(id) => s.(connecting := s.connecting - {id}, leaked := s.leaked + 1)
    case Abandoned(conn) => s.(outstanding := s.outstanding - {conn}, leaked := s.leaked + 1)
    case Checkin(conn, now) =>
      var returned := s.(outstanding := s.outstanding - {conn}, activeCount := Decrement(s.activeCount));
      if LifetimeOver(conn, now, cfg) then returned
      else returned.(idle := s.idle + [conn.(idleSince := Some(now))])
    case Discard(conn) => s.(outstanding := s.outstanding - {conn}, activeCount := Decrement(s.activeCount))
    case ReapIdle(now) => if cfg.idleTimeoutSecs == 0 then s else s.(idle := Fresh(s.idle, now, cfg))
  }

  // ---- the pool ----

  class SessionPool {
    const cfg: Config
    var idle: seq<ServerConn>
    var activeCount: nat
    var nextId: nat
    ghost var outstanding: set<ServerConn>
    ghost var connecting: set<nat>
    ghost var leaked: nat

    ghost function View(): State
      reads this
    {
      State(idle, activeCount, nextId, outstanding, connecting, leaked)
    }

    constructor (cfg: Config)
      ensures this.cfg == cfg && View() == INITIAL
    {
      this.cfg := cfg;
      idle, activeCount, nextId, outstanding, connecting, leaked := [], 0, 1, {}, {}, 0;
    }

    /** The critical section of `checkout`; it is run again when a connection is returned. */
    method TryCheckout(now: nat) returns (grant: Grant)
      modifies this
      ensures (View(), grant) == CheckoutStep(old(View()), now, cfg)
      ensures Grants(old(View()), now, cfg, View(), grant)
    {
      CheckoutIs(View(), now, cfg);
      hide Grants;
      ghost var was, popped := idle, 0;
      while idle != []
        invariant 0 <= popped <= |was| && idle == was[popped..]
        invariant forall i :: 0 <= i < popped ==> Expired(was[i], now, cfg)
        invariant View() == old(View()).(idle := idle)
        decreases |idle|
      {
        var conn := idle[0];
        idle := idle[1..];
        assert conn == was[popped];
        popped := popped + 1;
        if cfg.lifetimeSecs > 0 && ElapsedSecs(conn.createdAt, now) >= cfg.lifetimeSecs { continue; }
        if cfg.idleTimeoutSecs > 0 && conn.idleSince.Some? {
          if ElapsedSecs(conn.idleSince.value, now) >= cfg.idleTimeoutSecs { continue; }
        }
        ExpiredRunIs(was, popped - 1, now, cfg);
        conn := conn.(idleSince := None);
        activeCount := activeCount + 1;
        outstanding := outstanding + {conn};
        return Reused(conn);
      }
      ExpiredRunIs(was, popped, now, cfg);
      if activeCount + |idle| < cfg.maxSize {
        var id := nextId;
        nextId := nextId + 1;
        activeCount := activeCount + 1;
        connecting := connecting + {id};
        return Opening(id);
      }
      return Refused;
    }

    /** The rest of `checkout` once the connection is open. */
    method FinishConnect(id: nat, now: nat) returns (conn: ServerConn)
      requires id in connecting
      modifies this
      ensures View() == Step(old(View()), Connected(id, now), cfg)
      ensures conn == ServerConn(id, now, None)
    {
      conn := ServerConn(id, now, None);
      connecting := connecting - {id};
      outstanding := outstanding + {conn};
    }

    /** `checkout` gives up because the connection could not be opened. */
    method FailConnect(id: nat)
      requires id in connecting
      modifies this
      ensures View() == Step(old(View()), ConnectFailed(id), cfg)
    {
      connecting := connecting - {id};
      leaked := leaked + 1;
    }

    /** A session drops its connection without telling the pool. */
    method Abandon(ghost conn: ServerConn)
      requires conn in outstanding
      modifies this
      ensures View() == Step(old(View()), Abandoned(conn), cfg)
    {
      outstanding := outstanding - {conn};
      leaked := leaked + 1;
    }

    method CheckIn(conn: ServerConn, now: nat)
      requires conn in outstanding
      modifies this
      ensures View() == Step(old(View()), Checkin(conn, now), cfg)
      ensures activeCount == (if old(activeCount) == 0 then 0 else old(activeCount) - 1)
      ensures idle == if Outlived(conn, now, cfg) then old(idle) else old(idle) + [conn.(idleSince := Some(now))]
    {
      ExpiredIsStale(conn, now, cfg);
      outstanding := outstanding - {conn};
      if cfg.lifetimeSecs > 0 && ElapsedSecs(conn.createdAt, now) >= cfg.lifetimeSecs {
        activeCount := Decrement(activeCount);
        return;
      }
      activeCount := Decrement(activeCount);
      idle := idle + [conn.(idleSince := Some(now))];
    }

    method DiscardOne(ghost conn: ServerConn)
      requires conn in outstanding
      modifies this
      ensures View() == Step(old(View()), Discard(conn), cfg)
    {
      outstanding := outstanding - {conn};
      activeCount := Decrement(activeCount);
    }

    method Reap(now: nat) returns (reaped: nat)
      modifies this
      ensures View() == Step(old(View()), ReapIdle(now), cfg)
      ensures reaped == |old(idle)| - |idle|
      ensures exists at :: Thinned(idle, old(idle), at)
      ensures forall c :: c in idle <==> c in old(idle) && !Unused(c, now, cfg)
    {
      hide Thinned, Unused, IdleTooLong;
      FreshLaw(idle, now, cfg);
      if cfg.idleTimeoutSecs == 0 { return 0; }
      var kept: seq<ServerConn> := [];
      for i := 0 to |idle|
        invariant View() == old(View())
        invariant |kept| <= i && kept + Fresh(idle[i..], now, cfg) == Fresh(idle, now, cfg)
      {
        FreshNext(kept, idle, i, now, cfg);
        if !IdleTooLong(idle[i], now, cfg) { kept := kept + [idle[i]]; }
      }
      assert idle[|idle|..] == [] && kept + [] == kept;
      reaped := |idle| - |kept|;
      assert kept == Fresh(idle, now, cfg);
      idle := kept;
    }
  }

  // ---- what every run keeps ----

  // Every id is in one place only: waiting in the queue, held by a client or being connected.
  ghost predicate IdsOnce(s: State) {
    && (forall i, j :: 0 <= i < j < |s.idle| ==> s.idle[i].id != s.idle[j].id)
    && (forall i, c :: 0 <= i < |s.idle| && c in s.outstanding ==> s.idle[i].id != c.id)
    && (forall c, d :: c in s.outstanding && d in s.outstanding && c.id == d.id ==> c == d)
    && (forall i :: 0 <= i < |s.idle| ==> s.idle[i].id !in s.connecting && s.idle[i].id < s.nextId)
    && (forall c :: c in s.outstanding ==> c.id !in s.connecting && c.id < s.nextId)
    && (forall n :: n in s.connecting ==> n < s.nextId)
  }

  ghost predicate Accounted(s: State, cfg: Config) {
    && s.activeCount == |s.outstanding| + |s.connecting| + s.leaked
    && s.activeCount + |s.idle| <= cfg.maxSize
    && (forall i :: 0 <= i < |s.idle| ==> s.idle[i].idleSince.Some?)
    && (forall c :: c in s.outstanding ==> c.idleSince.None?)
    && IdsOnce(s)
  }

  // A queue with some connections left out, in the same order.
  ghost predicate Thinned(kept: seq<ServerConn>, idle: seq<ServerConn>, at: seq<nat>) {
    && |at| == |kept|
    && (forall i :: 0 <= i < |at| ==> at[i] < |idle| && kept[i] == idle[at[i]])
    && (forall i, j :: 0 <= i < j < |at| ==> at[i] < at[j])
  }

  lemma {:induction false} ReapedAre(idle: seq<ServerConn>, now: nat, cfg: Config)
    ensures forall c :: c in Fresh(idle, now, cfg) <==> c in idle && !Unused(c, now, cfg)
  {
    if idle == [] {
    } else {
      hide IdleTooLong, Unused;
      ExpiredIsStale(idle[0], now, cfg);
      ReapedAre(idle[1..], now, cfg);
      assert idle == [idle[0]] + idle[1..];
    }
  }

  // What stays: what is not unused for too long, in the old order.
  lemma FreshLaw(idle: seq<ServerConn>, now: nat, cfg: Config)
    ensures exists at :: Thinned(Fresh(idle, now, cfg), idle, at)
    ensures forall c :: c in Fresh(idle, now, cfg) <==> c in idle && !Unused(c, now, cfg)
    ensures cfg.idleTimeoutSecs == 0 ==> Fresh(idle, now, cfg) == idle
  {
    ReapedAre(idle, now, cfg);
    var at := FreshIsThinned(idle, now, cfg);
    if cfg.idleTimeoutSecs == 0 { NoTimeoutKeeps(idle, now, cfg); }
  }

  lemma NoTimeoutKeeps(idle: seq<ServerConn>, now: nat, cfg: Config)
    requires cfg.idleTimeoutSecs == 0
    ensures Fresh(idle, now, cfg) == idle
  {
    if idle != [] { NoTimeoutKeeps(idle[1..], now, cfg); }
  }

  lemma {:induction false} FreshIsThinned(idle: seq<ServerConn>, now: nat, cfg: Config) returns (at: seq<nat>)
    ensures Thinned(Fresh(idle, now, cfg), idle, at)
    ensures |Fresh(idle, now, cfg)| <= |idle|
  {
    hide IdleTooLong;
    if idle == [] {
      at := [];
    } else {
      var rest := FreshIsThinned(idle[1..], now, cfg);
      var shifted := seq(|rest|, i requires 0 <= i < |rest| => rest[i] + 1);
      at := (if IdleTooLong(idle[0], now, cfg) then [] else [0]) + shifted;
    }
  }

  lemma ReuseKeepsAccounts(s: State, n: nat, cfg: Config)
    requires Accounted(s, cfg) && n < |s.idle|
    ensures Accounted(s.(idle := s.idle[n + 1..], activeCount := s.activeCount + 1,
                         outstanding := s.outstanding + {s.idle[n].(idleSince := None)}), cfg)
  {
    var conn := s.idle[n].(idleSince := None);
    assert conn !in s.outstanding;
    assert |s.outstanding + {conn}| == |s.outstanding| + 1;
  }

  lemma ReserveKeepsAccounts(s: State, cfg: Config)
    requires Accounted(s, cfg) && s.activeCount < cfg.maxSize
    ensures Accounted(s.(idle := [], activeCount := s.activeCount + 1, nextId := s.nextId + 1,
                         connecting := s.connecting + {s.nextId}), cfg)
  {
    assert |s.connecting + {s.nextId}| == |s.connecting| + 1;
  }

  lemma RefusalKeepsAccounts(s: State, cfg: Config)
    requires Accounted(s, cfg)
    ensures Accounted(s.(idle := []), cfg)
  {
  }

  lemma CheckoutKeepsAccounts(s: State, now: nat, cfg: Config)
    requires Accounted(s, cfg)
    ensures Accounted(CheckoutStep(s, now, cfg).0, cfg)
  {
    hide Accounted, ExpiredRun;
    var n := ExpiredRun(s.idle, now, cfg);
    if n < |s.idle| {
      ReuseKeepsAccounts(s, n, cfg);
    } else if s.activeCount < cfg.maxSize {
      ReserveKeepsAccounts(s, cfg);
    } else {
      RefusalKeepsAccounts(s, cfg);
    }
  }

  lemma ReapKeepsAccounts(s: State, now: nat, cfg: Config)
    requires Accounted(s, cfg)
    ensures Accounted(s.(idle := Fresh(s.idle, now, cfg)), cfg)
  {
    var at := FreshIsThinned(s.idle, now, cfg);
  }

  lemma QueueKeepsAccounts(s: State, conn: ServerConn, cfg: Config)
    requires Accounted(s, cfg) && conn.idleSince.Some? && s.activeCount + |s.idle| < cfg.maxSize
    requires conn.id < s.nextId && conn.id !in s.connecting && forall c :: c in s.outstanding ==> c.id != conn.id
    requires forall i :: 0 <= i < |s.idle| ==> s.idle[i].id != conn.id
    ensures Accounted(s.(idle := s.idle + [conn]), cfg)
  {
  }

  lemma CheckinKeepsAccounts(s: State, conn: ServerConn, now: nat, cfg: Config)
    requires Accounted(s, cfg) && conn in s.outstanding
    ensures Accounted(Step(s, Checkin(conn, now), cfg), cfg)
    ensures s.activeCount > 0
  {
    hide LifetimeOver, Accounted;
    DroppedKeepsAccounts(s, conn, cfg);
    HeldIsNowhereElse(s, conn, cfg);
    if !LifetimeOver(conn, now, cfg) {
      QueueKeepsAccounts(Step(s, Discard(conn), cfg), conn.(idleSince := Some(now)), cfg);
    }
  }

  lemma HeldIsNowhereElse(s: State, conn: ServerConn, cfg: Config)
    requires Accounted(s, cfg) && conn in s.outstanding
    ensures var rest := Step(s, Discard(conn), cfg);
            && rest.activeCount + |rest.idle| < cfg.maxSize
            && conn.id < rest.nextId && conn.id !in rest.connecting
            && (forall c :: c in rest.outstanding ==> c.id != conn.id)
            && (forall i :: 0 <= i < |rest.idle| ==> rest.idle[i].id != conn.id)
  {
  }

  lemma ConnectedKeepsAccounts(s: State, id: nat, now: nat, cfg: Config)
    requires Accounted(s, cfg) && id in s.connecting
    ensures Accounted(Step(s, Connected(id, now), cfg), cfg)
  {
    var conn := ServerConn(id, now, None);
    assert conn !in s.outstanding;
    assert |s.connecting - {id}| == |s.connecting| - 1;
    assert |s.outstanding + {conn}| == |s.outstanding| + 1;
  }

  lemma FailedKeepsAccounts(s: State, id: nat, cfg: Config)
    requires Accounted(s, cfg) && id in s.connecting
    ensures Accounted(Step(s, ConnectFailed(id), cfg), cfg)
  {
    assert |s.connecting - {id}| == |s.connecting| - 1;
  }

  lemma DroppedKeepsAccounts(s: State, conn: ServerConn, cfg: Config)
    requires Accounted(s, cfg) && conn in s.outstanding
    ensures Accounted(Step(s, Abandoned(conn), cfg), cfg)
    ensures Accounted(Step(s, Discard(conn), cfg), cfg) && s.activeCount > 0
  {
    assert |s.outstanding - {conn}| == |s.outstanding| - 1;
  }

  /** Every step keeps the accounts, and no subtraction of the counter is cut off at zero. */
  lemma StepKeepsAccounts(s: State, a: Action, cfg: Config)
    requires Accounted(s, cfg) && Legal(s, a)
    ensures Accounted(Step(s, a, cfg), cfg)
    ensures a.Checkin? || a.Discard? ==> s.activeCount > 0
  {
    match a
    case Checkout(now) => CheckoutKeepsAccounts(s, now, cfg);
    case ReapIdle(now) => if cfg.idleTimeoutSecs > 0 { ReapKeepsAccounts(s, now, cfg); }
    case Checkin(conn, now) => CheckinKeepsAccounts(s, conn, now, cfg);
    case Connected(id, now) => ConnectedKeepsAccounts(s, id, now, cfg);
    case ConnectFailed(id) => FailedKeepsAccounts(s, id, cfg);
    case Abandoned(conn) => DroppedKeepsAccounts(s, conn, cfg);
    case Discard(conn) => DroppedKeepsAccounts(s, conn, cfg);
  }

  function Run(actions: seq<Action>, cfg: Config): State {
    if actions == [] then INITIAL else Step(Run(actions[..|actions| - 1], cfg), actions[|actions| - 1], cfg)
  }

  predicate LegalRun(actions: seq<Action>, cfg: Config) {
    actions == [] ||
    (LegalRun(actions[..|actions| - 1], cfg) && Legal(Run(actions[..|actions| - 1], cfg), actions[|actions| - 1]))
  }

  // The slots lost so far.
  function Leaks(actions: seq<Action>): nat {
    if actions == [] then 0
    else
      var last := actions[|actions| - 1];
      Leaks(actions[..|actions| - 1]) + if last.ConnectFailed? || last.Abandoned? then 1 else 0
  }

  /** Over every interleaving the counter is the number of connections held or being opened plus the
      slots lost, the pool never has more than its size, and no connection is in two places. */
  lemma {:induction false} RunsKeepAccounts(actions: seq<Action>, cfg: Config)
    requires LegalRun(actions, cfg)
    ensures var s := Run(actions, cfg);
            && Accounted(s, cfg)
            && s.activeCount == |s.outstanding| + |s.connecting| + Leaks(actions)
            && s.activeCount + |s.idle| <= cfg.maxSize
  {
    if actions == [] {
    } else {
      var before := actions[..|actions| - 1];
      hide IdsOnce;
      RunsKeepAccounts(before, cfg);
      StepKeepsAccounts(Run(before, cfg), actions[|actions| - 1], cfg);
    }
  }

  /** A checkout is refused exactly if every waiting connection is stale and the connections held or
      being opened together with the slots lost fill the pool. What it hands out is the first that is not
      stale, and neither its id nor the id of a new connection is in use. */
  lemma CheckoutGrants(actions: seq<Action>, now: nat, cfg: Config)
    requires LegalRun(actions, cfg)
    ensures var s := Run(actions, cfg);
            var grant := CheckoutStep(s, now, cfg).1;
            && (grant.Refused? <==> && (forall c :: c in s.idle ==> Stale(c, now, cfg))
                                    && |s.outstanding| + |s.connecting| + Leaks(actions) >= cfg.maxSize)
            && (grant.Reused? ==> && (exists n: nat :: StaleFront(s.idle, n, now, cfg) && n < |s.idle|
                                                  && grant.conn == s.idle[n].(idleSince := None))
                                  && !Outlived(grant.conn, now, cfg)
                                  && (forall d :: d in s.outstanding ==> d.id != grant.conn.id)
                                  && grant.conn.id !in s.connecting)
            && (grant.Opening? ==> && (forall d :: d in s.outstanding || d in s.idle ==> d.id != grant.id)
                                   && grant.id !in s.connecting)
  {
    RunsKeepAccounts(actions, cfg);
    var s := Run(actions, cfg);
    CheckoutIs(s, now, cfg);
    hide CheckoutStep, Run;
    assert forall c :: c in s.idle ==> exists i :: 0 <= i < |s.idle| && s.idle[i] == c;
  }

  lemma {:induction false} LeaksGrow(actions: seq<Action>, more: seq<Action>)
    ensures Leaks(actions) <= Leaks(actions + more)
  {
    if more == [] {
      assert actions + more == actions;
    } else {
      LeaksGrow(actions, more[..|more| - 1]);
      assert (actions + more)[..|actions + more| - 1] == actions + more[..|more| - 1];
    }
  }

  /** Lost slots never come back: once they fill the pool, every later checkout is refused. */
  lemma LeaksExhaustThePool(actions: seq<Action>, more: seq<Action>, now: nat, cfg: Config)
    requires LegalRun(actions + more, cfg) && Leaks(actions) >= cfg.maxSize
    ensures CheckoutStep(Run(actions + more, cfg), now, cfg).1 == Refused
  {
    LeaksGrow(actions, more);
    RunsKeepAccounts(actions + more, cfg);
  }
}
