/** The two relay loops of one proxied connection (src/proxy/connection.rs) and the state they
    share: the FIFO of RETURNING flags, the pending columns and rows, and the suppress flag. */
module Relay {
  import opened Wrappers
  import opened CaptureEvents

  const MAX_RETURNING_COLUMNS: nat := 20
  const MAX_RETURNING_ROWS: nat := 100

  // Messages from the server. Other stands for every type the relay passes on untouched
  // (notices, parameter status, EmptyQueryResponse, ...).
  datatype ServerMsg =
    | RowDescription(columns: seq<string>)
    | DataRow(values: seq<Cell>)
    | CommandComplete(tag: string)
    | ErrorResponse(message: string)
    | ReadyForQuery
    | Other(body: string)

  predicate IsRowData(m: ServerMsg) { m.RowDescription? || m.DataRow? }

  predicate IsDone(m: ServerMsg) { m.CommandComplete? || m.ErrorResponse? }

  // Implicit capture (RETURNING injection) and the SQL analyses it relies on.
  datatype Config = Config(
    implicitCapture: bool, stealth: bool,
    isCurrvalOrLastval: string -> bool, injectReturning: string -> Option<string>, hasReturning: string -> bool)

  // How a simple query is treated: the text sent to the server and whether rows are expected.
  datatype Plan = Plan(sent: string, flag: bool, injected: bool, hidden: bool)

  function PlanFor(cfg: Config, sql: string): Plan {
    if cfg.implicitCapture && cfg.isCurrvalOrLastval(sql) then Plan(sql, true, false, false)
    else if cfg.implicitCapture && cfg.injectReturning(sql).Some? then
      Plan(cfg.injectReturning(sql).value, true, true, cfg.stealth)
    else Plan(sql, cfg.hasReturning(sql), false, false)
  }

  // Everything the two loops read and write.
  datatype Shared = Shared(
    queue: seq<bool>, columns: seq<string>, rows: seq<seq<Cell>>, suppress: bool,
    toServer: seq<string>, toClient: seq<ServerMsg>, events: seq<Event>)

  const FRESH: Shared := Shared([], [], [], false, [], [], [])

  predicate Clean(sh: Shared) {
    sh.queue == [] && sh.columns == [] && sh.rows == [] && !sh.suppress
  }

  // Progress of the client-to-server loop through one query. The injected path writes first
  // (Written, Pushed, Armed); the ordinary path writes last (Queued, Announced).
  datatype Pc = Start | Queued | Announced | Written | Pushed | Armed | Done

  // One access of the client-to-server loop to the shared state.
  function ClientMicro(cfg: Config, sid: nat, sh: Shared, sql: string, pc: Pc, at: nat): (Shared, Pc) {
    var plan := PlanFor(cfg, sql);
    match pc
    case Start =>
      if plan.injected then (sh.(toServer := sh.toServer + [plan.sent]), Written)
      else (sh.(queue := sh.queue + [plan.flag]), Queued)
    case Queued => (sh.(events := sh.events + [QueryStart(sid, sql, at)]), Announced)
    case Announced => (sh.(toServer := sh.toServer + [plan.sent]), Done)
    case Written => (sh.(queue := sh.queue + [true]), Pushed)
    case Pushed => (if plan.hidden then sh.(suppress := true) else sh, Armed)
    case Armed => (sh.(events := sh.events + [QueryStart(sid, sql, at)]), Done)
    case Done => (sh, Done)
  }

  function Truncate<T>(s: seq<T>, n: nat): seq<T> {
    if |s| <= n then s else s[..n]
  }

  function Tail<T>(s: seq<T>): seq<T> {
    if s == [] then [] else s[1..]
  }

  predicate FrontIsTrue(queue: seq<bool>) {
    queue != [] && queue[0]
  }

  // The capture part of the server-to-client loop.
  function CaptureReply(sid: nat, sh: Shared, m: ServerMsg, at: nat): Shared {
    match m
    case RowDescription(columns) =>
      if FrontIsTrue(sh.queue) then sh.(columns := Truncate(columns, MAX_RETURNING_COLUMNS), rows := []) else sh
    case DataRow(values) =>
      if sh.columns != [] && |values| == |sh.columns| && |sh.rows| < MAX_RETURNING_ROWS
      then sh.(rows := sh.rows + [values]) else sh
    case CommandComplete(_) =>
      var sh' := sh.(queue := Tail(sh.queue), events := sh.events + [QueryComplete(sid, at)]);
      if FrontIsTrue(sh.queue) then
        sh'.(columns := [], rows := [],
             events := sh'.events + if sh.rows != [] then [QueryReturning(sid, sh.columns, sh.rows)] else [])
      else sh'
    case ErrorResponse(message) =>
      sh.(queue := Tail(sh.queue), columns := [], rows := [], suppress := false,
          events := sh.events + [QueryError(sid, message, at)])
    case _ => sh
  }

  // The forwarding part: row data is withheld while the suppress flag is up.
  function ForwardReply(sh: Shared, m: ServerMsg): Shared {
    if sh.suppress && IsRowData(m) then sh
    else if sh.suppress && m.CommandComplete? then sh.(suppress := false, toClient := sh.toClient + [m])
    else sh.(toClient := sh.toClient + [m])
  }

  function Reply(sid: nat, sh: Shared, m: ServerMsg, at: nat): Shared {
    ForwardReply(CaptureReply(sid, sh, m, at), m)
  }

  // Progress of the server-to-client loop through one message. Columns and rows are its own; the
  // queue, the suppress flag and the event channel are shared, and each access to one is a step.
  datatype Stage =
    | Receive
    | Popping
    | Returning(columns: seq<string>, rows: seq<seq<Cell>>)
    | Clearing
    | Reporting
    | Forward
    | Lowering
    | Relayed

  // One access of the server-to-client loop to the shared state.
  function ServerMicro(sid: nat, sh: Shared, m: ServerMsg, stage: Stage, at: nat): (Shared, Stage) {
    match stage
    case Receive =>
      (match m
       case CommandComplete(_) => (sh.(events := sh.events + [QueryComplete(sid, at)]), Popping)
       case ErrorResponse(_) => (sh.(queue := Tail(sh.queue)), Clearing)
       case _ => (CaptureReply(sid, sh, m, at), Forward))
    case Popping =>
      if !FrontIsTrue(sh.queue) then (sh.(queue := Tail(sh.queue)), Forward)
      else (sh.(queue := Tail(sh.queue), columns := [], rows := []),
            if sh.rows != [] then Returning(sh.columns, sh.rows) else Forward)
    case Returning(columns, rows) => (sh.(events := sh.events + [QueryReturning(sid, columns, rows)]), Forward)
    case Clearing => (sh.(columns := [], rows := [], suppress := false), Reporting)
    case Reporting => (sh.(events := sh.events + ErrorEvent(sid, m, at)), Forward)
    case Forward =>
      if sh.suppress && IsRowData(m) then (sh, Relayed)
      else if sh.suppress && m.CommandComplete? then (sh, Lowering)
      else (sh.(toClient := sh.toClient + [m]), Relayed)
    case Lowering => (sh.(suppress := false, toClient := sh.toClient + [m]), Relayed)
    case Relayed => (sh, Relayed)
  }

  function ErrorEvent(sid: nat, m: ServerMsg, at: nat): seq<Event> {
    if m.ErrorResponse? then [QueryError(sid, m.message, at)] else []
  }

  // Relays the rest of a message at once.
  function FinishReply(sid: nat, sh: Shared, m: ServerMsg, stage: Stage, at: nat): Shared {
    match stage
    case Receive => Reply(sid, sh, m, at)
    case Popping =>
      var popped := sh.(queue := Tail(sh.queue));
      ForwardReply(if !FrontIsTrue(sh.queue) then popped
                   else popped.(columns := [], rows := [],
                                events := sh.events +
                                  if sh.rows != [] then [QueryReturning(sid, sh.columns, sh.rows)] else []),
                   m)
    case Returning(columns, rows) => ForwardReply(sh.(events := sh.events + [QueryReturning(sid, columns, rows)]), m)
    case Clearing =>
      ForwardReply(sh.(columns := [], rows := [], suppress := false, events := sh.events + ErrorEvent(sid, m, at)), m)
    case Reporting => ForwardReply(sh.(events := sh.events + ErrorEvent(sid, m, at)), m)
    case Forward => ForwardReply(sh, m)
    case Lowering => sh.(suppress := false, toClient := sh.toClient + [m])
    case Relayed => sh
  }

  // The stages that a message goes through.
  predicate StageOf(m: ServerMsg, stage: Stage) {
    && (stage.Popping? || stage.Returning? || stage.Lowering? ==> m.CommandComplete?)
    && (stage.Clearing? || stage.Reporting? ==> m.ErrorResponse?)
  }

  // Whether the step sends the event that closes the query.
  predicate Closes(m: ServerMsg, stage: Stage) {
    (stage.Receive? && m.CommandComplete?) || (stage.Reporting? && m.ErrorResponse?)
  }

  /** Relaying a message step by step without interference is relaying it at once. */
  lemma ReplyInSteps(sid: nat, sh: Shared, m: ServerMsg, stage: Stage, at: nat, later: nat)
    requires StageOf(m, stage)
    ensures var (sh', stage') := ServerMicro(sid, sh, m, stage, at);
            && StageOf(m, stage')
            && FinishReply(sid, sh', m, stage', later)
                 == FinishReply(sid, sh, m, stage, if Closes(m, stage) then at else later)
  {
    var (sh', stage') := ServerMicro(sid, sh, m, stage, at);
    assert sh.events + [] == sh.events;
    if stage.Receive? && m.CommandComplete? {
      assert sh'.events + [] == sh'.events;
    }
  }

  /** One proxied connection: the CorrelateState of its two relay loops, and the three streams they
      write to. */
  class Connection {
    const cfg: Config
    const sid: nat
    var returningQueue: seq<bool>
    var pendingColumns: seq<string>
    var pendingRows: seq<seq<Cell>>
    var suppressResponse: bool
    var toServer: seq<string>
    var toClient: seq<ServerMsg>
    var captureTx: seq<Event>

    ghost function View(): Shared
      reads this
    {
      Shared(returningQueue, pendingColumns, pendingRows, suppressResponse, toServer, toClient, captureTx)
    }

    constructor (cfg: Config, sid: nat)
      ensures this.cfg == cfg && this.sid == sid && View() == FRESH
    {
      this.cfg := cfg;
      this.sid := sid;
      returningQueue, pendingColumns, pendingRows, suppressResponse := [], [], [], false;
      toServer, toClient, captureTx := [], [], [];
    }

    /** The client-to-server loop's handling of a simple query when nothing interferes. */
    method RelayQuery(sql: string, at: nat)
      modifies this
      ensures View() == Uninterrupted(cfg, sid, old(View()), sql, at)
      ensures var injects := cfg.implicitCapture && !cfg.isCurrvalOrLastval(sql) && cfg.injectReturning(sql).Some?;
              var expects := (cfg.implicitCapture && cfg.isCurrvalOrLastval(sql)) || injects || cfg.hasReturning(sql);
              && toServer == old(toServer) + [if injects then cfg.injectReturning(sql).value else sql]
              && returningQueue == old(returningQueue) + [expects]
              && suppressResponse == (old(suppressResponse) || (injects && cfg.stealth))
              && captureTx == old(captureTx) + [QueryStart(sid, sql, at)]
      ensures unchanged(`pendingColumns) && unchanged(`pendingRows) && unchanged(`toClient)
    {
      var hasRet: bool;
      if cfg.implicitCapture {
        if cfg.isCurrvalOrLastval(sql) {
          hasRet := true;
        } else {
          var injected := cfg.injectReturning(sql);
          if injected.Some? {
            toServer := toServer + [injected.value];
            returningQueue := returningQueue + [true];
            if cfg.stealth {
              suppressResponse := true;
            }
            captureTx := captureTx + [QueryStart(sid, sql, at)];
            return;
          }
          hasRet := cfg.hasReturning(sql);
        }
      } else {
        hasRet := cfg.hasReturning(sql);
      }
      returningQueue := returningQueue + [hasRet];
      captureTx := captureTx + [QueryStart(sid, sql, at)];
      toServer := toServer + [sql];
    }

    /** The server-to-client loop's handling of one message. */
    method RelayReply(m: ServerMsg, at: nat)
      modifies this
      ensures View() == Reply(sid, old(View()), m, at)
    {
      match m {
        case RowDescription(columns) =>
          if returningQueue != [] && returningQueue[0] {
            pendingColumns := Truncate(columns, MAX_RETURNING_COLUMNS);
            pendingRows := [];
          }
        case DataRow(values) =>
          if pendingColumns != [] {
            if |values| == |pendingColumns| {
              if |pendingRows| < MAX_RETURNING_ROWS {
                pendingRows := pendingRows + [values];
              }
            }
          }
        case CommandComplete(_) =>
          captureTx := captureTx + [QueryComplete(sid, at)];
          var wasReturning := false;
          if returningQueue != [] {
            wasReturning := returningQueue[0];
            returningQueue := returningQueue[1..];
          }
          if wasReturning {
            var columns, rows := pendingColumns, pendingRows;
            pendingColumns, pendingRows := [], [];
            if rows != [] {
              captureTx := captureTx + [QueryReturning(sid, columns, rows)];
            }
          }
        case ErrorResponse(message) =>
          if returningQueue != [] {
            returningQueue := returningQueue[1..];
          }
          pendingColumns, pendingRows := [], [];
          suppressResponse := false;
          captureTx := captureTx + [QueryError(sid, message, at)];
        case _ =>
      }
      var suppress := suppressResponse;
      if suppress && (m.RowDescription? || m.DataRow?) {
        return;
      }
      if suppress && m.CommandComplete? {
        suppressResponse := false;
      }
      toClient := toClient + [m];
    }
  }

  ghost function Finish(cfg: Config, sid: nat, sh: Shared, sql: string, pc: Pc, at: nat): Shared
    decreases match pc case Start => 4 case Queued => 2 case Announced => 1 case Written => 3 case Pushed => 2
              case Armed => 1 case Done => 0
  {
    if pc.Done? then sh
    else var (sh', pc') := ClientMicro(cfg, sid, sh, sql, pc, at); Finish(cfg, sid, sh', sql, pc', at)
  }

  // A query's whole pass through the client-to-server loop without interference.
  ghost function Uninterrupted(cfg: Config, sid: nat, sh: Shared, sql: string, at: nat): Shared {
    Finish(cfg, sid, sh, sql, Start, at)
  }
}
