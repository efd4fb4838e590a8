/**
 The replication protocol as a machine of atomic steps: file system threads that broadcast calls under the
 cork lock and wait for acknowledgements, first-in-first-out channels, clients that execute, and control
 threads that cork the server.
 */
module Replication {
  import opened Wrappers

  type Tid = nat
  type ClientId = nat

  datatype Mode = Async | Sync | SemiSync | FlushSync | Control

  /** A call is known by its position in the order in which calls took the cork lock. */
  datatype Call = Call(fsync: bool)

  /** A cork carries the number of calls sent before it. */
  datatype Msg = AsyncOp(call: nat) | SyncOp(call: nat, tid: Tid) | Cork(tid: Tid, at: nat) | Uncork

  /** `Early` is sent before the call is executed, `Ret` carries its return code. */
  datatype Code = Early | Ret

  datatype AckMsg = Ack(call: nat, tid: Tid, code: Code) | AckCork(tid: Tid, at: nat)

  /** What a thread finds in its slot. */
  datatype Reply = Acked(call: nat, code: Code) | Corked(at: nat)

  /** A call that the client has read and not yet executed, and the thread to acknowledge it to. */
  datatype Task = Task(call: nat, ack: Option<Tid>)

  /** Both ends of one connection. `sent` are the calls sent so far; `pool` says that the client executes
      on several threads. */
  datatype Client = Client(
    mode: Mode, pool: bool, alive: bool, joined: nat,
    sent: seq<nat>, channel: seq<Msg>, running: seq<Task>, executed: seq<nat>,
    acks: seq<AckMsg>, slots: map<Tid, Reply>)

  datatype Thread =
    | Idle
    | Sending(call: nat, todo: seq<ClientId>, waits: seq<ClientId>)
    | Waiting(call: nat, waits: seq<ClientId>)
    | CorkSet(epoch: nat, at: nat)
    | Corking(epoch: nat, at: nat, todo: seq<ClientId>, wait: Option<ClientId>, acked: set<ClientId>)

  /** `epoch` counts the uncorks; `list` is the list of connected clients. */
  datatype State = State(
    corked: bool, epoch: nat, lock: Option<Tid>, order: seq<Call>,
    threads: map<Tid, Thread>, list: seq<ClientId>, nextClient: ClientId, clients: map<ClientId, Client>)

  datatype Step =
    | Begin(tid: Tid, fsync: bool)
    | Send(tid: Tid)
    | EndSend(tid: Tid)
    | Consume(tid: Tid)
    | Finish(tid: Tid)
    | SetCork(tid: Tid)
    | CorkList(tid: Tid)
    | CorkSend(tid: Tid)
    | CorkAcked(tid: Tid)
    | CorkDone(tid: Tid)
    | UncorkAll(tid: Tid)
    | Receive(client: ClientId)
    | Execute(client: ClientId, index: nat)
    | Deliver(client: ClientId)
    | Die(client: ClientId)
    | Harvest(client: ClientId)
    | Join(mode: Mode, pool: bool)

  function ThreadOf(s: State, t: Tid): Thread {
    if t in s.threads then s.threads[t] else Idle
  }

  /** The list of clients is not locked for reading. */
  ghost predicate ListFree(s: State) {
    forall t :: !ThreadOf(s, t).Sending? && !ThreadOf(s, t).Corking?
  }

  /** What `pre_op` sends to a client of this mode, if anything. */
  function Message(mode: Mode, fsync: bool, call: nat, tid: Tid): Option<Msg> {
    if mode == Control || (fsync && (mode == Async || mode == SemiSync)) then None
    else if mode == Sync || mode == SemiSync || (mode == FlushSync && fsync) then Some(SyncOp(call, tid))
    else Some(AsyncOp(call))
  }

  // ---------------------------------------------------------------- steps of one client

  function Received(c: Client): Client
    requires c.channel != []
  {
    var m, rest := c.channel[0], c.(channel := c.channel[1..]);
    match m
    case AsyncOp(k) => rest.(running := c.running + [Task(k, None)])
    case SyncOp(k, t) =>
      if c.mode == SemiSync then rest.(running := c.running + [Task(k, None)], acks := c.acks + [Ack(k, t, Early)])
      else if c.mode == Sync || c.mode == FlushSync then rest.(running := c.running + [Task(k, Some(t))])
      else rest.(running := c.running + [Task(k, None)])
    case Cork(t, at) => rest.(acks := c.acks + [AckCork(t, at)])
    case Uncork => rest
  }

  function Executed(c: Client, i: nat): Client
    requires i < |c.running|
  {
    var task := c.running[i];
    c.(running := c.running[..i] + c.running[i + 1..],
       executed := c.executed + [task.call],
       acks := if task.ack.Some? then c.acks + [Ack(task.call, task.ack.value, Ret)] else c.acks)
  }

  function Delivered(c: Client): Client
    requires c.acks != []
  {
    var a := c.acks[0];
    var reply := if a.Ack? then Acked(a.call, a.code) else Corked(a.at);
    c.(acks := c.acks[1..], slots := c.slots[a.tid := reply])
  }

  function Sent(c: Client, m: Msg): Client {
    c.(channel := c.channel + [m], sent := if m.AsyncOp? || m.SyncOp? then c.sent + [m.call] else c.sent)
  }

  // ---------------------------------------------------------------- steps of the system

  /** The state after a step, `None` when the step is not enabled. */
  ghost function Apply(s: State, step: Step): Option<State> {
    match step
    case Begin(t, fsync) =>
      if ThreadOf(s, t).Idle? && s.lock.None? && !s.corked then
        Some(s.(lock := Some(t), order := s.order + [Call(fsync)],
          threads := s.threads[t := Sending(|s.order|, s.list, [])]))
      else None
    case Send(t) =>
      var th := ThreadOf(s, t);
      if th.Sending? && th.todo != [] && th.todo[0] in s.clients && th.call < |s.order| then
        var c := s.clients[th.todo[0]];
        var m := Message(c.mode, s.order[th.call].fsync, th.call, t);
        if m.None? || !c.alive then Some(s.(threads := s.threads[t := Sending(th.call, th.todo[1..], th.waits)]))
        else
          var waits := if m.value.SyncOp? then th.waits + [th.todo[0]] else th.waits;
          Some(s.(clients := s.clients[th.todo[0] := Sent(c, m.value)],
                  threads := s.threads[t := Sending(th.call, th.todo[1..], waits)]))
      else None
    case EndSend(t) =>
      var th := ThreadOf(s, t);
      if th.Sending? && th.todo == [] then Some(s.(lock := None, threads := s.threads[t := Waiting(th.call, th.waits)]))
      else None
    case Consume(t) =>
      var th := ThreadOf(s, t);
      if th.Waiting? && th.waits != [] then
        var id := th.waits[0];
        var threads := s.threads[t := Waiting(th.call, th.waits[1..])];
        if id !in s.clients then Some(s.(threads := threads))
        else if t in s.clients[id].slots then
          var c := s.clients[id];
          Some(s.(threads := threads, clients := s.clients[id := c.(slots := c.slots - {t})]))
        else None
      else None
    case Finish(t) =>
      var th := ThreadOf(s, t);
      if th.Waiting? && th.waits == [] then Some(s.(threads := s.threads[t := Idle])) else None
    case SetCork(t) =>
      if ThreadOf(s, t).Idle? && s.lock.None? then
        Some(s.(corked := true, threads := s.threads[t := CorkSet(s.epoch, |s.order|)]))
      else None
    case CorkList(t) =>
      var th := ThreadOf(s, t);
      if th.CorkSet? then Some(s.(threads := s.threads[t := Corking(th.epoch, th.at, s.list, None, {})])) else None
    case CorkSend(t) =>
      var th := ThreadOf(s, t);
      if th.Corking? && th.wait.None? && th.todo != [] && th.todo[0] in s.clients then
        var id := th.todo[0];
        var c := s.clients[id];
        // a control connection is told but not waited for: its reader is the thread that corks
        if !c.alive || c.mode == Control then
          Some(s.(threads := s.threads[t := Corking(th.epoch, th.at, th.todo[1..], None, th.acked)]))
        else
          Some(s.(clients := s.clients[id := Sent(c, Cork(t, th.at))],
                  threads := s.threads[t := Corking(th.epoch, th.at, th.todo[1..], Some(id), th.acked)]))
      else None
    case CorkAcked(t) =>
      var th := ThreadOf(s, t);
      if th.Corking? && th.wait.Some? && th.wait.value in s.clients && t in s.clients[th.wait.value].slots then
        var id := th.wait.value;
        var c := s.clients[id];
        Some(s.(clients := s.clients[id := c.(slots := c.slots - {t})],
                threads := s.threads[t := Corking(th.epoch, th.at, th.todo, None, th.acked + {id})]))
      else None
    case CorkDone(t) =>
      var th := ThreadOf(s, t);
      if th.Corking? && th.wait.None? && th.todo == [] then Some(s.(threads := s.threads[t := Idle])) else None
    case UncorkAll(t) =>
      if ThreadOf(s, t).Idle? && s.lock.None? then
        Some(s.(corked := false, epoch := s.epoch + 1,
                clients := map id | id in s.clients ::
                  if s.clients[id].alive then Sent(s.clients[id], Uncork) else s.clients[id]))
      else None
    case Receive(id) =>
      if id in s.clients && s.clients[id].channel != [] && (s.clients[id].pool || s.clients[id].running == []) then
        Some(s.(clients := s.clients[id := Received(s.clients[id])]))
      else None
    case Execute(id, i) =>
      if id in s.clients && i < |s.clients[id].running| then
        Some(s.(clients := s.clients[id := Executed(s.clients[id], i)]))
      else None
    case Deliver(id) =>
      if id in s.clients && s.clients[id].alive && s.clients[id].acks != [] then
        Some(s.(clients := s.clients[id := Delivered(s.clients[id])]))
      else None
    case Die(id) =>
      if id in s.clients then Some(s.(clients := s.clients[id := s.clients[id].(alive := false)])) else None
    case Harvest(id) =>
      if id in s.clients && !s.clients[id].alive && ListFree(s) then
        Some(s.(clients := s.clients - {id}, list := Without(s.list, id)))
      else None
    case Join(mode, pool) =>
      // only the synchronous mode may execute on several threads
      if ListFree(s) && (pool ==> mode == Sync) then
        var c := Client(mode, pool, true, |s.order|, [], [], [], [], [], map[]);
        Some(s.(clients := s.clients[s.nextClient := c], list := s.list + [s.nextClient],
          nextClient := s.nextClient + 1))
      else None
  }

  function Without(list: seq<ClientId>, id: ClientId): seq<ClientId> {
    if list == [] then []
    else if list[0] == id then Without(list[1..], id)
    else [list[0]] + Without(list[1..], id)
  }

  const INITIAL: State := State(false, 0, None, [], map[], [], 0, map[])

  /** A run: states connected by steps, from the initial one. */
  ghost predicate Run(states: seq<State>, steps: seq<Step>) {
    && |states| == |steps| + 1 && states[0] == INITIAL
    && forall i | 0 <= i < |steps| :: Apply(states[i], steps[i]) == Some(states[i + 1])
  }
}
