/**
 Acknowledgements in flight: what a client owes to a thread is conserved by every step of the client.
 */
module Acknowledgements {
  import opened Wrappers
  import opened Replication

  // ---------------------------------------------------------------- outstanding acknowledgements

  /** An acknowledgement that is owed to a thread: for a call, or for a cork. */
  datatype Token = OpToken(call: nat) | CorkToken(at: nat)

  function One(b: bool): nat { if b then 1 else 0 }

  predicate MsgOwes(m: Msg, mode: Mode, t: Tid, k: Token) {
    || (m.SyncOp? && m.tid == t && (mode == Sync || mode == SemiSync || mode == FlushSync) && k == OpToken(m.call))
    || (m.Cork? && m.tid == t && k == CorkToken(m.at))
  }

  predicate TaskOwes(task: Task, t: Tid, k: Token) {
    task.ack == Some(t) && k == OpToken(task.call)
  }

  predicate AckOwes(a: AckMsg, t: Tid, k: Token) {
    a.tid == t && k == if a.Ack? then OpToken(a.call) else CorkToken(a.at)
  }

  predicate SlotOwes(slots: map<Tid, Reply>, t: Tid, k: Token) {
    t in slots && k == if slots[t].Acked? then OpToken(slots[t].call) else CorkToken(slots[t].at)
  }

  function ChannelOwed(ms: seq<Msg>, mode: Mode, t: Tid, k: Token): nat {
    if ms == [] then 0 else One(MsgOwes(ms[0], mode, t, k)) + ChannelOwed(ms[1..], mode, t, k)
  }

  function TasksOwed(tasks: seq<Task>, t: Tid, k: Token): nat {
    if tasks == [] then 0 else One(TaskOwes(tasks[0], t, k)) + TasksOwed(tasks[1..], t, k)
  }

  function AcksOwed(acks: seq<AckMsg>, t: Tid, k: Token): nat {
    if acks == [] then 0 else One(AckOwes(acks[0], t, k)) + AcksOwed(acks[1..], t, k)
  }

  /** How often `k` is on its way from client `c` to thread `t`: in the channel, being executed, on
      the way back, or in the slot. */
  function Owed(c: Client, t: Tid, k: Token): nat {
    ChannelOwed(c.channel, c.mode, t, k) + TasksOwed(c.running, t, k) + AcksOwed(c.acks, t, k)
      + One(SlotOwes(c.slots, t, k))
  }

  /** A thread in this state waits for `k` from client `id`. */
  predicate Awaits(th: Thread, id: ClientId, k: Token) {
    || ((th.Sending? || th.Waiting?) && id in th.waits && k == OpToken(th.call))
    || (th.Corking? && th.wait == Some(id) && k == CorkToken(th.at))
  }

  lemma {:induction false} ChannelAppend(ms: seq<Msg>, m: Msg, mode: Mode, t: Tid, k: Token)
    ensures ChannelOwed(ms + [m], mode, t, k) == ChannelOwed(ms, mode, t, k) + One(MsgOwes(m, mode, t, k))
  {
    hide MsgOwes, One;
    if ms == [] {
      assert [m][1..] == [];
    } else {
      ChannelAppend(ms[1..], m, mode, t, k);
      assert (ms + [m])[1..] == ms[1..] + [m];
    }
  }

  lemma {:induction false} TasksConcat(a: seq<Task>, b: seq<Task>, t: Tid, k: Token)
    ensures TasksOwed(a + b, t, k) == TasksOwed(a, t, k) + TasksOwed(b, t, k)
  {
    hide TaskOwes, One;
    if a == [] {
      assert a + b == b;
    } else {
      TasksConcat(a[1..], b, t, k);
      assert (a + b)[1..] == a[1..] + b;
    }
  }

  lemma TasksAppend(tasks: seq<Task>, task: Task, t: Tid, k: Token)
    ensures TasksOwed(tasks + [task], t, k) == TasksOwed(tasks, t, k) + One(TaskOwes(task, t, k))
  {
    hide TaskOwes, One;
    TasksConcat(tasks, [task], t, k);
    assert [task][1..] == [];
  }

  lemma TasksRemove(tasks: seq<Task>, i: nat, t: Tid, k: Token)
    requires i < |tasks|
    ensures TasksOwed(tasks, t, k) == One(TaskOwes(tasks[i], t, k)) + TasksOwed(tasks[..i] + tasks[i + 1..], t, k)
  {
    hide TaskOwes, One;
    assert tasks == tasks[..i] + ([tasks[i]] + tasks[i + 1..]);
    TasksConcat(tasks[..i], [tasks[i]] + tasks[i + 1..], t, k);
    TasksConcat(tasks[..i], tasks[i + 1..], t, k);
    assert ([tasks[i]] + tasks[i + 1..])[1..] == tasks[i + 1..];
  }

  lemma {:induction false} AcksAppend(acks: seq<AckMsg>, a: AckMsg, t: Tid, k: Token)
    ensures AcksOwed(acks + [a], t, k) == AcksOwed(acks, t, k) + One(AckOwes(a, t, k))
  {
    hide AckOwes, One;
    if acks == [] {
      assert [a][1..] == [];
    } else {
      AcksAppend(acks[1..], a, t, k);
      assert (acks + [a])[1..] == acks[1..] + [a];
    }
  }

  // ---------------------------------------------------------------- clients conserve what is owed

  lemma ChannelFirst(ms: seq<Msg>, mode: Mode, t: Tid, k: Token)
    requires ms != []
    ensures ChannelOwed(ms, mode, t, k) == One(MsgOwes(ms[0], mode, t, k)) + ChannelOwed(ms[1..], mode, t, k)
  {
  }

  lemma ReceivedSyncOwed(c: Client, n: nat, u: Tid, t: Tid, k: Token)
    requires c.channel != [] && c.channel[0] == SyncOp(n, u)
    ensures Owed(Received(c), t, k) == Owed(c, t, k)
  {
    hide TasksOwed, AcksOwed, ChannelOwed;
    ChannelFirst(c.channel, c.mode, t, k);
    if c.mode == Sync || c.mode == FlushSync {
      TasksAppend(c.running, Task(n, Some(u)), t, k);
    } else {
      TasksAppend(c.running, Task(n, None), t, k);
      AcksAppend(c.acks, Ack(n, u, Early), t, k);
    }
  }

  lemma ReceivedOwed(c: Client, t: Tid, k: Token)
    requires c.channel != []
    ensures Owed(Received(c), t, k) == Owed(c, t, k)
  {
    hide TasksOwed, AcksOwed, ChannelOwed;
    ChannelFirst(c.channel, c.mode, t, k);
    match c.channel[0]
    case AsyncOp(n) => TasksAppend(c.running, Task(n, None), t, k);
    case SyncOp(n, u) => ReceivedSyncOwed(c, n, u, t, k);
    case Cork(u, at) => AcksAppend(c.acks, AckCork(u, at), t, k);
    case Uncork =>
  }

  lemma ExecutedOwed(c: Client, i: nat, t: Tid, k: Token)
    requires i < |c.running|
    ensures Owed(Executed(c, i), t, k) == Owed(c, t, k)
  {
    TasksRemove(c.running, i, t, k);
    var task := c.running[i];
    if task.ack.Some? { AcksAppend(c.acks, Ack(task.call, task.ack.value, Ret), t, k); }
  }

  /** A thread is owed at most one acknowledgement by the client. */
  ghost predicate AtMostOne(c: Client, t: Tid) {
    && (forall k :: Owed(c, t, k) <= 1)
    && (forall j, k :: Owed(c, t, j) == 1 && Owed(c, t, k) == 1 ==> j == k)
  }

  function AckToken(a: AckMsg): Token {
    if a.Ack? then OpToken(a.call) else CorkToken(a.at)
  }

  function ReplyToken(r: Reply): Token {
    if r.Acked? then OpToken(r.call) else CorkToken(r.at)
  }

  /** An acknowledgement that is about to be delivered finds its slot empty. */
  lemma SlotEmpty(c: Client)
    requires c.acks != [] && AtMostOne(c, c.acks[0].tid)
    ensures c.acks[0].tid !in c.slots
  {
    var u := c.acks[0].tid;
    assert Owed(c, u, AckToken(c.acks[0])) >= 1 + One(SlotOwes(c.slots, u, AckToken(c.acks[0])));
    assert u in c.slots ==> Owed(c, u, ReplyToken(c.slots[u])) >= 1;
  }

  /** Delivering an acknowledgement loses nothing because the slot it goes to is empty. */
  lemma DeliveredOwed(c: Client, t: Tid, k: Token)
    requires c.acks != [] && AtMostOne(c, c.acks[0].tid)
    ensures Owed(Delivered(c), t, k) == Owed(c, t, k)
  {
    SlotEmpty(c);
  }

  lemma SentOwed(c: Client, m: Msg, t: Tid, k: Token)
    ensures Owed(Sent(c, m), t, k) == Owed(c, t, k) + One(MsgOwes(m, c.mode, t, k))
  {
    ChannelAppend(c.channel, m, c.mode, t, k);
  }

  lemma ConsumedOwed(c: Client, u: Tid, t: Tid, k: Token)
    requires u in c.slots
    ensures Owed(c.(slots := c.slots - {u}), t, k) == Owed(c, t, k) - One(t == u && SlotOwes(c.slots, u, k))
  {
  }
}
