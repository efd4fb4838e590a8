/** What the replication protocol guarantees in every run. */
module ReplicationTheorems {
  import opened Wrappers
  import opened Replication
  import opened Acknowledgements
  import opened ReplicaOrder
  import opened ReplicationInvariant

  // ---------------------------------------------------------------- one order for all clients

  /** The calls `lo..hi` that are no fsync, in the order of the server. */
  function Broadcast(order: seq<Call>, lo: nat, hi: nat): seq<nat>
    requires hi <= |order|
  {
    if hi <= lo then [] else Broadcast(order, lo, hi - 1) + if order[hi - 1].fsync then [] else [hi - 1]
  }

  /** The elements of `ks` from `lo` on that are no fsync. */
  function Data(order: seq<Call>, ks: seq<nat>, lo: nat): seq<nat> {
    if ks == [] then []
    else
      var last := ks[|ks| - 1];
      Data(order, ks[..|ks| - 1], lo) + if lo <= last < |order| && !order[last].fsync then [last] else []
  }

  lemma DataAppend(order: seq<Call>, ks: seq<nat>, k: nat, lo: nat)
    ensures Data(order, ks + [k], lo) == Data(order, ks, lo) + if lo <= k < |order| && !order[k].fsync then [k] else []
  {
    assert (ks + [k])[..|ks|] == ks;
  }

  lemma WantedStep(order: seq<Call>, mode: Mode, lo: nat, hi: nat)
    requires hi < |order|
    ensures Wanted(order, mode, lo, hi + 1) ==
      if lo <= hi && Wants(mode, order[hi]) then Wanted(order, mode, lo, hi) + [hi] else Wanted(order, mode, lo, hi)
  {
  }

  lemma BroadcastStep(order: seq<Call>, lo: nat, hi: nat)
    requires hi < |order|
    ensures Broadcast(order, lo, hi + 1) ==
      if lo <= hi && !order[hi].fsync then Broadcast(order, lo, hi) + [hi] else Broadcast(order, lo, hi)
  {
  }

  lemma {:induction false} DataWanted(order: seq<Call>, mode: Mode, joined: nat, lo: nat, upto: nat)
    requires mode != Control && joined <= lo && upto <= |order|
    ensures Data(order, Wanted(order, mode, joined, upto), lo) == Broadcast(order, lo, upto)
    decreases upto
  {
    if upto == 0 {
      assert Wanted(order, mode, joined, 0) == [];
    } else {
      hide Data, Wanted, Broadcast;
      var n, before := upto - 1, Wanted(order, mode, joined, upto - 1);
      DataWanted(order, mode, joined, lo, n);
      DataAppend(order, before, n, lo);
      WantedStep(order, mode, joined, n);
      BroadcastStep(order, lo, n);
    }
  }

  lemma {:induction false} DataPrefix(order: seq<Call>, ks: seq<nat>, n: nat, lo: nat)
    requires n <= |ks|
    ensures Data(order, ks[..n], lo) <= Data(order, ks, lo)
  {
    if n == |ks| {
      assert ks[..n] == ks;
    } else {
      DataPrefix(order, ks[..|ks| - 1], n, lo);
      assert ks[..|ks| - 1][..n] == ks[..n];
    }
  }

  lemma {:induction false} BroadcastPrefix(order: seq<Call>, lo: nat, hi: nat, hi': nat)
    requires hi <= hi' <= |order|
    ensures Broadcast(order, lo, hi) <= Broadcast(order, lo, hi')
    decreases hi'
  {
    if hi < hi' { BroadcastPrefix(order, lo, hi, hi' - 1); }
  }

  ghost predicate LiveData(s: State, id: ClientId) {
    id in s.clients && s.clients[id].alive && s.clients[id].mode != Control
  }

  ghost predicate Reachable(s: State) {
    exists states, steps :: Run(states, steps) && s in states
  }

  lemma ReachableInv(s: State)
    requires Reachable(s)
    ensures Inv(s)
  {
    hide Inv;
    var states, steps :| Run(states, steps) && s in states;
    var n :| 0 <= n < |states| && states[n] == s;
    RunKeeps(states, steps, n);
  }

  lemma ReachableMember(s: State, id: ClientId)
    requires Reachable(s) && id in s.clients
    ensures MemberOk(s.order, s.clients[id], Upto(s, id), Limit(s))
  {
    hide MemberOk;
    ReachableInv(s);
  }

  /** A live data client has been sent, since it joined, exactly the calls of the server's one order, in that
      order, up to the call that is being sent; so any two such clients have been sent the same. */
  lemma SameOrder(s: State, a: ClientId, lo: nat)
    requires Reachable(s) && LiveData(s, a) && s.clients[a].joined <= lo
    ensures |s.order| - 1 <= Upto(s, a) <= |s.order| && (s.lock.None? ==> Upto(s, a) == |s.order|)
    ensures Data(s.order, s.clients[a].sent, lo) == Broadcast(s.order, lo, Upto(s, a))
  {
    hide Reachable;
    ReachableMember(s, a);
    DataWanted(s.order, s.clients[a].mode, s.clients[a].joined, lo, Upto(s, a));
  }

  ghost predicate Comparable(xs: seq<nat>, ys: seq<nat>) {
    xs <= ys || ys <= xs
  }

  lemma ExecutedBroadcast(s: State, a: ClientId, lo: nat)
    requires Reachable(s) && LiveData(s, a) && s.clients[a].joined <= lo && !s.clients[a].pool
    ensures Data(s.order, s.clients[a].executed, lo) <= Broadcast(s.order, lo, |s.order|)
  {
    hide Reachable;
    var c := s.clients[a];
    ReachableMember(s, a);
    assert c.executed == c.sent[..|c.executed|];
    DataPrefix(s.order, c.sent, |c.executed|, lo);
    SameOrder(s, a, lo);
    BroadcastPrefix(s.order, lo, Upto(s, a), |s.order|);
  }

  /** Replicas with one thread never diverge: what one has executed is a prefix of what the other has. */
  lemma ReplicasAgree(s: State, a: ClientId, b: ClientId, lo: nat)
    requires Reachable(s) && LiveData(s, a) && LiveData(s, b) && !s.clients[a].pool && !s.clients[b].pool
    requires s.clients[a].joined <= lo && s.clients[b].joined <= lo
    ensures Comparable(Data(s.order, s.clients[a].executed, lo), Data(s.order, s.clients[b].executed, lo))
  {
    hide Reachable;
    ExecutedBroadcast(s, a, lo);
    ExecutedBroadcast(s, b, lo);
  }

  /** What a connected client is sent, since it joined: a data client every call that is no fsync, and a synchronous or
      flush-synchronous one the fsyncs as well; a control connection nothing. */
  lemma SentIff(s: State, id: ClientId, k: nat)
    requires Reachable(s) && id in s.clients && s.clients[id].alive && k < Limit(s)
    ensures var c := s.clients[id];
      k in c.sent <==>
        c.joined <= k && c.mode != Control && (s.order[k].fsync ==> c.mode == Sync || c.mode == FlushSync)
  {
    hide Reachable;
    ReachableMember(s, id);
    var c := s.clients[id];
    if c.joined <= k && Wants(c.mode, s.order[k]) { WantedHas(s.order, c.mode, c.joined, Upto(s, id), k); }
    if k in c.sent { WantedOnly(s.order, c.mode, c.joined, Upto(s, id), k); }
  }

  lemma {:induction false} WantedOnly(order: seq<Call>, mode: Mode, lo: nat, hi: nat, k: nat)
    requires hi <= |order| && k in Wanted(order, mode, lo, hi)
    ensures lo <= k < hi && Wants(mode, order[k])
    decreases hi
  {
    if k in Wanted(order, mode, lo, hi - 1) { WantedOnly(order, mode, lo, hi - 1, k); }
  }

  lemma {:induction false} WantedHas(order: seq<Call>, mode: Mode, lo: nat, hi: nat, k: nat)
    requires lo <= k < hi <= |order| && Wants(mode, order[k])
    ensures k in Wanted(order, mode, lo, hi)
    decreases hi
  {
    if k < hi - 1 { WantedHas(order, mode, lo, hi - 1, k); }
  }

  /** Also a client with several threads executes nothing that it was not sent, and nothing twice. */
  lemma ExecutedOnce(s: State, id: ClientId)
    requires Reachable(s) && id in s.clients
    ensures var c := s.clients[id];
      && (forall k | k in c.executed :: k in c.sent)
      && forall i, j | 0 <= i < j < |c.executed| :: c.executed[i] != c.executed[j]
  {
    hide Reachable;
    ReachableMember(s, id);
    var c := s.clients[id];
    assert multiset(c.executed) <= multiset(c.sent);
    forall k | k in c.executed ensures k in c.sent { assert k in multiset(c.executed); }
    forall i, j | 0 <= i < j < |c.executed| ensures c.executed[i] != c.executed[j] {
      if c.executed[i] == c.executed[j] {
        Twice(c.executed, i, j);
        OnceEach(c.sent, c.executed[i]);
      }
    }
  }

  lemma Twice(ks: seq<nat>, i: nat, j: nat)
    requires i < j < |ks| && ks[i] == ks[j]
    ensures multiset(ks)[ks[i]] >= 2
  {
    assert ks == ks[..i] + [ks[i]] + ks[i + 1..j] + [ks[j]] + ks[j + 1..];
  }

  lemma {:induction false} OnceEach(ks: seq<nat>, k: nat)
    requires Increasing(ks)
    ensures multiset(ks)[k] <= 1
  {
    if ks != [] {
      var init, last := ks[..|ks| - 1], ks[|ks| - 1];
      assert ks == init + [last];
      OnceEach(init, k);
      assert last !in init;
    }
  }

  // ---------------------------------------------------------------- acknowledgements

  /** The reply in a thread's slot is for the call the thread waits for. A semi-synchronous client has replied early,
      when it had read the call; any other with a return code, when it had executed it. */
  lemma ReplyMatches(s: State, t: Tid, id: ClientId)
    requires Reachable(s) && (ThreadOf(s, t).Sending? || ThreadOf(s, t).Waiting?)
    requires id in s.clients && t in s.clients[id].slots
    ensures id in ThreadOf(s, t).waits
    ensures var c := s.clients[id];
      && c.slots[t].Acked? && c.slots[t].call == ThreadOf(s, t).call
      && (c.slots[t].code == Early <==> c.mode == SemiSync)
      && (c.slots[t].code == Ret ==> c.slots[t].call in c.executed)
      && Obtained(c, c.slots[t].call)
  {
    hide Reachable;
    ReachableInv(s);
    ReplyAwaited(s, t, id);
    assert MemberOk(s.order, s.clients[id], Upto(s, id), Limit(s));
    assert ReplyMeans(s.clients[id], s.clients[id].slots[t]);
  }

  /** A thread that is about to send to a client finds its slot empty, and nothing else is on the way to
      it from that client. */
  lemma SlotFree(s: State, t: Tid, id: ClientId)
    requires Reachable(s) && ThreadOf(s, t).Sending? && id in ThreadOf(s, t).todo
    ensures id in s.clients && t !in s.clients[id].slots && forall k :: Owed(s.clients[id], t, k) == 0
  {
    hide Reachable;
    ReachableInv(s);
    assert ThreadOk(s, t);
    var c := s.clients[id];
    forall k ensures Owed(c, t, k) == 0 {
      assert Owed(c, t, k) == One(Awaits(ThreadOf(s, t), id, k));
    }
    assert t in c.slots ==> Owed(c, t, ReplyToken(c.slots[t])) >= 1;
  }

  /** A client with one thread that has executed a call has executed all it was sent before. */
  lemma ExecutedBefore(c: Client, call: nat)
    requires Fifo(c) && Increasing(c.sent) && call in c.executed
    ensures forall k | k in c.sent && k <= call :: k in c.executed
  {
    var n := |c.executed|;
    assert forall i | 0 <= i < n :: c.executed[i] == c.sent[i];
    var i :| 0 <= i < n && c.executed[i] == call;
    assert c.sent[i] == call;
    forall k | k in c.sent && k <= call ensures k in c.executed {
      var j :| 0 <= j < |c.sent| && c.sent[j] == k;
      assert j <= i;
      assert c.executed[j] == k;
    }
  }

  /** Flush barrier: when a flush-synchronous client has replied to an fsync, it has executed every call
      that was sent to it before the fsync, by whatever thread. */
  lemma FlushBarrier(s: State, t: Tid, id: ClientId)
    requires Reachable(s) && ThreadOf(s, t).Waiting? && id in s.clients && t in s.clients[id].slots
    requires s.clients[id].mode == FlushSync
    ensures var c, call := s.clients[id], ThreadOf(s, t).call;
      && (forall k | k in c.sent && k <= call :: k in c.executed)
      && (c.alive ==> forall k | c.joined <= k <= call :: k in c.executed)
  {
    hide Reachable;
    var c, call := s.clients[id], ThreadOf(s, t).call;
    ReplyMatches(s, t, id);
    ReachableMember(s, id);
    ExecutedBefore(c, call);
    assert call in c.sent;
    if c.alive {
      forall k | c.joined <= k <= call ensures k in c.executed {
        WantedHas(s.order, c.mode, c.joined, Upto(s, id), k);
      }
    }
  }

  // ---------------------------------------------------------------- synchronous calls

  /** A client only grows. */
  ghost predicate Grows(c: Client, d: Client) {
    && d.mode == c.mode && d.pool == c.pool && d.joined == c.joined && (d.alive ==> c.alive)
    && c.executed <= d.executed && c.sent <= d.sent && forall k | Obtained(c, k) :: Obtained(d, k)
  }

  /** The thread that takes the step, if it is a step of a thread. */
  function Actor(step: Step): Option<Tid> {
    match step
    case Receive(_) => None
    case Execute(_, _) => None
    case Deliver(_) => None
    case Die(_) => None
    case Harvest(_) => None
    case Join(_, _) => None
    case _ => Some(step.tid)
  }

  lemma ThreadGrows(s: State, step: Step, id: ClientId)
    requires Apply(s, step).Some? && Actor(step).Some? && id in s.clients && id in Apply(s, step).value.clients
    ensures var c, d := s.clients[id], Apply(s, step).value.clients[id];
      Grows(c, d) && (step.Send? || d.sent == c.sent)
  {
    hide Received, Executed, Delivered;
  }

  lemma ClientGrows(s: State, step: Step, id: ClientId)
    requires ListOk(s) && Apply(s, step).Some? && id in s.clients && id in Apply(s, step).value.clients
    ensures var c, d := s.clients[id], Apply(s, step).value.clients[id];
      Grows(c, d) && (step.Send? || d.sent == c.sent)
  {
    if Actor(step).Some? {
      ThreadGrows(s, step, id);
    } else if step.Receive? {
      ReceivedFrame(s.clients[step.client]);
      ReceivedObtains(s.clients[step.client]);
    } else if step.Execute? {
      ExecutedObtains(s.clients[step.client], step.index);
    }
    hide Received, Sent, Obtained;
  }

  lemma NewClient(s: State, step: Step, id: ClientId)
    requires Apply(s, step).Some? && id !in s.clients && id in Apply(s, step).value.clients
    ensures id == s.nextClient && Apply(s, step).value.clients[id].joined == |s.order| && step.Join?
  {
    hide Received, Executed, Delivered, Sent;
  }

  lemma StateGrows(s: State, step: Step)
    requires Apply(s, step).Some?
    ensures var s' := Apply(s, step).value;
      && s.order <= s'.order && (step.Begin? || s'.order == s.order)
      && s.nextClient <= s'.nextClient && s.epoch <= s'.epoch && (step.UncorkAll? || (s.corked ==> s'.corked))
  {
    hide Received, Executed, Delivered, Sent;
  }

  lemma OthersWait(s: State, step: Step, t: Tid)
    requires Apply(s, step).Some? && Actor(step) != Some(t)
    ensures ThreadOf(Apply(s, step).value, t) == ThreadOf(s, t)
  {
  }

  /** The server waits for such a client to execute the call. */
  predicate Synchronous(mode: Mode, call: Call) {
    mode == Sync || (mode == FlushSync && call.fsync)
  }

  /** The server waits for such a client: to execute the call, or to read it. */
  predicate Awaited(mode: Mode, call: Call) {
    Synchronous(mode, call) || (mode == SemiSync && !call.fsync)
  }

  /** The client has done with the call what the server waits for. */
  ghost predicate Served(c: Client, k: nat) {
    if c.mode == SemiSync then Obtained(c, k) else k in c.executed
  }

  /** Thread `t` waits for client `id`, or the client has done what it waits for. */
  ghost predicate Pending(s: State, t: Tid, id: ClientId) {
    var th := ThreadOf(s, t);
    th.Waiting? || th.Sending? ==>
      && th.call < |s.order|
      && (LiveData(s, id) && s.clients[id].joined <= th.call && Awaited(s.clients[id].mode, s.order[th.call])
          && (th.Sending? ==> id !in th.todo) ==>
          id in th.waits || Served(s.clients[id], th.call))
  }

  lemma PendingOther(s: State, step: Step, t: Tid, id: ClientId)
    requires Inv(s) && Pending(s, t, id) && Apply(s, step).Some? && Actor(step) != Some(t)
    ensures Pending(Apply(s, step).value, t, id)
  {
    hide Inv, Apply, MembersOk, Conserved, ListOk, LockOk, ThreadOk;
    StateGrows(s, step);
    OthersWait(s, step, t);
    InvParts(s, t);
    var s' := Apply(s, step).value;
    if id in s'.clients {
      if id in s.clients { ClientGrows(s, step, id); } else { NewClient(s, step, id); }
    }
  }

  lemma PendingConsume(s: State, t: Tid, id: ClientId)
    requires Inv(s) && Pending(s, t, id) && Apply(s, Consume(t)).Some?
    ensures Pending(Apply(s, Consume(t)).value, t, id)
  {
    hide Inv, LockOk, ListOk, MembersOk, Conserved, Awaits, MemberOk, Obtained;
    InvParts(s, t);
    var th := ThreadOf(s, t);
    DistinctTail(th.waits);
    if id in s.clients {
      ServedSame(s.clients[id], t, th.call);
      if id == th.waits[0] {
        ReplyAwaited(s, t, id);
        InvMember(s, id);
        ReplyServes(s.order, s.clients[id], t, Upto(s, id), Limit(s));
      }
    }
    hide ThreadOk, Served;
  }

  lemma ServedSame(c: Client, t: Tid, k: nat)
    ensures Served(c.(slots := c.slots - {t}), k) == Served(c, k)
  {
  }

  lemma ReplyServes(order: seq<Call>, c: Client, t: Tid, upto: nat, limit: nat)
    requires MemberOk(order, c, upto, limit) && t in c.slots && c.slots[t].Acked?
    ensures Served(c, c.slots[t].call)
  {
    hide FlowOk, Obtained, Wanted;
    assert ReplyMeans(c, c.slots[t]);
  }

  lemma PendingSend(s: State, t: Tid, id: ClientId)
    requires Inv(s) && Pending(s, t, id) && Apply(s, Send(t)).Some?
    ensures Pending(Apply(s, Send(t)).value, t, id)
  {
    hide Inv, MembersOk, Conserved, ListOk, LockOk;
    var th := ThreadOf(s, t);
    InvParts(s, t);
    DistinctTail(th.todo);
    hide ThreadOk;
  }

  lemma PendingStep(s: State, step: Step, t: Tid, id: ClientId)
    requires Inv(s) && Pending(s, t, id) && Apply(s, step).Some?
    ensures Pending(Apply(s, step).value, t, id)
  {
    if Actor(step) != Some(t) {
      PendingOther(s, step, t, id);
    } else if step.Consume? {
      PendingConsume(s, t, id);
    } else if step.Send? {
      PendingSend(s, t, id);
    } else {
      hide Inv, LockOk, MembersOk, Conserved, ThreadOk;
      InvParts(s, t);
      if step.EndSend? { EndSendIs(s, t); } else { PendingOwn(s, step, t, id); }
      hide Apply;
    }
  }

  /** A step of the thread itself that is neither a send nor a reply: it begins a call, or waits no longer. */
  lemma PendingOwn(s: State, step: Step, t: Tid, id: ClientId)
    requires ListOk(s) && Apply(s, step).Some? && Actor(step) == Some(t)
    requires !step.Consume? && !step.Send? && !step.EndSend?
    ensures Pending(Apply(s, step).value, t, id)
  {
    hide Received, Executed, Delivered, Sent, Message, Served;
  }

  lemma RunStart(states: seq<State>, steps: seq<Step>)
    requires Run(states, steps)
    ensures states[0] == INITIAL
  {
    hide Apply;
  }

  lemma NothingPending(t: Tid, id: ClientId)
    ensures Pending(INITIAL, t, id) && Justified(INITIAL, t, id)
  {
  }

  lemma {:induction false} RunPending(states: seq<State>, steps: seq<Step>, n: nat, t: Tid, id: ClientId)
    requires Run(states, steps) && n < |states|
    ensures Pending(states[n], t, id)
  {
    hide *;
    if n == 0 {
      RunStart(states, steps);
      NothingPending(t, id);
    } else {
      RunPending(states, steps, n - 1, t, id);
      RunKeeps(states, steps, n - 1);
      RunStep(states, steps, n - 1);
      PendingStep(states[n - 1], steps[n - 1], t, id);
    }
  }

  /** When a call has returned to its caller, every live client that replicates it synchronously has
      executed it. */
  lemma SynchronousCall(s: State, t: Tid, id: ClientId)
    requires Reachable(s) && ThreadOf(s, t).Waiting? && ThreadOf(s, t).waits == [] && LiveData(s, id)
    requires s.clients[id].joined <= ThreadOf(s, t).call < |s.order|
    requires Synchronous(s.clients[id].mode, s.order[ThreadOf(s, t).call])
    ensures ThreadOf(s, t).call in s.clients[id].executed
  {
    var states, steps :| Run(states, steps) && s in states;
    var n :| 0 <= n < |states| && states[n] == s;
    RunPending(states, steps, n, t, id);
  }

  /** When a call that is no fsync has returned to its caller, every live semi-synchronous client has read it: it is
      executed or about to be, and no longer in the channel. */
  lemma SemiSynchronousCall(s: State, t: Tid, id: ClientId)
    requires Reachable(s) && ThreadOf(s, t).Waiting? && ThreadOf(s, t).waits == [] && LiveData(s, id)
    requires s.clients[id].joined <= ThreadOf(s, t).call < |s.order| && !s.order[ThreadOf(s, t).call].fsync
    requires s.clients[id].mode == SemiSync
    ensures var c, k := s.clients[id], ThreadOf(s, t).call;
      && (k in c.executed || exists i :: 0 <= i < |c.running| && c.running[i].call == k)
      && forall i | 0 <= i < |c.channel| :: !(IsCall(c.channel[i]) && c.channel[i].call == k)
  {
    var states, steps :| Run(states, steps) && s in states;
    var n :| 0 <= n < |states| && states[n] == s;
    RunPending(states, steps, n, t, id);
    ReachableMember(s, id);
    hide Reachable;
    var c, k := s.clients[id], ThreadOf(s, t).call;
    assert Obtained(c, k);
    OnceOnly(c, k);
  }

  lemma {:induction false} OpsHas(ms: seq<Msg>, i: nat)
    requires i < |ms| && IsCall(ms[i])
    ensures ms[i].call in Ops(ms)
  {
    OpsFirst(ms);
    if i > 0 { OpsHas(ms[1..], i - 1); }
  }

  /** A call that a client with one thread has read is no longer in its channel. */
  lemma OnceOnly(c: Client, k: nat)
    requires Fifo(c) && Increasing(c.sent) && Obtained(c, k)
    ensures forall i | 0 <= i < |c.channel| :: !(IsCall(c.channel[i]) && c.channel[i].call == k)
  {
    var done := c.executed + Calls(c.running);
    if c.running != [] { CallsOne(c.running); }
    assert k in done;
    var j :| 0 <= j < |done| && done[j] == k;
    assert c.sent[j] == k;
    var queued := Ops(c.channel);
    assert forall m | 0 <= m < |queued| :: queued[m] == c.sent[|done| + m] > k;
    forall i | 0 <= i < |c.channel| ensures !(IsCall(c.channel[i]) && c.channel[i].call == k) {
      if IsCall(c.channel[i]) { OpsHas(c.channel, i); }
    }
  }

  /** A thread waits for a client only if its mode asks for it. */
  ghost predicate Justified(s: State, t: Tid, id: ClientId) {
    var th := ThreadOf(s, t);
    (th.Waiting? || th.Sending?) && id in th.waits && id in s.clients ==>
      th.call < |s.order| && s.clients[id].joined <= th.call && Awaited(s.clients[id].mode, s.order[th.call])
  }

  lemma JustifiedSend(s: State, t: Tid, id: ClientId)
    requires Inv(s) && Justified(s, t, id) && Apply(s, Send(t)).Some?
    ensures Justified(Apply(s, Send(t)).value, t, id)
  {
    hide Inv, Conserved, LockOk, ListOk, ThreadOk, MembersOk, Apply, MemberOk;
    SendGuard(s, t);
    InvParts(s, t);
    InvMember(s, ThreadOf(s, t).todo[0]);
    assert s.clients[ThreadOf(s, t).todo[0]].joined <= ThreadOf(s, t).call by {
      JoinedBelow(s, t, ThreadOf(s, t).todo[0]);
    }
  }

  lemma JoinedBelow(s: State, t: Tid, id: ClientId)
    requires Inv(s) && ThreadOf(s, t).Sending? && id in s.clients
    ensures s.clients[id].joined <= ThreadOf(s, t).call
  {
    InvParts(s, t);
    InvMember(s, id);
    hide ClientOk, Wanted, Inv, ListOk, ThreadOk, MembersOk, Conserved;
  }

  lemma JustifiedStep(s: State, step: Step, t: Tid, id: ClientId)
    requires Inv(s) && Justified(s, t, id) && Apply(s, step).Some?
    ensures Justified(Apply(s, step).value, t, id)
  {
    hide Inv, Conserved, LockOk, ListOk, MembersOk;
    InvParts(s, t);
    if step == Send(t) {
      JustifiedSend(s, t, id);
    } else {
      StateGrows(s, step);
      if Actor(step) != Some(t) { OthersWait(s, step, t); }
      var s' := Apply(s, step).value;
      if id in s'.clients {
        if id in s.clients { ClientGrows(s, step, id); } else { NewClient(s, step, id); }
      }
      WaitsShrink(s, step, t);
      hide Apply;
    }
  }

  ghost predicate WaitsLess(th: Thread, th': Thread) {
    (th'.Sending? || th'.Waiting?) ==>
      th'.waits == [] ||
      ((th.Sending? || th.Waiting?) && th'.call == th.call && forall id | id in th'.waits :: id in th.waits)
  }

  lemma WaitsShrink(s: State, step: Step, t: Tid)
    requires Apply(s, step).Some? && step != Send(t)
    ensures WaitsLess(ThreadOf(s, t), ThreadOf(Apply(s, step).value, t))
  {
    hide Received, Executed, Delivered, Sent, Message;
  }

  lemma {:induction false} RunJustified(states: seq<State>, steps: seq<Step>, n: nat, t: Tid, id: ClientId)
    requires Run(states, steps) && n < |states|
    ensures Justified(states[n], t, id)
  {
    hide *;
    if n == 0 {
      RunStart(states, steps);
      NothingPending(t, id);
    } else {
      RunJustified(states, steps, n - 1, t, id);
      RunKeeps(states, steps, n - 1);
      RunStep(states, steps, n - 1);
      JustifiedStep(states[n - 1], steps[n - 1], t, id);
    }
  }

  /** No call waits for an asynchronous client or a control connection, none but an fsync for a flush-synchronous
      client, and no fsync for a semi-synchronous one. */
  lemma NeverAwaited(s: State, t: Tid, id: ClientId)
    requires Reachable(s) && (ThreadOf(s, t).Waiting? || ThreadOf(s, t).Sending?) && id in s.clients
    requires ThreadOf(s, t).call < |s.order| && id in ThreadOf(s, t).waits
    ensures var mode, fsync := s.clients[id].mode, s.order[ThreadOf(s, t).call].fsync;
      mode == Sync || (mode == FlushSync && fsync) || (mode == SemiSync && !fsync)
  {
    var states, steps :| Run(states, steps) && s in states;
    var n :| 0 <= n < |states| && states[n] == s;
    RunJustified(states, steps, n, t, id);
  }

  lemma {:induction false} NoTaskOwes(tasks: seq<Task>, t: Tid, k: Token)
    requires forall i | 0 <= i < |tasks| :: tasks[i].ack.None?
    ensures TasksOwed(tasks, t, k) == 0
  {
    if tasks != [] { NoTaskOwes(tasks[1..], t, k); }
  }

  lemma {:induction false} NoMsgOwes(ms: seq<Msg>, mode: Mode, t: Tid, call: nat)
    requires forall i | 0 <= i < |ms| :: !(IsCall(ms[i]) && ms[i].call == call)
    ensures ChannelOwed(ms, mode, t, OpToken(call)) == 0
  {
    if ms != [] { NoMsgOwes(ms[1..], mode, t, call); }
  }

  lemma {:induction false} AckThere(acks: seq<AckMsg>, t: Tid, call: nat)
    requires AcksOwed(acks, t, OpToken(call)) > 0
    ensures exists i :: 0 <= i < |acks| && acks[i].Ack? && acks[i].call == call && acks[i].tid == t
  {
    if acks != [] && !AckOwes(acks[0], t, OpToken(call)) {
      AckThere(acks[1..], t, call);
      var i :| 0 <= i < |acks[1..]| && acks[1..][i].Ack? && acks[1..][i].call == call && acks[1..][i].tid == t;
      assert acks[i + 1] == acks[1..][i];
    }
  }

  /** A semi-synchronous client that has read a call has replied: the reply is on its way or in the slot, whether or not
      the call has been executed. */
  lemma EarlyReply(s: State, t: Tid, id: ClientId)
    requires Reachable(s) && (ThreadOf(s, t).Waiting? || ThreadOf(s, t).Sending?) && id in s.clients
    requires id in ThreadOf(s, t).waits
    requires s.clients[id].mode == SemiSync && Obtained(s.clients[id], ThreadOf(s, t).call)
    ensures var c, k := s.clients[id], ThreadOf(s, t).call;
      || t in c.slots
      || exists i :: 0 <= i < |c.acks| && c.acks[i] == Ack(k, t, Early)
  {
    hide Reachable;
    var c, k := s.clients[id], ThreadOf(s, t).call;
    ReachableInv(s);
    InvParts(s, t);
    ReachableMember(s, id);
    assert Owed(c, t, OpToken(k)) == One(Awaits(ThreadOf(s, t), id, OpToken(k)));
    hide Inv;
    OnceOnly(c, k);
    NoMsgOwes(c.channel, c.mode, t, k);
    NoTaskOwes(c.running, t, OpToken(k));
    if t !in c.slots {
      AckThere(c.acks, t, k);
      var i :| 0 <= i < |c.acks| && c.acks[i].Ack? && c.acks[i].call == k && c.acks[i].tid == t;
      assert AckMeans(c, c.acks[i]);
    }
  }

  // ---------------------------------------------------------------- the cork

  ghost predicate CorkFinished(s: State, t: Tid) {
    var th := ThreadOf(s, t);
    th.Corking? && th.todo == [] && th.wait.None? && th.epoch == s.epoch
  }

  /** When a cork is complete, every live client has been sent and has read all calls of the server's order that are
      meant for it, and a client with one thread has executed them. */
  lemma CorkBarrier(s: State, t: Tid, id: ClientId)
    requires Reachable(s) && CorkFinished(s, t) && LiveData(s, id)
    ensures var c := s.clients[id];
      && c.sent == Wanted(s.order, c.mode, c.joined, |s.order|)
      && (forall k | k in c.sent :: Obtained(c, k)) && (!c.pool ==> c.executed == c.sent)
  {
    hide Reachable, Inv, ListOk, MembersOk, Conserved, ClientOk, Wanted, Obtained;
    ReachableInv(s);
    InvParts(s, t);
    InvMember(s, id);
    QuietRead(s.clients[id]);
  }

  lemma QuietRead(c: Client)
    requires Quiet(c)
    ensures forall k | k in c.sent :: Obtained(c, k)
  {
  }

  /** The thread that corks the server does not wait for a control connection, whose reader it may be. */
  lemma CorkAvoidsControl(s: State, t: Tid, id: ClientId)
    requires Reachable(s) && ThreadOf(s, t).Corking? && ThreadOf(s, t).wait == Some(id)
    ensures id in s.clients && s.clients[id].mode != Control
  {
    hide Reachable, Inv, MembersOk, Conserved, LockOk, ListOk;
    ReachableInv(s);
    InvParts(s, t);
  }

  /** Under a cork nobody sends. */
  lemma CorkedStep(s: State, step: Step)
    requires LockOk(s) && s.corked && Apply(s, step).Some?
    ensures !step.Begin? && !step.Send? && (step.UncorkAll? ==> Apply(s, step).value.epoch == s.epoch + 1)
  {
    hide Received, Executed, Delivered, Sent;
  }

  lemma RunStep(states: seq<State>, steps: seq<Step>, n: nat)
    requires Run(states, steps) && n + 1 < |states|
    ensures n < |steps| && Apply(states[n], steps[n]) == Some(states[n + 1])
  {
    hide Apply;
  }

  lemma KnownClient(s: State, id: ClientId)
    requires Inv(s) && id in s.clients
    ensures id < s.nextClient
  {
  }

  /** No client that was gone comes back, and epochs do not decrease. */
  lemma {:induction false} RunGrows(states: seq<State>, steps: seq<Step>, m: nat, n: nat, id: ClientId)
    requires Run(states, steps) && m <= n < |states| && id in states[m].clients
    ensures states[m].nextClient <= states[n].nextClient && states[m].epoch <= states[n].epoch
    ensures m < n && id in states[n].clients ==> id in states[n - 1].clients
  {
    hide *;
    if m < n {
      RunGrows(states, steps, m, n - 1, id);
      RunKeeps(states, steps, m);
      KnownClient(states[m], id);
      RunStep(states, steps, n - 1);
      StateGrows(states[n - 1], steps[n - 1]);
      if id in states[n].clients && id !in states[n - 1].clients { NewClient(states[n - 1], steps[n - 1], id); }
    }
  }

  lemma QuietKept(order: seq<Call>, c: Client, d: Client, upto: nat, limit: nat)
    requires Grows(c, d) && d.sent == c.sent && MemberOk(order, d, upto, limit)
    ensures Quiet(c) ==> Quiet(d)
  {
  }

  lemma CorkHoldsStep(s: State, step: Step, s': State, id: ClientId)
    requires Inv(s) && Inv(s') && Apply(s, step) == Some(s') && s.corked && s'.epoch == s.epoch
    requires id in s.clients && id in s'.clients
    ensures s'.corked && s'.order == s.order && s'.clients[id].sent == s.clients[id].sent
    ensures Quiet(s.clients[id]) ==> Quiet(s'.clients[id])
  {
    assert MemberOk(s'.order, s'.clients[id], Upto(s', id), Limit(s'));
    hide Apply, MemberOk, Quiet;
    StateGrows(s, step);
    CorkedStep(s, step);
    ClientGrows(s, step, id);
    QuietKept(s'.order, s.clients[id], s'.clients[id], Upto(s', id), Limit(s'));
  }

  /** From a complete cork until the next uncork the order does not grow, no client is sent a call, and
      the clients with one thread stay up to date. */
  lemma {:induction false} CorkHolds(states: seq<State>, steps: seq<Step>, m: nat, n: nat, id: ClientId)
    requires Run(states, steps) && m <= n < |states| && states[m].corked && states[n].epoch == states[m].epoch
    requires id in states[m].clients && id in states[n].clients
    ensures states[n].corked && states[n].order == states[m].order
    ensures states[n].clients[id].sent == states[m].clients[id].sent
    ensures Quiet(states[m].clients[id]) ==> Quiet(states[n].clients[id])
    decreases n
  {
    hide *;
    if m < n {
      RunStep(states, steps, n - 1);
      RunGrows(states, steps, m, n, id);
      RunGrows(states, steps, m, n - 1, id);
      StateGrows(states[n - 1], steps[n - 1]);
      RunKeeps(states, steps, n - 1);
      RunKeeps(states, steps, n);
      CorkHolds(states, steps, m, n - 1, id);
      CorkHoldsStep(states[n - 1], steps[n - 1], states[n], id);
    }
  }

  // ---------------------------------------------------------------- what is not guaranteed

  lemma ReachInitial()
    ensures Reachable(INITIAL)
  {
    assert Run([INITIAL], []);
  }

  lemma ReachStep(s: State, step: Step, s': State)
    requires Reachable(s) && Apply(s, step) == Some(s')
    ensures Reachable(s')
  {
    hide Apply;
    var states, steps :| Run(states, steps) && s in states;
    var n :| 0 <= n < |states| && states[n] == s;
    var states', steps' := states[..n + 1] + [s'], steps[..n] + [step];
    forall i | 0 <= i < |steps'| ensures Apply(states'[i], steps'[i]) == Some(states'[i + 1]) {
      if i < n { assert Apply(states[i], steps[i]) == Some(states[i + 1]); }
    }
    assert Run(states', steps') && states'[n + 1] == s';
  }

  /** One client `c`, threads 0 and 1. */
  ghost predicate Scene(s: State, corked: bool, order: seq<Call>, th0: Thread, th1: Thread, c: Client) {
    && s.corked == corked && s.epoch == 0 && s.order == order && s.list == [0] && s.clients.Keys == {0}
    && s.clients[0] == c && ThreadOf(s, 0) == th0 && ThreadOf(s, 1) == th1 && (s.lock.None? <==> !th0.Sending?)
  }

  /** The state after a step of the protocol. */
  lemma Take(s: State, step: Step) returns (s': State)
    requires Apply(s, step).Some?
    ensures Apply(s, step) == Some(s') && (Reachable(s) ==> Reachable(s'))
  {
    s' := Apply(s, step).value;
    hide Apply;
    if Reachable(s) { ReachStep(s, step, s'); }
  }

  /** A client joins and call 0 is sent to it by thread 0. */
  lemma SceneSending(pool: bool) returns (s: State)
    ensures Reachable(s)
    ensures Scene(s, false, [Call(false)], Sending(0, [0], []), Idle,
                  Client(Sync, pool, true, 0, [], [], [], [], [], map[]))
  {
    ReachInitial();
    hide Reachable;
    s := Take(INITIAL, Join(Sync, pool));
    assert Scene(s, false, [], Idle, Idle, Client(Sync, pool, true, 0, [], [], [], [], [], map[]));
    s := Take(s, Begin(0, false));
  }

  lemma SceneSent(pool: bool) returns (s: State)
    ensures Reachable(s)
    ensures Scene(s, false, [Call(false)], Waiting(0, [0]), Idle,
                  Client(Sync, pool, true, 0, [0], [SyncOp(0, 0)], [], [], [], map[]))
  {
    hide Reachable;
    s := SceneSending(pool);
    s := Take(s, Send(0));
    s := Take(s, EndSend(0));
  }

  lemma SceneCorked() returns (s: State)
    ensures Reachable(s)
    ensures Scene(s, true, [Call(false)], Waiting(0, [0]), Corking(0, 1, [], Some(0), {}),
                  Client(Sync, true, true, 0, [0], [Cork(1, 1)], [Task(0, Some(0))], [], [], map[]))
  {
    s := SceneSent(true);
    hide Reachable;
    s := Take(s, Receive(0));
    s := Take(s, SetCork(1));
    s := Take(s, CorkList(1));
    s := Take(s, CorkSend(1));
  }

  /** A client with several threads reads on while calls are being executed, so it acknowledges a cork
      too early: the cork is complete and a call that was sent has not been executed. */
  lemma PoolEscapesCork() returns (s: State)
    ensures Reachable(s) && CorkFinished(s, 1) && LiveData(s, 0) && s.clients[0].pool
    ensures s.clients[0].sent == [0] && s.clients[0].executed == []
  {
    s := SceneCorked();
    hide Reachable;
    var busy := Client(Sync, true, true, 0, [0], [], [Task(0, Some(0))], [], [], map[]);
    s := Take(s, Receive(0));
    s := Take(s, Deliver(0));
    assert Scene(s, true, [Call(false)], Waiting(0, [0]), Corking(0, 1, [], Some(0), {}),
        busy.(slots := map[1 := Corked(1)]));
    s := Take(s, CorkAcked(1));
  }

  /** The states that follow when the wait of thread `t` for its first client times out. */
  function TimedOut(s: State, t: Tid): State
    requires ThreadOf(s, t).Waiting? && ThreadOf(s, t).waits != []
  {
    s.(threads := s.threads[t := Waiting(ThreadOf(s, t).call, ThreadOf(s, t).waits[1..])])
  }

  /** The steps lead from `s` to `s'`. */
  ghost predicate Leads(s: State, steps: seq<Step>, s': State)
    decreases |steps|
  {
    if steps == [] then s' == s
    else
      var m := Apply(s, steps[0]);
      m.Some? && Leads(m.value, steps[1..], s')
  }

  lemma {:induction false} LeadsOn(s: State, steps: seq<Step>, s': State, step: Step)
    requires Leads(s, steps, s') && Apply(s', step).Some?
    ensures Leads(s, steps + [step], Apply(s', step).value)
    decreases |steps|
  {
    hide Apply;
    if steps == [] {
      assert Leads(Apply(s, step).value, [step][1..], Apply(s', step).value);
    } else {
      LeadsOn(Apply(s, steps[0]).value, steps[1..], s', step);
      assert (steps + [step])[1..] == steps[1..] + [step];
    }
  }

  lemma Continue(s: State, steps: seq<Step>, s': State, step: Step) returns (steps': seq<Step>, s'': State)
    requires Leads(s, steps, s') && Apply(s', step).Some?
    ensures Leads(s, steps', s'') && Apply(s', step) == Some(s'')
  {
    steps', s'' := steps + [step], Apply(s', step).value;
    LeadsOn(s, steps, s', step);
  }

  /** A wait for call 0 times out and call 1 begins. */
  lemma SceneBegun() returns (s: State, steps: seq<Step>, s': State)
    ensures Reachable(s) && ThreadOf(s, 0) == Waiting(0, [0]) && Leads(TimedOut(s, 0), steps, s')
    ensures Scene(s', false, [Call(false), Call(false)], Sending(1, [0], []), Idle,
                  Client(Sync, false, true, 0, [0], [SyncOp(0, 0)], [], [], [], map[]))
  {
    s := SceneSent(false);
    steps, s' := [], TimedOut(s, 0);
    assert Leads(TimedOut(s, 0), steps, s');
    hide Reachable, Leads;
    steps, s' := Continue(TimedOut(s, 0), steps, s', Finish(0));
    steps, s' := Continue(TimedOut(s, 0), steps, s', Begin(0, false));
  }

  /** Call 1 is sent. */
  lemma SceneLate() returns (s: State, steps: seq<Step>, s': State)
    ensures Reachable(s) && ThreadOf(s, 0) == Waiting(0, [0]) && Leads(TimedOut(s, 0), steps, s')
    ensures Scene(s', false, [Call(false), Call(false)], Waiting(1, [0]), Idle,
                  Client(Sync, false, true, 0, [0, 1], [SyncOp(0, 0), SyncOp(1, 0)], [], [], [], map[]))
  {
    s, steps, s' := SceneBegun();
    hide Reachable, Leads;
    steps, s' := Continue(TimedOut(s, 0), steps, s', Send(0));
    steps, s' := Continue(TimedOut(s, 0), steps, s', EndSend(0));
  }

  /** The client executes call 0. */
  lemma SceneExecuted() returns (s: State, steps: seq<Step>, s': State)
    ensures Reachable(s) && ThreadOf(s, 0) == Waiting(0, [0]) && Leads(TimedOut(s, 0), steps, s')
    ensures Scene(s', false, [Call(false), Call(false)], Waiting(1, [0]), Idle,
                  Client(Sync, false, true, 0, [0, 1], [SyncOp(1, 0)], [], [0], [Ack(0, 0, Ret)], map[]))
  {
    s, steps, s' := SceneLate();
    hide Reachable, Leads;
    steps, s' := Continue(TimedOut(s, 0), steps, s', Receive(0));
    steps, s' := Continue(TimedOut(s, 0), steps, s', Execute(0, 0));
  }

  /** After a timeout a reply need not match: the late return code of call 0 waits in the slot of a thread
      that waits for call 1, which has not been executed. */
  lemma LateReply() returns (s: State, steps: seq<Step>, s': State)
    ensures Reachable(s) && ThreadOf(s, 0).Waiting? && ThreadOf(s, 0).waits != []
    ensures Leads(TimedOut(s, 0), steps, s') && LiveData(s', 0) && s'.clients[0].mode == Sync
    ensures ThreadOf(s', 0) == Waiting(1, [0]) && 0 in s'.clients[0].slots
    ensures s'.clients[0].slots[0] == Acked(0, Ret) && 1 !in s'.clients[0].executed
  {
    s, steps, s' := SceneExecuted();
    hide Reachable, Leads;
    steps, s' := Continue(TimedOut(s, 0), steps, s', Deliver(0));
  }
}
