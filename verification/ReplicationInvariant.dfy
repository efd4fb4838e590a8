/** What every step of the replication protocol keeps. */
module ReplicationInvariant {
  import opened Wrappers
  import opened Replication
  import opened Acknowledgements
  import opened ReplicaOrder

  // ---------------------------------------------------------------- the order of the server

  predicate Wants(mode: Mode, call: Call) {
    mode != Control && !(call.fsync && (mode == Async || mode == SemiSync))
  }

  /** The calls `lo..hi` of the server's order that are for a client of this mode. */
  function Wanted(order: seq<Call>, mode: Mode, lo: nat, hi: nat): seq<nat>
    requires hi <= |order|
  {
    if hi <= lo then [] else Wanted(order, mode, lo, hi - 1) + if Wants(mode, order[hi - 1]) then [hi - 1] else []
  }

  lemma {:induction false} WantedKept(order: seq<Call>, call: Call, mode: Mode, lo: nat, hi: nat)
    requires hi <= |order|
    ensures Wanted(order + [call], mode, lo, hi) == Wanted(order, mode, lo, hi)
  {
    if hi > lo { WantedKept(order, call, mode, lo, hi - 1); }
  }

  // ---------------------------------------------------------------- the invariant

  ghost predicate Distinct(ids: seq<ClientId>) {
    forall i, j | 0 <= i < j < |ids| :: ids[i] != ids[j]
  }

  /** The clients the current sender has not reached. */
  function Todo(s: State): seq<ClientId> {
    if s.lock.Some? && ThreadOf(s, s.lock.value).Sending? then ThreadOf(s, s.lock.value).todo else []
  }

  /** The number of calls that have been sent to every client. */
  function Limit(s: State): nat {
    if s.lock.Some? && |s.order| > 0 then |s.order| - 1 else |s.order|
  }

  /** The calls below this have been sent to client `id`. */
  function Upto(s: State, id: ClientId): nat {
    if id in Todo(s) then Limit(s) else |s.order|
  }

  ghost predicate LockOk(s: State) {
    && (forall t: Tid :: ThreadOf(s, t).Sending? <==> s.lock == Some(t))
    && (forall t: Tid :: ThreadOf(s, t).Sending? ==> ThreadOf(s, t).call + 1 == |s.order|)
    && (s.corked ==> s.lock.None?)
  }

  ghost predicate ListOk(s: State) {
    && Distinct(s.list) && (forall id :: id in s.list <==> id in s.clients)
    && (forall id | id in s.clients :: id < s.nextClient)
  }

  /** A thread that corked in the current epoch knows of all calls. */
  ghost predicate EpochOk(s: State, epoch: nat, at: nat) {
    at <= Limit(s) && epoch <= s.epoch && (epoch == s.epoch ==> s.corked && at == |s.order|)
  }

  /** The client has read all it was sent, and has executed it if it has one thread. */
  ghost predicate Quiet(c: Client) {
    if c.pool then forall k | k in c.sent :: Obtained(c, k) else c.executed == c.sent
  }

  ghost predicate TodoOk(clients: map<ClientId, Client>, todo: seq<ClientId>) {
    Distinct(todo) && forall id | id in todo :: id in clients
  }

  ghost predicate WaitsOk(next: ClientId, waits: seq<ClientId>) {
    Distinct(waits) && forall id | id in waits :: id < next
  }

  /** Every live data client has acknowledged the cork, or is still to be sent it, or is waited for; and
      those that have acknowledged it in the current epoch have nothing left to execute. */
  ghost predicate CorkingOk(s: State, th: Thread)
    requires th.Corking?
  {
    && TodoOk(s.clients, th.todo)
    && (th.wait.Some? ==>
         th.wait.value in s.clients && th.wait.value !in th.todo && s.clients[th.wait.value].mode != Control)
    && (forall id | id in s.clients ::
         || !s.clients[id].alive || s.clients[id].mode == Control
         || id in th.acked || id in th.todo || th.wait == Some(id))
    && (th.epoch == s.epoch ==> forall id | id in th.acked && id in s.clients :: Quiet(s.clients[id]))
  }

  ghost predicate ThreadOk(s: State, t: Tid) {
    match ThreadOf(s, t)
    case Idle => true
    case Sending(_, todo, waits) =>
      TodoOk(s.clients, todo) && WaitsOk(s.nextClient, waits) && forall id | id in waits :: id !in todo
    case Waiting(_, waits) => WaitsOk(s.nextClient, waits)
    case CorkSet(epoch, at) => EpochOk(s, epoch, at)
    case Corking(epoch, at, _, _, _) => EpochOk(s, epoch, at) && CorkingOk(s, ThreadOf(s, t))
  }

  ghost predicate MemberOk(order: seq<Call>, c: Client, upto: nat, limit: nat) {
    && c.joined <= limit && upto <= |order| && ClientOk(c, upto, limit)
    && (c.alive ==> c.sent == Wanted(order, c.mode, c.joined, upto))
  }

  /** What a client owes to a thread is what the thread waits for. */
  ghost predicate Conserved(s: State) {
    forall id, t, k | id in s.clients :: Owed(s.clients[id], t, k) == One(Awaits(ThreadOf(s, t), id, k))
  }

  ghost predicate MembersOk(s: State) {
    forall id | id in s.clients :: MemberOk(s.order, s.clients[id], Upto(s, id), Limit(s))
  }

  ghost predicate ThreadsOk(s: State) {
    forall t :: ThreadOk(s, t)
  }

  ghost predicate Inv(s: State) {
    LockOk(s) && ListOk(s) && ThreadsOk(s) && MembersOk(s) && Conserved(s)
  }

  lemma InvParts(s: State, t: Tid)
    requires Inv(s)
    ensures ThreadOk(s, t) && MembersOk(s) && Conserved(s) && LockOk(s) && ListOk(s)
  {
    hide ThreadOk, MembersOk, Conserved, LockOk, ListOk;
  }

  lemma InvInitially()
    ensures Inv(INITIAL)
  {
  }

  // ---------------------------------------------------------------- steps of one client

  /** A thread does not notice a step after which the same clients exist and, under a cork, none of them
      has more to execute than before. */
  lemma ThreadStill(s: State, s': State, t: Tid)
    requires ThreadOk(s, t) && ThreadOf(s', t) == ThreadOf(s, t)
    requires s'.order == s.order && s'.epoch == s.epoch && s'.corked == s.corked && Limit(s) <= Limit(s')
    requires s'.clients.Keys == s.clients.Keys && s.nextClient == s'.nextClient
    requires forall id | id in s.clients :: s'.clients[id].mode == s.clients[id].mode
    requires forall id | id in s.clients :: s'.clients[id].alive ==> s.clients[id].alive
    requires s.corked ==> forall id | id in s.clients && Quiet(s.clients[id]) :: Quiet(s'.clients[id])
    ensures ThreadOk(s', t)
  {
  }

  lemma ClientStep(s: State, id: ClientId, d: Client)
    requires Inv(s) && id in s.clients
    requires MemberOk(s.order, d, Upto(s, id), Limit(s))
    requires forall t, k :: Owed(d, t, k) == Owed(s.clients[id], t, k)
    requires d.mode == s.clients[id].mode && (d.alive ==> s.clients[id].alive) && (Quiet(s.clients[id]) ==> Quiet(d))
    ensures Inv(s.(clients := s.clients[id := d]))
  {
    hide MemberOk, Owed, Quiet, Awaits;
    var s' := s.(clients := s.clients[id := d]);
    assert forall t :: ThreadOf(s', t) == ThreadOf(s, t);
    forall t ensures ThreadOk(s', t) { assert ThreadOk(s, t); ThreadStill(s, s', t); }
    assert forall i :: Upto(s', i) == Upto(s, i);
  }

  lemma AtMostOneOwed(s: State, id: ClientId, t: Tid)
    requires Conserved(s) && id in s.clients
    ensures AtMostOne(s.clients[id], t)
  {
    hide Owed;
    var c := s.clients[id];
    assert forall k :: Owed(c, t, k) == One(Awaits(ThreadOf(s, t), id, k));
  }

  lemma ReceivedMember(order: seq<Call>, c: Client, upto: nat, limit: nat)
    requires MemberOk(order, c, upto, limit) && c.channel != [] && (c.pool || c.running == [])
    ensures MemberOk(order, Received(c), upto, limit)
    ensures Received(c).mode == c.mode && Received(c).alive == c.alive && (Quiet(c) ==> Quiet(Received(c)))
  {
    ReceivedOk(c, upto, limit);
    ReceivedFrame(c);
    ReceivedObtains(c);
    hide ClientOk, Wanted, Received, Obtained;
  }

  lemma ReceiveKeeps(s: State, id: ClientId)
    requires Inv(s) && Apply(s, Receive(id)).Some?
    ensures Inv(Apply(s, Receive(id)).value)
  {
    hide MemberOk, Inv, Owed, Upto, Limit, Received, Quiet;
    var c := s.clients[id];
    InvMember(s, id);
    ReceivedMember(s.order, c, Upto(s, id), Limit(s));
    forall t, k ensures Owed(Received(c), t, k) == Owed(c, t, k) { ReceivedOwed(c, t, k); }
    ClientStep(s, id, Received(c));
  }

  /** A client with one thread that is executing a call has not executed everything. */
  lemma BusyNotQuiet(c: Client)
    requires !c.pool && Fifo(c) && c.running != []
    ensures !Quiet(c)
  {
    CallsOne(c.running);
  }

  lemma ExecutedMember(order: seq<Call>, c: Client, i: nat, upto: nat, limit: nat)
    requires MemberOk(order, c, upto, limit) && i < |c.running|
    ensures MemberOk(order, Executed(c, i), upto, limit)
    ensures Executed(c, i).mode == c.mode && Executed(c, i).alive == c.alive && (Quiet(c) ==> Quiet(Executed(c, i)))
  {
    ExecutedOk(c, i, upto, limit);
    if !c.pool { BusyNotQuiet(c); }
    ExecutedObtains(c, i);
    hide ClientOk, Wanted, Obtained;
  }

  lemma ExecuteKeeps(s: State, id: ClientId, i: nat)
    requires Inv(s) && Apply(s, Execute(id, i)).Some?
    ensures Inv(Apply(s, Execute(id, i)).value)
  {
    hide MemberOk, Inv, Owed, Upto, Limit, Executed, Quiet;
    var c := s.clients[id];
    InvMember(s, id);
    ExecutedMember(s.order, c, i, Upto(s, id), Limit(s));
    forall t, k ensures Owed(Executed(c, i), t, k) == Owed(c, t, k) { ExecutedOwed(c, i, t, k); }
    ClientStep(s, id, Executed(c, i));
  }

  lemma SlotsQuiet(c: Client, d: Client)
    requires d == c.(acks := d.acks, slots := d.slots, alive := d.alive)
    ensures Quiet(d) == Quiet(c)
  {
  }

  lemma DeliveredMember(order: seq<Call>, c: Client, upto: nat, limit: nat)
    requires MemberOk(order, c, upto, limit) && c.acks != []
    ensures MemberOk(order, Delivered(c), upto, limit)
  {
    hide ClientOk, Wanted;
    DeliveredOk(c, upto, limit);
  }

  lemma DeliverKeeps(s: State, id: ClientId)
    requires Inv(s) && Apply(s, Deliver(id)).Some?
    ensures Inv(Apply(s, Deliver(id)).value)
  {
    hide Inv, Owed, AtMostOne, MemberOk, Upto, Limit, Quiet, Conserved, MembersOk, ThreadOk, LockOk, ListOk;
    var c := s.clients[id];
    InvMember(s, id);
    InvParts(s, 0);
    DeliveredMember(s.order, c, Upto(s, id), Limit(s));
    AtMostOneOwed(s, id, c.acks[0].tid);
    forall t, k ensures Owed(Delivered(c), t, k) == Owed(c, t, k) { DeliveredOwed(c, t, k); }
    assert Quiet(c) ==> Quiet(Delivered(c)) by { SlotsQuiet(c, Delivered(c)); }
    ClientStep(s, id, Delivered(c));
  }

  lemma DeadMember(order: seq<Call>, c: Client, upto: nat, limit: nat)
    requires MemberOk(order, c, upto, limit)
    ensures MemberOk(order, c.(alive := false), upto, limit)
  {
    var d := c.(alive := false);
    SlotsFlow(c, d);
    MeansSame(c, d);
    hide FlowOk, CodeMeans, CorkMeans;
    AcksStillMean(c, d);
  }

  lemma DeadOwed(c: Client)
    ensures forall t, k :: Owed(c.(alive := false), t, k) == Owed(c, t, k)
  {
  }

  lemma InvMember(s: State, id: ClientId)
    requires Inv(s) && id in s.clients
    ensures MemberOk(s.order, s.clients[id], Upto(s, id), Limit(s))
  {
  }

  lemma DieIs(s: State, id: ClientId)
    requires Apply(s, Die(id)).Some?
    ensures id in s.clients && Apply(s, Die(id)).value == s.(clients := s.clients[id := s.clients[id].(alive := false)])
  {
  }

  lemma DieKeeps(s: State, id: ClientId)
    requires Inv(s) && Apply(s, Die(id)).Some?
    ensures Inv(Apply(s, Die(id)).value)
  {
    hide Inv, MemberOk, Owed, Upto, Limit, Quiet, Apply;
    DieIs(s, id);
    var c := s.clients[id];
    var d := c.(alive := false);
    InvMember(s, id);
    DeadMember(s.order, c, Upto(s, id), Limit(s));
    DeadOwed(c);
    assert Quiet(c) ==> Quiet(d) by { SlotsQuiet(c, d); }
    hide Apply;
    ClientStep(s, id, d);
  }


  // ---------------------------------------------------------------- steps of threads that wait

  /** A step of thread `t` that changes neither what is sent nor what is waited for. */
  lemma ThreadStep(s: State, t: Tid, th: Thread)
    requires Inv(s) && !ThreadOf(s, t).Sending? && !th.Sending?
    requires ThreadOk(s.(threads := s.threads[t := th]), t)
    requires forall id, k | id in s.clients :: Awaits(th, id, k) == Awaits(ThreadOf(s, t), id, k)
    ensures Inv(s.(threads := s.threads[t := th]))
  {
    hide MemberOk, Owed, Quiet, Awaits;
    var s' := s.(threads := s.threads[t := th]);
    assert ThreadOf(s', t) == th;
    assert forall u | u != t :: ThreadOf(s', u) == ThreadOf(s, u);
    forall u | u != t ensures ThreadOk(s', u) { assert ThreadOk(s, u); ThreadStill(s, s', u); }
    assert forall i :: Upto(s', i) == Upto(s, i);
  }

  /** A step of thread `t` on client `id`. */
  lemma ThreadClientStep(s: State, t: Tid, th: Thread, id: ClientId, d: Client)
    requires Inv(s) && !ThreadOf(s, t).Sending? && !th.Sending? && id in s.clients
    requires ThreadOk(s.(threads := s.threads[t := th], clients := s.clients[id := d]), t)
    requires MemberOk(s.order, d, Upto(s, id), Limit(s))
    requires d.mode == s.clients[id].mode && d.alive == s.clients[id].alive && (Quiet(s.clients[id]) ==> Quiet(d))
    requires forall k, i | i in s.clients && i != id :: Awaits(th, i, k) == Awaits(ThreadOf(s, t), i, k)
    requires forall k :: Owed(d, t, k) == One(Awaits(th, id, k))
    requires forall u, k | u != t :: Owed(d, u, k) == Owed(s.clients[id], u, k)
    ensures Inv(s.(clients := s.clients[id := d], threads := s.threads[t := th]))
  {
    hide MemberOk, Owed, Quiet, Awaits;
    var s' := s.(clients := s.clients[id := d], threads := s.threads[t := th]);
    assert ThreadOf(s', t) == th;
    assert forall u | u != t :: ThreadOf(s', u) == ThreadOf(s, u);
    forall u | u != t ensures ThreadOk(s', u) { assert ThreadOk(s, u); ThreadStill(s, s', u); }
    assert forall i :: Upto(s', i) == Upto(s, i);
  }

  lemma DistinctTail(ids: seq<ClientId>)
    requires Distinct(ids) && ids != []
    ensures Distinct(ids[1..]) && ids[0] !in ids[1..]
    ensures forall id :: id in ids <==> id == ids[0] || id in ids[1..]
  {
    assert ids == [ids[0]] + ids[1..];
  }

  /** The reply in the slot of a thread that waits is the one it waits for. */
  lemma ReplyAwaited(s: State, t: Tid, id: ClientId)
    requires Conserved(s) && id in s.clients && t in s.clients[id].slots
    ensures Awaits(ThreadOf(s, t), id, ReplyToken(s.clients[id].slots[t]))
  {
    var k := ReplyToken(s.clients[id].slots[t]);
    assert Owed(s.clients[id], t, k) >= 1;
  }

  /** Consuming the reply settles what is owed. */
  lemma ConsumedSettles(s: State, t: Tid, id: ClientId)
    requires Conserved(s) && id in s.clients && t in s.clients[id].slots
    ensures forall k :: Owed(s.clients[id].(slots := s.clients[id].slots - {t}), t, k) == 0
    ensures forall u, k | u != t ::
              Owed(s.clients[id].(slots := s.clients[id].slots - {t}), u, k) == Owed(s.clients[id], u, k)
  {
    var c := s.clients[id];
    ReplyAwaited(s, t, id);
    forall u, k
      ensures Owed(c.(slots := c.slots - {t}), u, k) == Owed(c, u, k) - One(u == t && SlotOwes(c.slots, t, k)) {
      ConsumedOwed(c, t, u, k);
    }
    forall k ensures Owed(c.(slots := c.slots - {t}), t, k) == 0 {
      assert Owed(c, t, k) == One(Awaits(ThreadOf(s, t), id, k));
      hide Owed;
      assert SlotOwes(c.slots, t, k) <==> k == ReplyToken(c.slots[t]);
    }
  }

  lemma ConsumeKeeps(s: State, t: Tid)
    requires Inv(s) && Apply(s, Consume(t)).Some?
    ensures Inv(Apply(s, Consume(t)).value)
  {
    var th := ThreadOf(s, t);
    var id, th' := th.waits[0], Waiting(th.call, th.waits[1..]);
    assert ThreadOk(s, t);
    DistinctTail(th.waits);
    if id !in s.clients {
      assert ThreadOk(s.(threads := s.threads[t := th']), t);
      hide Inv;
      ThreadStep(s, t, th');
    } else {
      ConsumedSettles(s, t, id);
      ConsumedMember(s, t, id);
      hide Inv, MemberOk, Owed;
      ThreadClientStep(s, t, th', id, s.clients[id].(slots := s.clients[id].slots - {t}));
    }
  }

  lemma FinishKeeps(s: State, t: Tid)
    requires Inv(s) && Apply(s, Finish(t)).Some?
    ensures Inv(Apply(s, Finish(t)).value)
  {
    hide Inv;
    ThreadStep(s, t, Idle);
  }

  // ---------------------------------------------------------------- steps of threads that cork

  lemma SetCorkKeeps(s: State, t: Tid)
    requires Inv(s) && Apply(s, SetCork(t)).Some?
    ensures Inv(Apply(s, SetCork(t)).value)
  {
    hide MemberOk, Owed, Quiet;
    var s' := Apply(s, SetCork(t)).value;
    assert forall u | u != t :: ThreadOf(s', u) == ThreadOf(s, u);
    forall u | u != t ensures ThreadOk(s', u) { assert ThreadOk(s, u); }
    assert forall i :: Upto(s', i) == Upto(s, i);
  }

  lemma CorkListKeeps(s: State, t: Tid)
    requires Inv(s) && Apply(s, CorkList(t)).Some?
    ensures Inv(Apply(s, CorkList(t)).value)
  {
    var th := ThreadOf(s, t);
    assert ThreadOk(s, t);
    var th' := Corking(th.epoch, th.at, s.list, None, {});
    assert ThreadOk(s.(threads := s.threads[t := th']), t);
    hide ThreadOk, Inv;
    ThreadStep(s, t, th');
  }

  lemma CorkDoneKeeps(s: State, t: Tid)
    requires Inv(s) && Apply(s, CorkDone(t)).Some?
    ensures Inv(Apply(s, CorkDone(t)).value)
  {
    hide Inv;
    ThreadStep(s, t, Idle);
  }

  lemma CorkSendOwes(s: State, t: Tid, id: ClientId, at: nat)
    requires Conserved(s) && id in s.clients && ThreadOf(s, t).Corking? && ThreadOf(s, t).wait.None?
    ensures forall k :: Owed(Sent(s.clients[id], Cork(t, at)), t, k) == One(k == CorkToken(at))
    ensures forall u, k | u != t :: Owed(Sent(s.clients[id], Cork(t, at)), u, k) == Owed(s.clients[id], u, k)
  {
    var c := s.clients[id];
    forall u, k ensures Owed(Sent(c, Cork(t, at)), u, k) == Owed(c, u, k) + One(u == t && k == CorkToken(at)) {
      SentOwed(c, Cork(t, at), u, k);
    }
    hide Owed;
    forall k ensures Owed(c, t, k) == 0 {
      assert Owed(c, t, k) == One(Awaits(ThreadOf(s, t), id, k));
    }
  }

  /** The corking thread after it skips, or sends to, the next client. */
  lemma CorkSentThread(s: State, th: Thread, th': Thread)
    requires th.Corking? && CorkingOk(s, th) && th.wait.None? && th.todo != []
    requires th' == Corking(th.epoch, th.at, th.todo[1..], None, th.acked)
          || th' == Corking(th.epoch, th.at, th.todo[1..], Some(th.todo[0]), th.acked)
    requires th'.wait.None? ==> !s.clients[th.todo[0]].alive || s.clients[th.todo[0]].mode == Control
    requires th'.wait.Some? ==> s.clients[th.todo[0]].mode != Control
    ensures CorkingOk(s, th')
  {
    hide Quiet;
    DistinctTail(th.todo);
  }

  lemma CorkSkipKeeps(s: State, t: Tid)
    requires Inv(s) && Apply(s, CorkSend(t)).Some?
    requires var c := s.clients[ThreadOf(s, t).todo[0]]; !c.alive || c.mode == Control
    ensures Inv(Apply(s, CorkSend(t)).value)
  {
    hide Inv, CorkingOk, MembersOk, Conserved, LockOk, ListOk;
    var th := ThreadOf(s, t);
    InvParts(s, t);
    var th' := Corking(th.epoch, th.at, th.todo[1..], None, th.acked);
    CorkSentThread(s, th, th');
    var s' := s.(threads := s.threads[t := th']);
    CorkingStill(s, s', th');
    assert ThreadOk(s', t);
    hide ThreadOk;
    ThreadStep(s, t, th');
  }

  /** What a corking thread knows of the clients does not depend on their slots and channels. */
  lemma CorkingStill(s: State, s': State, th: Thread)
    requires th.Corking? && CorkingOk(s, th) && s'.epoch == s.epoch && s'.clients.Keys == s.clients.Keys
    requires forall id | id in s.clients :: s'.clients[id].mode == s.clients[id].mode
    requires forall id | id in s.clients :: s'.clients[id].alive == s.clients[id].alive
    requires forall id | id in s.clients && Quiet(s.clients[id]) :: Quiet(s'.clients[id])
    ensures CorkingOk(s', th)
  {
    hide Quiet;
  }

  /** A step of a corking thread on client `id`. */
  lemma CorkClientStep(s: State, t: Tid, th: Thread, id: ClientId, d: Client)
    requires Inv(s) && ThreadOf(s, t).Corking? && th.Corking? && id in s.clients
    requires th.epoch == ThreadOf(s, t).epoch && th.at == ThreadOf(s, t).at && CorkingOk(s, th)
    requires MemberOk(s.order, d, Upto(s, id), Limit(s))
    requires d.mode == s.clients[id].mode && d.alive == s.clients[id].alive && Quiet(d) == Quiet(s.clients[id])
    requires forall k, i | i in s.clients && i != id :: Awaits(th, i, k) == Awaits(ThreadOf(s, t), i, k)
    requires forall k :: Owed(d, t, k) == One(Awaits(th, id, k))
    requires forall u, k | u != t :: Owed(d, u, k) == Owed(s.clients[id], u, k)
    ensures Inv(s.(clients := s.clients[id := d], threads := s.threads[t := th]))
  {
    hide MemberOk, Owed, Quiet, Awaits, CorkingOk;
    var s' := s.(threads := s.threads[t := th], clients := s.clients[id := d]);
    CorkingStill(s, s', th);
    assert ThreadOk(s, t);
    assert ThreadOk(s', t);
    hide Inv, ThreadOk;
    ThreadClientStep(s, t, th, id, d);
  }

  lemma CorkSentMember(s: State, t: Tid, id: ClientId, at: nat)
    requires MembersOk(s) && id in s.clients && at <= Limit(s)
    ensures MemberOk(s.order, Sent(s.clients[id], Cork(t, at)), Upto(s, id), Limit(s))
  {
    var c := s.clients[id];
    assert MemberOk(s.order, c, Upto(s, id), Limit(s));
    SentOk(c, Cork(t, at), Upto(s, id), Upto(s, id), Limit(s));
    hide ClientOk, Wanted;
  }

  lemma CorkSendKeeps(s: State, t: Tid)
    requires Inv(s) && Apply(s, CorkSend(t)).Some?
    ensures Inv(Apply(s, CorkSend(t)).value)
  {
    hide Inv, MemberOk, Owed;
    var th := ThreadOf(s, t);
    var id := th.todo[0];
    if !s.clients[id].alive || s.clients[id].mode == Control {
      CorkSkipKeeps(s, t);
    } else {
      InvParts(s, t);
      CorkSentKeeps(s, t, th, id);
    }
  }

  lemma CorkSentKeeps(s: State, t: Tid, th: Thread, id: ClientId)
    requires Inv(s) && Apply(s, CorkSend(t)).Some? && ThreadOk(s, t) && th == ThreadOf(s, t) && id == th.todo[0]
    requires MembersOk(s) && Conserved(s) && s.clients[id].alive && s.clients[id].mode != Control
    ensures Inv(Apply(s, CorkSend(t)).value)
  {
    hide Inv, MembersOk, Conserved, MemberOk, Owed;
    var th' := Corking(th.epoch, th.at, th.todo[1..], Some(id), th.acked);
    CorkSentThread(s, th, th');
    CorkSentMember(s, t, id, th.at);
    CorkSendOwes(s, t, id, th.at);
    hide CorkingOk;
    CorkClientStep(s, t, th', id, Sent(s.clients[id], Cork(t, th.at)));
  }

  /** The acknowledgement of a cork in the current epoch: the client has executed all it was sent. */
  lemma CorkAckedQuiet(s: State, t: Tid, id: ClientId)
    requires Inv(s) && ThreadOf(s, t).Corking? && ThreadOf(s, t).epoch == s.epoch
    requires id in s.clients && t in s.clients[id].slots
    ensures Quiet(s.clients[id])
  {
    var c, at := s.clients[id], ThreadOf(s, t).at;
    ReplyAwaited(s, t, id);
    assert ThreadOk(s, t) && c.slots[t] == Corked(at);
    assert MemberOk(s.order, c, Upto(s, id), Limit(s));
    assert ReplyMeans(c, c.slots[t]);
    if !c.pool { AllExecuted(c); }
  }

  lemma CorkAckedThread(s: State, th: Thread, id: ClientId)
    requires th.Corking? && CorkingOk(s, th) && th.wait == Some(id)
    requires th.epoch == s.epoch ==> Quiet(s.clients[id])
    ensures CorkingOk(s, Corking(th.epoch, th.at, th.todo, None, th.acked + {id}))
  {
    hide Quiet;
  }

  lemma ConsumedMember(s: State, t: Tid, id: ClientId)
    requires MembersOk(s) && id in s.clients
    ensures MemberOk(s.order, s.clients[id].(slots := s.clients[id].slots - {t}), Upto(s, id), Limit(s))
  {
    assert MemberOk(s.order, s.clients[id], Upto(s, id), Limit(s));
    ConsumedOk(s.clients[id], t, Upto(s, id), Limit(s));
    hide ClientOk, Wanted;
  }

  lemma CorkAckedKeeps(s: State, t: Tid)
    requires Inv(s) && Apply(s, CorkAcked(t)).Some?
    ensures Inv(Apply(s, CorkAcked(t)).value)
  {
    hide Inv, MemberOk, Owed, CorkingOk, Conserved, MembersOk, LockOk, ListOk, Quiet;
    var th := ThreadOf(s, t);
    var id := th.wait.value;
    InvParts(s, t);
    if th.epoch == s.epoch { CorkAckedQuiet(s, t, id); }
    CorkAckedThread(s, th, id);
    ConsumedSettles(s, t, id);
    ConsumedMember(s, t, id);
    assert Quiet(s.clients[id].(slots := s.clients[id].slots - {t})) == Quiet(s.clients[id]) by {
      SlotsQuiet(s.clients[id], s.clients[id].(slots := s.clients[id].slots - {t}));
    }
    CorkClientStep(s, t, Corking(th.epoch, th.at, th.todo, None, th.acked + {id}), id,
                   s.clients[id].(slots := s.clients[id].slots - {t}));
  }

  // ---------------------------------------------------------------- steps of the thread that holds the lock

  lemma MoreAllowed(c: Client, upto: nat, limit: nat, upto': nat, limit': nat)
    requires ClientOk(c, upto, limit) && upto <= upto' && limit <= limit'
    ensures ClientOk(c, upto', limit')
  {
  }

  lemma BeginMember(order: seq<Call>, call: Call, c: Client)
    requires MemberOk(order, c, |order|, |order|)
    ensures MemberOk(order + [call], c, |order|, |order|)
  {
    hide ClientOk;
    WantedKept(order, call, c.mode, c.joined, |order|);
  }

  /** The thread that begins a call has every client to send it to. */
  lemma BeginThread(s: State, t: Tid)
    requires ListOk(s)
    ensures TodoOk(s.clients, s.list) && WaitsOk(s.nextClient, [])
  {
  }

  lemma BeginAwaits(call: nat, todo: seq<ClientId>, id: ClientId, k: Token)
    ensures !Awaits(Sending(call, todo, []), id, k) && !Awaits(Idle, id, k)
  {
  }

  lemma BeginKeeps(s: State, t: Tid, fsync: bool)
    requires Inv(s) && Apply(s, Begin(t, fsync)).Some?
    ensures Inv(Apply(s, Begin(t, fsync)).value)
  {
    hide MemberOk, Owed, Quiet, Awaits;
    var s' := Apply(s, Begin(t, fsync)).value;
    BeginThread(s, t);
    hide TodoOk, WaitsOk, Distinct;
    assert forall u | u != t :: ThreadOf(s', u) == ThreadOf(s, u);
    forall u | u != t ensures ThreadOk(s', u) { assert ThreadOk(s, u); }
    forall id, u, k | id in s'.clients ensures Owed(s'.clients[id], u, k) == One(Awaits(ThreadOf(s', u), id, k)) {
      assert Owed(s.clients[id], u, k) == One(Awaits(ThreadOf(s, u), id, k));
      if u == t { BeginAwaits(|s.order|, s.list, id, k); }
    }
    forall id | id in s'.clients ensures MemberOk(s'.order, s'.clients[id], Upto(s', id), Limit(s')) {
      assert MemberOk(s.order, s.clients[id], Upto(s, id), Limit(s));
      BeginMember(s.order, Call(fsync), s.clients[id]);
    }
  }

  lemma EndSendKeeps(s: State, t: Tid)
    requires Inv(s) && Apply(s, EndSend(t)).Some?
    ensures Inv(Apply(s, EndSend(t)).value)
  {
    hide MemberOk, Owed, Quiet, Awaits, Apply;
    EndSendIs(s, t);
    var s' := Apply(s, EndSend(t)).value;
    assert ThreadOk(s, t);
    assert forall u | u != t :: ThreadOf(s', u) == ThreadOf(s, u);
    forall u | u != t ensures ThreadOk(s', u) { assert ThreadOk(s, u); ThreadStill(s, s', u); }
    forall id | id in s'.clients ensures MemberOk(s'.order, s'.clients[id], Upto(s', id), Limit(s')) {
      assert MemberOk(s.order, s.clients[id], Upto(s, id), Limit(s));
      MoreMember(s.order, s.clients[id], Upto(s, id), Limit(s), Limit(s'));
    }
    forall id, u, k | id in s'.clients ensures Owed(s'.clients[id], u, k) == One(Awaits(ThreadOf(s', u), id, k)) {
      assert Owed(s.clients[id], u, k) == One(Awaits(ThreadOf(s, u), id, k));
      if u == t { EndSendAwaits(ThreadOf(s, t), id, k); }
    }
  }

  lemma EndSendIs(s: State, t: Tid)
    requires Apply(s, EndSend(t)).Some?
    ensures var th := ThreadOf(s, t);
      && th.Sending? && th.todo == []
      && Apply(s, EndSend(t)).value == s.(lock := None, threads := s.threads[t := Waiting(th.call, th.waits)])
  {
  }

  lemma EndSendAwaits(th: Thread, id: ClientId, k: Token)
    requires th.Sending?
    ensures Awaits(Waiting(th.call, th.waits), id, k) == Awaits(th, id, k)
  {
  }

  lemma MoreMember(order: seq<Call>, c: Client, upto: nat, limit: nat, limit': nat)
    requires MemberOk(order, c, upto, limit) && limit <= limit'
    ensures MemberOk(order, c, upto, limit')
  {
    hide Wanted, ClientOk;
    MoreAllowed(c, upto, limit, upto, limit');
  }

  /** Sending the current call to the next client: the client has then been sent all that is meant for it. */
  lemma SendMember(order: seq<Call>, c: Client, t: Tid)
    requires order != [] && MemberOk(order, c, |order| - 1, |order| - 1)
    ensures var n := |order| - 1;
      var m := Message(c.mode, order[n].fsync, n, t);
      MemberOk(order, if m.None? || !c.alive then c else Sent(c, m.value), |order|, n)
  {
    var n := |order| - 1;
    var m := Message(c.mode, order[n].fsync, n, t);
    assert m.Some? <==> Wants(c.mode, order[n]);
    if m.None? || !c.alive {
      MoreAllowed(c, n, n, n + 1, n);
    } else {
      SentOk(c, m.value, n, n + 1, n);
    }
    hide ClientOk;
  }

  /** What is owed after the current call was sent to the next client. */
  lemma SendOwes(s: State, t: Tid, id: ClientId, fsync: bool, m: Msg)
    requires Conserved(s) && id in s.clients && ThreadOf(s, t).Sending? && id !in ThreadOf(s, t).waits
    requires Message(s.clients[id].mode, fsync, ThreadOf(s, t).call, t) == Some(m)
    ensures forall k :: Owed(Sent(s.clients[id], m), t, k) == One(m.SyncOp? && k == OpToken(ThreadOf(s, t).call))
    ensures forall u, k | u != t :: Owed(Sent(s.clients[id], m), u, k) == Owed(s.clients[id], u, k)
  {
    var c := s.clients[id];
    forall u, k
      ensures Owed(Sent(c, m), u, k) == Owed(c, u, k) + One(u == t && m.SyncOp? && k == OpToken(ThreadOf(s, t).call)) {
      SentOwed(c, m, u, k);
    }
    hide Owed;
    forall k ensures Owed(c, t, k) == 0 {
      assert Owed(c, t, k) == One(Awaits(ThreadOf(s, t), id, k));
    }
  }

  /** The thread with the lock goes on to the next client, and the client becomes `d`. */
  function Handed(s: State, t: Tid, th: Thread, id: ClientId, d: Client): State {
    s.(clients := s.clients[id := d], threads := s.threads[t := th])
  }

  ghost predicate NextSend(s: State, t: Tid, th: Thread, id: ClientId, d: Client) {
    var was := ThreadOf(s, t);
    && s.lock == Some(t) && was.Sending? && was.todo != [] && id == was.todo[0] && id in s.clients
    && th.Sending? && th.call == was.call && th.todo == was.todo[1..]
    && (th.waits == was.waits || th.waits == was.waits + [id])
    && d.mode == s.clients[id].mode && d.alive == s.clients[id].alive
  }

  lemma HandedThreads(s: State, t: Tid, th: Thread, id: ClientId, d: Client)
    requires LockOk(s) && ListOk(s) && ThreadsOk(s) && NextSend(s, t, th, id, d)
    ensures var s' := Handed(s, t, th, id, d); LockOk(s') && ListOk(s') && ThreadsOk(s')
  {
    hide Quiet;
    var s' := Handed(s, t, th, id, d);
    assert ThreadOk(s, t);
    DistinctTail(ThreadOf(s, t).todo);
    assert ThreadOf(s', t) == th && ThreadOk(s', t);
    hide CorkingOk, EpochOk, TodoOk, WaitsOk;
    assert forall u | u != t :: ThreadOf(s', u) == ThreadOf(s, u);
    forall u | u != t ensures ThreadOk(s', u) {
      assert ThreadOk(s, u);
      ThreadStill(s, s', u);
    }
  }

  lemma HandedMembers(s: State, t: Tid, th: Thread, id: ClientId, d: Client)
    requires LockOk(s) && ThreadsOk(s) && MembersOk(s) && NextSend(s, t, th, id, d)
    requires MemberOk(s.order, d, |s.order|, Limit(s))
    ensures MembersOk(Handed(s, t, th, id, d))
  {
    hide MemberOk;
    var s' := Handed(s, t, th, id, d);
    assert ThreadOk(s, t);
    DistinctTail(ThreadOf(s, t).todo);
    forall i | i in s'.clients ensures MemberOk(s'.order, s'.clients[i], Upto(s', i), Limit(s')) {
      if i != id { assert Upto(s', i) == Upto(s, i); }
    }
  }

  lemma HandedOwed(s: State, t: Tid, th: Thread, id: ClientId, d: Client)
    requires Conserved(s) && NextSend(s, t, th, id, d)
    requires forall k :: Owed(d, t, k) == One(Awaits(th, id, k))
    requires forall u, k | u != t :: Owed(d, u, k) == Owed(s.clients[id], u, k)
    ensures Conserved(Handed(s, t, th, id, d))
  {
    hide Owed;
  }

  lemma SendStep(s: State, t: Tid, th: Thread, id: ClientId, d: Client)
    requires Inv(s) && NextSend(s, t, th, id, d)
    requires MemberOk(s.order, d, |s.order|, Limit(s))
    requires forall k :: Owed(d, t, k) == One(Awaits(th, id, k))
    requires forall u, k | u != t :: Owed(d, u, k) == Owed(s.clients[id], u, k)
    ensures Inv(Handed(s, t, th, id, d))
  {
    hide MemberOk, Owed, Conserved, MembersOk, ThreadsOk, LockOk, ListOk, NextSend, Handed, Limit;
    HandedThreads(s, t, th, id, d);
    HandedMembers(s, t, th, id, d);
    HandedOwed(s, t, th, id, d);
  }

  lemma SendSkips(s: State, t: Tid)
    requires Inv(s) && s.lock == Some(t) && ThreadOf(s, t).todo != [] && ThreadOf(s, t).todo[0] in s.clients
    requires MemberOk(s.order, s.clients[ThreadOf(s, t).todo[0]], |s.order|, Limit(s))
    ensures var th := ThreadOf(s, t); Inv(s.(threads := s.threads[t := Sending(th.call, th.todo[1..], th.waits)]))
  {
    var th := ThreadOf(s, t);
    var id := th.todo[0];
    var c := s.clients[id];
    assert s.clients[id := c] == s.clients;
    hide MemberOk, Owed;
    assert forall u, k :: Owed(c, u, k) == One(Awaits(ThreadOf(s, u), id, k));
    SendStep(s, t, Sending(th.call, th.todo[1..], th.waits), id, c);
  }

  lemma SendGuard(s: State, t: Tid)
    requires Apply(s, Send(t)).Some?
    ensures var th := ThreadOf(s, t);
      && th.Sending? && th.todo != [] && th.todo[0] in s.clients && th.call < |s.order|
      && var c := s.clients[th.todo[0]];
         var m := Message(c.mode, s.order[th.call].fsync, th.call, t);
         Apply(s, Send(t)).value ==
           if m.None? || !c.alive then s.(threads := s.threads[t := Sending(th.call, th.todo[1..], th.waits)])
           else Handed(s, t, Reaching(th, m.value), th.todo[0], Sent(c, m.value))
  {
    hide Message, Sent;
  }

  /** The sending thread after it has sent `m`. */
  function Reaching(th: Thread, m: Msg): Thread
    requires th.Sending? && th.todo != []
  {
    Sending(th.call, th.todo[1..], if m.SyncOp? then th.waits + [th.todo[0]] else th.waits)
  }

  /** The member lemma at the client that the sender reaches next. */
  lemma SendReaches(s: State, t: Tid)
    requires Inv(s) && Apply(s, Send(t)).Some?
    ensures s.lock == Some(t) && ThreadOf(s, t).todo[0] !in ThreadOf(s, t).waits
    ensures var th := ThreadOf(s, t);
      var c := s.clients[th.todo[0]];
      var m := Message(c.mode, s.order[th.call].fsync, th.call, t);
      MemberOk(s.order, if m.None? || !c.alive then c else Sent(c, m.value), |s.order|, Limit(s))
  {
    hide MemberOk, Message, Inv, ListOk, MembersOk, Conserved, Apply;
    SendGuard(s, t);
    InvParts(s, t);
    var id := ThreadOf(s, t).todo[0];
    InvMember(s, id);
    SendMember(s.order, s.clients[id], t);
  }

  lemma SendKeeps(s: State, t: Tid)
    requires Inv(s) && Apply(s, Send(t)).Some?
    ensures Inv(Apply(s, Send(t)).value)
  {
    hide Inv, MemberOk, Owed, Message, Limit, Conserved, LockOk, ListOk, ThreadOk, MembersOk, Apply, Handed;
    SendGuard(s, t);
    var th := ThreadOf(s, t);
    var id := th.todo[0];
    var c := s.clients[id];
    var m := Message(c.mode, s.order[th.call].fsync, th.call, t);
    InvParts(s, t);
    SendReaches(s, t);
    if m.None? || !c.alive {
      SendSkips(s, t);
    } else {
      SendOwes(s, t, id, s.order[th.call].fsync, m.value);
      SendStep(s, t, Reaching(th, m.value), id, Sent(c, m.value));
    }
  }

  // ---------------------------------------------------------------- steps of all clients

  function Uncorked(c: Client): Client {
    if c.alive then Sent(c, Uncork) else c
  }

  lemma UncorkedMember(order: seq<Call>, c: Client, upto: nat, limit: nat)
    requires MemberOk(order, c, upto, limit)
    ensures MemberOk(order, Uncorked(c), upto, limit)
  {
    SentOk(c, Uncork, upto, upto, limit);
    hide ClientOk, Wanted;
  }

  lemma UncorkedOwes(c: Client)
    ensures forall t, k :: Owed(Uncorked(c), t, k) == Owed(c, t, k)
  {
    forall t, k ensures Owed(Uncorked(c), t, k) == Owed(c, t, k) { SentOwed(c, Uncork, t, k); }
  }

  lemma UncorkKeeps(s: State, t: Tid)
    requires Inv(s) && Apply(s, UncorkAll(t)).Some?
    ensures Inv(Apply(s, UncorkAll(t)).value)
  {
    hide MemberOk, Owed, Quiet, Awaits;
    var s' := Apply(s, UncorkAll(t)).value;
    assert forall id | id in s.clients :: s'.clients[id] == Uncorked(s.clients[id]);
    assert forall u :: ThreadOf(s', u) == ThreadOf(s, u);
    forall u ensures ThreadOk(s', u) { assert ThreadOk(s, u); }
    forall id | id in s'.clients ensures MemberOk(s'.order, s'.clients[id], Upto(s', id), Limit(s')) {
      assert MemberOk(s.order, s.clients[id], Upto(s, id), Limit(s));
      UncorkedMember(s.order, s.clients[id], Upto(s, id), Limit(s));
    }
    forall id, u, k | id in s'.clients ensures Owed(s'.clients[id], u, k) == One(Awaits(ThreadOf(s', u), id, k)) {
      assert Owed(s.clients[id], u, k) == One(Awaits(ThreadOf(s, u), id, k));
      UncorkedOwes(s.clients[id]);
    }
  }

  lemma {:induction false} WithoutIs(list: seq<ClientId>, id: ClientId)
    requires Distinct(list)
    ensures Distinct(Without(list, id)) && forall i :: i in Without(list, id) <==> i in list && i != id
  {
    if list != [] {
      DistinctTail(list);
      WithoutIs(list[1..], id);
    }
  }

  /** Nobody holds the list for reading: nobody sends. */
  lemma ListFreeUnlocked(s: State)
    requires LockOk(s)
    ensures ListFree(s) ==> s.lock.None?
  {
    if s.lock.Some? { assert ThreadOf(s, s.lock.value).Sending?; }
  }

  lemma HarvestKeeps(s: State, id: ClientId)
    requires Inv(s) && Apply(s, Harvest(id)).Some?
    ensures Inv(Apply(s, Harvest(id)).value)
  {
    hide MemberOk, Owed, Awaits;
    var s' := Apply(s, Harvest(id)).value;
    ListFreeUnlocked(s);
    WithoutIs(s.list, id);
    assert forall u :: ThreadOf(s', u) == ThreadOf(s, u);
    forall u ensures ThreadOk(s', u) { assert ThreadOk(s, u); }
    assert forall i :: Upto(s', i) == Upto(s, i);
  }

  lemma DistinctAppend(ids: seq<ClientId>, id: ClientId)
    requires Distinct(ids) && id !in ids
    ensures Distinct(ids + [id])
  {
    assert forall i | 0 <= i < |ids| :: ids[i] in ids;
  }

  lemma NewMember(order: seq<Call>, mode: Mode, pool: bool)
    requires pool ==> mode == Sync
    ensures var c := Client(mode, pool, true, |order|, [], [], [], [], [], map[]);
      MemberOk(order, c, |order|, |order|) && forall t, k :: Owed(c, t, k) == 0
  {
  }

  lemma JoinKeeps(s: State, mode: Mode, pool: bool)
    requires Inv(s) && Apply(s, Join(mode, pool)).Some?
    ensures Inv(Apply(s, Join(mode, pool)).value)
  {
    hide MemberOk, Owed;
    var s' := Apply(s, Join(mode, pool)).value;
    ListFreeUnlocked(s);
    DistinctAppend(s.list, s.nextClient);
    assert ListOk(s');
    assert forall u :: ThreadOf(s', u) == ThreadOf(s, u);
    forall u ensures ThreadOk(s', u) { assert ThreadOk(s, u); }
    NewMember(s.order, mode, pool);
    assert MembersOk(s') by {
      assert forall i :: Upto(s', i) == Upto(s, i);
    }
    forall t, k ensures !Awaits(ThreadOf(s', t), s.nextClient, k) { assert ThreadOk(s, t); }
    hide ThreadOk, Awaits;
  }

  // ---------------------------------------------------------------- runs

  /** Every step keeps the invariant. */
  lemma StepKeeps(s: State, step: Step)
    requires Inv(s) && Apply(s, step).Some?
    ensures Inv(Apply(s, step).value)
  {
    hide Inv;
    match step
    case Begin(t, fsync) => BeginKeeps(s, t, fsync);
    case Send(t) => SendKeeps(s, t);
    case EndSend(t) => EndSendKeeps(s, t);
    case Consume(t) => ConsumeKeeps(s, t);
    case Finish(t) => FinishKeeps(s, t);
    case SetCork(t) => SetCorkKeeps(s, t);
    case CorkList(t) => CorkListKeeps(s, t);
    case CorkSend(t) => CorkSendKeeps(s, t);
    case CorkAcked(t) => CorkAckedKeeps(s, t);
    case CorkDone(t) => CorkDoneKeeps(s, t);
    case UncorkAll(t) => UncorkKeeps(s, t);
    case Receive(id) => ReceiveKeeps(s, id);
    case Execute(id, i) => ExecuteKeeps(s, id, i);
    case Deliver(id) => DeliverKeeps(s, id);
    case Die(id) => DieKeeps(s, id);
    case Harvest(id) => HarvestKeeps(s, id);
    case Join(mode, pool) => JoinKeeps(s, mode, pool);
  }

  /** The invariant holds throughout every run. */
  lemma {:induction false} RunKeeps(states: seq<State>, steps: seq<Step>, n: nat)
    requires Run(states, steps) && n < |states|
    ensures Inv(states[n])
  {
    if n == 0 {
      InvInitially();
    } else {
      RunKeeps(states, steps, n - 1);
      hide Inv, Apply;
      assert Apply(states[n - 1], steps[n - 1]) == Some(states[n - 1 + 1]);
      StepKeeps(states[n - 1], steps[n - 1]);
    }
  }
}
