/**
 The replication protocol never gets stuck: as long as the clients that are waited for stay connected, every thread can
 finish what it is doing, and the server can always come to rest.
 */
module ReplicationProgress {
  import opened Wrappers
  import opened Replication
  import opened Acknowledgements
  import opened ReplicaOrder
  import opened ReplicationInvariant
  import opened ReplicationTheorems

  // ---------------------------------------------------------------- runs

  lemma {:induction false} LeadsTrans(s: State, a: seq<Step>, m: State, b: seq<Step>, s': State)
    requires Leads(s, a, m) && Leads(m, b, s')
    ensures Leads(s, a + b, s')
    decreases |a|
  {
    hide Apply;
    if a == [] {
      assert a + b == b;
    } else {
      LeadsTrans(Apply(s, a[0]).value, a[1..], m, b, s');
      assert (a + b)[1..] == a[1..] + b;
    }
  }

  lemma LeadsOne(s: State, step: Step)
    requires Apply(s, step).Some?
    ensures Leads(s, [step], Apply(s, step).value)
  {
    hide Apply;
    assert [step][1..] == [];
  }

  /** A step, and then the steps that lead on from it. */
  lemma First(s: State, step: Step, steps: seq<Step>, s': State)
    requires Apply(s, step).Some? && Leads(Apply(s, step).value, steps, s')
    ensures Leads(s, [step] + steps, s')
  {
    hide Apply;
    LeadsOne(s, step);
    LeadsTrans(s, [step], Apply(s, step).value, steps, s');
  }

  // ---------------------------------------------------------------- one client

  /** Nothing is on the way to the client, in it, or on the way back. */
  ghost predicate Drained(c: Client) {
    c.channel == [] && c.running == [] && c.acks == []
  }

  /** `s'` is `s` but for the client `id`, which is drained. */
  ghost predicate DrainedIn(s: State, id: ClientId, s': State) {
    && id in s.clients && id in s'.clients && s' == s.(clients := s.clients[id := s'.clients[id]])
    && Drained(s'.clients[id]) && s'.clients[id].mode == s.clients[id].mode && s'.clients[id].pool == s.clients[id].pool
    && s'.clients[id].alive == s.clients[id].alive && s'.clients[id].sent == s.clients[id].sent
    && s'.clients[id].joined == s.clients[id].joined
  }

  /** What the client does next. */
  function NextOf(c: Client, id: ClientId): Step
    requires !(c.channel == [] && c.running == [] && c.acks == [])
  {
    if c.acks != [] then Deliver(id) else if c.running != [] then Execute(id, 0) else Receive(id)
  }

  function Work(c: Client): nat {
    4 * |c.channel| + 2 * |c.running| + |c.acks|
  }

  /** The client after that, on the state of the system. */
  function Worked(c: Client): Client
    requires !(c.channel == [] && c.running == [] && c.acks == [])
  {
    if c.acks != [] then Delivered(c) else if c.running != [] then Executed(c, 0) else Received(c)
  }

  lemma WorkLess(c: Client)
    requires !Drained(c)
    ensures var d := Worked(c);
      && Work(d) < Work(c) && d.mode == c.mode && d.pool == c.pool && d.alive == c.alive && d.sent == c.sent
      && d.joined == c.joined
  {
    if c.acks == [] && c.running == [] { ReceivedFrame(c); }
  }

  lemma NextWorks(s: State, id: ClientId)
    requires id in s.clients && s.clients[id].alive && !Drained(s.clients[id])
    ensures Apply(s, NextOf(s.clients[id], id)) == Some(s.(clients := s.clients[id := Worked(s.clients[id])]))
  {
    hide Received, Executed, Delivered;
  }

  /** A connected client reads, executes and acknowledges all that it was sent. */
  lemma {:induction false} Drain(s: State, id: ClientId) returns (steps: seq<Step>, s': State)
    requires Inv(s) && id in s.clients && s.clients[id].alive
    ensures Leads(s, steps, s') && Inv(s') && DrainedIn(s, id, s')
    decreases Work(s.clients[id])
  {
    hide Inv, Apply, NextOf, Worked;
    if Drained(s.clients[id]) {
      steps, s' := [], s;
    } else {
      hide Work;
      var step := NextOf(s.clients[id], id);
      NextWorks(s, id);
      WorkLess(s.clients[id]);
      var m := Apply(s, step).value;
      StepKeeps(s, step);
      var rest;
      rest, s' := Drain(m, id);
      steps := [step] + rest;
      First(s, step, rest, s');
    }
  }

  /** What a drained client owes is in the slot. */
  lemma DrainedOwes(c: Client, t: Tid, k: Token)
    requires Drained(c)
    ensures Owed(c, t, k) == One(SlotOwes(c.slots, t, k))
  {
  }

  /** A thread that waits for a drained client finds the reply in its slot. */
  lemma ReplyThere(s: State, t: Tid, id: ClientId, k: Token)
    requires Inv(s) && id in s.clients && Drained(s.clients[id]) && Awaits(ThreadOf(s, t), id, k)
    ensures t in s.clients[id].slots
  {
    assert Owed(s.clients[id], t, k) == One(Awaits(ThreadOf(s, t), id, k));
    DrainedOwes(s.clients[id], t, k);
  }

  // ---------------------------------------------------------------- one thread

  /** No call has begun, no client has come, gone or died, and no thread but `t` has moved. */
  ghost predicate Steady(s: State, t: Tid, s': State) {
    && s'.order == s.order && s'.corked == s.corked && s'.epoch == s.epoch && s'.list == s.list
    && s'.nextClient == s.nextClient && s'.clients.Keys == s.clients.Keys
    && (forall id | id in s.clients :: SameClient(s.clients[id], s'.clients[id]))
    && forall u | u != t :: ThreadOf(s', u) == ThreadOf(s, u)
  }

  ghost predicate SameClient(c: Client, d: Client) {
    d.mode == c.mode && d.pool == c.pool && d.alive == c.alive && d.joined == c.joined
  }

  lemma SteadyTrans(s: State, t: Tid, m: State, s': State)
    requires Steady(s, t, m) && Steady(m, t, s')
    ensures Steady(s, t, s')
  {
  }

  lemma SteadySelf(s: State, t: Tid)
    ensures Steady(s, t, s)
  {
  }

  lemma DrainSteady(s: State, id: ClientId, s': State, t: Tid)
    requires DrainedIn(s, id, s')
    ensures Steady(s, t, s') && ThreadOf(s', t) == ThreadOf(s, t) && s'.lock == s.lock
  {
  }

  /** The clients that the thread waits for. */
  function WaitsOf(th: Thread): seq<ClientId> {
    match th
    case Sending(_, _, waits) => waits
    case Waiting(_, waits) => waits
    case Corking(_, _, _, wait, _) => if wait.Some? then [wait.value] else []
    case _ => []
  }

  /** The clients that thread `t` waits for are connected, or gone. */
  ghost predicate Answered(s: State, t: Tid) {
    forall id | id in WaitsOf(ThreadOf(s, t)) && id in s.clients :: s.clients[id].alive
  }

  /** A step of thread `t`, after client `id` was drained. */
  lemma StepSteady(s: State, step: Step)
    requires Apply(s, step).Some?
    requires step.Send? || step.EndSend? || step.Consume? || step.Finish? || step.CorkList? || step.CorkSend?
             || step.CorkAcked? || step.CorkDone?
    ensures Steady(s, step.tid, Apply(s, step).value)
  {
    hide Received, Executed, Delivered, Message, Sent;
    if step.Send? || step.CorkSend? {
      SendSteady(s, step);
      hide Apply;
    }
  }

  lemma SendSteady(s: State, step: Step)
    requires Apply(s, step).Some? && (step.Send? || step.CorkSend?)
    ensures Steady(s, step.tid, Apply(s, step).value)
  {
    hide Received, Executed, Delivered, Message;
  }

  lemma ConsumeStep(s: State, t: Tid)
    requires Inv(s) && ThreadOf(s, t).Waiting? && ThreadOf(s, t).waits != []
    requires ThreadOf(s, t).waits[0] in s.clients ==> Drained(s.clients[ThreadOf(s, t).waits[0]])
    ensures var s' := Apply(s, Consume(t));
      && s'.Some? && ThreadOf(s'.value, t) == Waiting(ThreadOf(s, t).call, ThreadOf(s, t).waits[1..])
      && s'.value.lock == s.lock
  {
    var th := ThreadOf(s, t);
    var id := th.waits[0];
    if id in s.clients { ReplyThere(s, t, id, OpToken(th.call)); }
    hide Inv;
  }

  /** What one thread can do: it comes to rest. */
  ghost predicate Rests(s: State, t: Tid, steps: seq<Step>, s': State) {
    Leads(s, steps, s') && Inv(s') && Steady(s, t, s') && ThreadOf(s', t).Idle?
  }

  lemma RestsAfter(s: State, t: Tid, step: Step, m: State, rest: seq<Step>, s': State)
    requires Apply(s, step) == Some(m) && Steady(s, t, m) && Rests(m, t, rest, s')
    ensures Rests(s, t, [step] + rest, s')
  {
    hide Inv, Apply, Steady;
    First(s, step, rest, s');
    SteadyTrans(s, t, m, s');
  }

  lemma RestsDrained(s: State, t: Tid, id: ClientId, a: seq<Step>, m: State, rest: seq<Step>, s': State)
    requires Leads(s, a, m) && DrainedIn(s, id, m) && Rests(m, t, rest, s')
    ensures Rests(s, t, a + rest, s')
  {
    hide Inv, Apply, Steady, Leads, DrainedIn;
    DrainSteady(s, id, m, t);
    LeadsTrans(s, a, m, rest, s');
    SteadyTrans(s, t, m, s');
  }

  /** A thread that waits for replies gets them all. */
  lemma {:induction false} WaitEnds(s: State, t: Tid) returns (steps: seq<Step>, s': State)
    requires Inv(s) && ThreadOf(s, t).Waiting? && Answered(s, t)
    ensures Rests(s, t, steps, s') && s'.lock == s.lock
    decreases |ThreadOf(s, t).waits|
  {
    hide Inv, Steady, Leads, DrainedIn, Rests, Drained;
    var th := ThreadOf(s, t);
    var a, m := [], s;
    SteadySelf(s, t);
    if th.waits == [] {
      s' := Apply(s, Finish(t)).value;
      StepKeeps(s, Finish(t));
      StepSteady(s, Finish(t));
      LeadsOne(s, Finish(t));
      steps := [Finish(t)];
      assert Rests(s, t, steps, s') by { RestsIs(s, t, steps, s'); }
    } else {
      var id := th.waits[0];
      if id in s.clients {
        a, m := Drain(s, id);
        DrainSteady(s, id, m, t);
        assert Drained(m.clients[id]) by { DrainedOne(s, id, m); }
      }
      ConsumeStep(m, t);
      StepKeeps(m, Consume(t));
      StepSteady(m, Consume(t));
      var n := Apply(m, Consume(t)).value;
      assert Answered(n, t) by { StillAnswered(s, t, m, n); }
      hide Apply;
      var rest;
      rest, s' := WaitEnds(n, t);
      RestsAfter(m, t, Consume(t), n, rest, s');
      steps := [Consume(t)] + rest;
      if id in s.clients {
        RestsDrained(s, t, id, a, m, steps, s');
        steps := a + steps;
      }
    }
  }

  lemma RestsIs(s: State, t: Tid, steps: seq<Step>, s': State)
    requires Leads(s, steps, s') && Inv(s') && Steady(s, t, s') && ThreadOf(s', t).Idle?
    ensures Rests(s, t, steps, s')
  {
  }

  lemma DrainedOne(s: State, id: ClientId, s': State)
    requires DrainedIn(s, id, s')
    ensures Drained(s'.clients[id])
  {
  }

  lemma StillAnswered(s: State, t: Tid, m: State, n: State)
    requires Answered(s, t) && Steady(s, t, m) && Steady(m, t, n)
    requires forall id | id in WaitsOf(ThreadOf(n, t)) :: id in WaitsOf(ThreadOf(s, t))
    ensures Answered(n, t)
  {
    SteadyTrans(s, t, m, n);
  }

  lemma SendStep(s: State, t: Tid)
    requires Inv(s) && ThreadOf(s, t).Sending? && ThreadOf(s, t).todo != [] && Answered(s, t)
    ensures var s' := Apply(s, Send(t));
      && s'.Some? && ThreadOf(s'.value, t).Sending? && ThreadOf(s'.value, t).todo == ThreadOf(s, t).todo[1..]
      && Answered(s'.value, t)
  {
    hide Inv, Sent, MembersOk, Conserved, ListOk;
    var th := ThreadOf(s, t);
    InvParts(s, t);
    assert th.todo[0] in s.clients && th.call < |s.order|;
    hide ThreadOk, LockOk;
    var s' := Apply(s, Send(t)).value;
    SentAlive(s, t);
    forall id | id in WaitsOf(ThreadOf(s', t)) && id in s'.clients ensures s'.clients[id].alive {
      assert id in th.waits || (id == th.todo[0] && s.clients[id].alive);
    }
  }

  lemma SentAlive(s: State, t: Tid)
    requires Apply(s, Send(t)).Some?
    ensures var s' := Apply(s, Send(t)).value;
      s'.clients.Keys == s.clients.Keys && forall id | id in s.clients :: s'.clients[id].alive == s.clients[id].alive
  {
  }

  /** A thread that sends a call reaches every client, and then gets its replies. */
  lemma {:induction false} SendEnds(s: State, t: Tid) returns (steps: seq<Step>, s': State)
    requires Inv(s) && ThreadOf(s, t).Sending? && Answered(s, t)
    ensures Rests(s, t, steps, s') && s'.lock.None?
    decreases |ThreadOf(s, t).todo|
  {
    hide Inv, Steady, Leads, Rests;
    var step := if ThreadOf(s, t).todo == [] then EndSend(t) else Send(t);
    if ThreadOf(s, t).todo != [] { SendStep(s, t); }
    var m := Apply(s, step).value;
    StepKeeps(s, step);
    StepSteady(s, step);
    var rest;
    if step.EndSend? {
      assert Answered(m, t) && m.lock.None?;
      hide Apply;
      rest, s' := WaitEnds(m, t);
    } else {
      hide Apply;
      rest, s' := SendEnds(m, t);
    }
    RestsAfter(s, t, step, m, rest, s');
    steps := [step] + rest;
  }

  // ---------------------------------------------------------------- a cork

  lemma CorkAckedStep(s: State, t: Tid)
    requires Inv(s) && ThreadOf(s, t).Corking? && ThreadOf(s, t).wait.Some?
    requires ThreadOf(s, t).wait.value in s.clients && Drained(s.clients[ThreadOf(s, t).wait.value])
    ensures var s' := Apply(s, CorkAcked(t));
      && s'.Some? && ThreadOf(s'.value, t).Corking? && ThreadOf(s'.value, t).wait.None?
      && ThreadOf(s'.value, t).todo == ThreadOf(s, t).todo && s'.value.lock == s.lock
  {
    var th := ThreadOf(s, t);
    ReplyThere(s, t, th.wait.value, CorkToken(th.at));
    hide Inv;
  }

  lemma CorkSendStep(s: State, t: Tid)
    requires Inv(s) && ThreadOf(s, t).Corking? && ThreadOf(s, t).wait.None? && ThreadOf(s, t).todo != []
    ensures var s' := Apply(s, CorkSend(t));
      && s'.Some? && ThreadOf(s'.value, t).Corking? && |ThreadOf(s'.value, t).todo| < |ThreadOf(s, t).todo|
      && Answered(s'.value, t) && s'.value.lock == s.lock
  {
    hide Inv, ListOk, LockOk, MembersOk, Conserved, Sent;
    InvParts(s, t);
    assert ThreadOf(s, t).todo[0] in s.clients;
    hide ThreadOk;
    CorkSentAlive(s, t);
  }

  lemma CorkSentAlive(s: State, t: Tid)
    requires Apply(s, CorkSend(t)).Some?
    ensures Answered(Apply(s, CorkSend(t)).value, t)
  {
  }

  lemma CorkWaits(s: State, t: Tid)
    requires Inv(s) && ThreadOf(s, t).Corking? && ThreadOf(s, t).wait.Some?
    ensures ThreadOf(s, t).wait.value in s.clients
  {
    assert ThreadOk(s, t);
  }

  /** A thread that corks the server is acknowledged by every client. */
  lemma {:induction false} CorkEnds(s: State, t: Tid) returns (steps: seq<Step>, s': State)
    requires Inv(s) && ThreadOf(s, t).Corking? && Answered(s, t)
    ensures Rests(s, t, steps, s') && s'.lock == s.lock
    decreases |ThreadOf(s, t).todo|, |WaitsOf(ThreadOf(s, t))|
  {
    hide Inv, Steady, Leads, DrainedIn, Rests, Drained;
    var th := ThreadOf(s, t);
    if th.wait.Some? {
      CorkWaits(s, t);
      var id := th.wait.value;
      var a, m := Drain(s, id);
      DrainSteady(s, id, m, t);
      assert Drained(m.clients[id]) by { DrainedOne(s, id, m); }
      assert id in m.clients by { DrainedKnown(s, id, m); }
      CorkAckedStep(m, t);
      StepKeeps(m, CorkAcked(t));
      StepSteady(m, CorkAcked(t));
      var n := Apply(m, CorkAcked(t)).value;
      hide Apply;
      var rest;
      rest, s' := CorkEnds(n, t);
      RestsAfter(m, t, CorkAcked(t), n, rest, s');
      RestsDrained(s, t, id, a, m, [CorkAcked(t)] + rest, s');
      steps := a + ([CorkAcked(t)] + rest);
    } else if th.todo != [] {
      CorkSendStep(s, t);
      StepKeeps(s, CorkSend(t));
      StepSteady(s, CorkSend(t));
      var m := Apply(s, CorkSend(t)).value;
      hide Apply;
      var rest;
      rest, s' := CorkEnds(m, t);
      RestsAfter(s, t, CorkSend(t), m, rest, s');
      steps := [CorkSend(t)] + rest;
    } else {
      s' := Apply(s, CorkDone(t)).value;
      StepKeeps(s, CorkDone(t));
      StepSteady(s, CorkDone(t));
      LeadsOne(s, CorkDone(t));
      steps := [CorkDone(t)];
      RestsIs(s, t, steps, s');
    }
  }

  lemma DrainedKnown(s: State, id: ClientId, s': State)
    requires DrainedIn(s, id, s')
    ensures id in s'.clients
  {
  }

  /** Whatever a thread is doing, it can finish: the lock is free then, unless another thread holds it. */
  lemma ThreadEnds(s: State, t: Tid) returns (steps: seq<Step>, s': State)
    requires Inv(s) && Answered(s, t)
    ensures Rests(s, t, steps, s')
  {
    hide Inv, Steady, Leads, Rests;
    match ThreadOf(s, t)
    case Idle =>
      steps, s' := [], s;
      SteadySelf(s, t);
      assert Leads(s, [], s) by { LeadsNone(s); }
      RestsIs(s, t, steps, s');
    case Sending(_, _, _) => steps, s' := SendEnds(s, t);
    case Waiting(_, _) => steps, s' := WaitEnds(s, t);
    case Corking(_, _, _, _, _) => steps, s' := CorkEnds(s, t);
    case CorkSet(_, _) =>
      StepKeeps(s, CorkList(t));
      StepSteady(s, CorkList(t));
      var m := Apply(s, CorkList(t)).value;
      assert ThreadOf(m, t).Corking? && Answered(m, t);
      hide Apply;
      var rest;
      rest, s' := CorkEnds(m, t);
      RestsAfter(s, t, CorkList(t), m, rest, s');
      steps := [CorkList(t)] + rest;
  }

  lemma LeadsNone(s: State)
    ensures Leads(s, [], s)
  {
  }

  // ---------------------------------------------------------------- the whole system

  function Busy(s: State): set<Tid> {
    set t | t in s.threads && !ThreadOf(s, t).Idle?
  }

  /** The same calls and clients as before; `corked` aside. */
  ghost predicate SameWorld(s: State, s': State) {
    && s'.order == s.order && s'.clients.Keys == s.clients.Keys
    && forall id | id in s.clients :: SameClient(s.clients[id], s'.clients[id])
  }

  lemma SteadyWorld(s: State, t: Tid, m: State, s': State)
    requires Steady(s, t, m) && SameWorld(m, s')
    ensures SameWorld(s, s')
  {
  }

  lemma OneLess(s: State, t: Tid, m: State)
    requires Steady(s, t, m) && ThreadOf(m, t).Idle? && t in Busy(s)
    requires forall u :: Answered(s, u)
    ensures Busy(m) == Busy(s) - {t} && forall u :: Answered(m, u)
  {
    forall u ensures u in Busy(m) <==> u in Busy(s) && u != t {
      assert u != t ==> ThreadOf(m, u) == ThreadOf(s, u);
    }
    forall u ensures Answered(m, u) {
      if u != t { assert Answered(s, u) && ThreadOf(m, u) == ThreadOf(s, u); }
    }
  }

  /** All threads finish. */
  lemma {:induction false} AllEnd(s: State) returns (steps: seq<Step>, s': State)
    requires Inv(s) && forall t :: Answered(s, t)
    ensures Leads(s, steps, s') && Inv(s') && SameWorld(s, s') && forall t :: ThreadOf(s', t).Idle?
    decreases |Busy(s)|
  {
    hide Inv, Leads, Answered, Steady;
    if Busy(s) == {} {
      steps, s' := [], s;
      assert Leads(s, [], s) by { LeadsNone(s); }
      assert forall t | t in s.threads :: t !in Busy(s);
    } else {
      var t :| t in Busy(s);
      var a, m := ThreadEnds(s, t);
      OneLess(s, t, m);
      hide Busy;
      var rest;
      rest, s' := AllEnd(m);
      SteadyWorld(s, t, m, s');
      LeadsTrans(s, a, m, rest, s');
      steps := a + rest;
    }
  }

  function Undrained(s: State): set<ClientId> {
    set id | id in s.clients && s.clients[id].alive &&
             !(s.clients[id].channel == [] && s.clients[id].running == [] && s.clients[id].acks == [])
  }

  lemma DrainedLess(s: State, id: ClientId, m: State)
    requires DrainedIn(s, id, m) && id in Undrained(s)
    ensures Undrained(m) == Undrained(s) - {id} && SameWorld(s, m)
    ensures m.threads == s.threads && m.lock == s.lock && m.corked == s.corked
  {
  }

  /** All connected clients do all that they were sent. */
  lemma {:induction false} AllDrain(s: State) returns (steps: seq<Step>, s': State)
    requires Inv(s)
    ensures Leads(s, steps, s') && Inv(s') && SameWorld(s, s') && Undrained(s') == {}
    ensures s'.threads == s.threads && s'.lock == s.lock && s'.corked == s.corked
    decreases |Undrained(s)|
  {
    hide Inv, Leads, DrainedIn;
    if Undrained(s) == {} {
      steps, s' := [], s;
      assert Leads(s, [], s) by { LeadsNone(s); }
    } else {
      var id :| id in Undrained(s);
      var a, m := Drain(s, id);
      DrainedLess(s, id, m);
      hide Undrained;
      var rest;
      rest, s' := AllDrain(m);
      LeadsTrans(s, a, m, rest, s');
      steps := a + rest;
    }
  }

  /** The client has executed exactly the calls of the one order that are meant for it, each once, and in that order if
      it has one thread. */
  ghost predicate UpToDate(s: State, id: ClientId)
    requires id in s.clients
  {
    var c := s.clients[id];
    && c.sent == Wanted(s.order, c.mode, c.joined, |s.order|) && multiset(c.executed) == multiset(c.sent)
    && (!c.pool ==> c.executed == c.sent)
  }

  /** Nothing is going on: a call can begin on every thread, a client can join, one that died can be removed, and the
      connected ones are up to date. */
  ghost predicate AtRest(s: State) {
    && (forall t, fsync :: Apply(s, Begin(t, fsync)).Some?)
    && (forall mode, pool :: (pool ==> mode == Sync) <==> Apply(s, Join(mode, pool)).Some?)
    && (forall id | id in s.clients && !s.clients[id].alive :: Apply(s, Harvest(id)).Some?)
    && (forall t :: ThreadOf(s, t).Idle?)
    && forall id | LiveData(s, id) :: Drained(s.clients[id]) && UpToDate(s, id)
  }

  lemma NobodySends(s: State)
    requires LockOk(s)
    ensures (forall t :: !ThreadOf(s, t).Sending?) ==> s.lock.None?
  {
    if s.lock.Some? { assert ThreadOf(s, s.lock.value).Sending?; }
  }

  /** An uncork tells every connected client, and changes nothing else of it. */
  lemma UncorkTells(s: State, t: Tid, id: ClientId)
    requires Apply(s, UncorkAll(t)).Some? && id in s.clients
    ensures var s' := Apply(s, UncorkAll(t)).value;
      && s'.clients.Keys == s.clients.Keys && s'.order == s.order && s'.threads == s.threads && s'.lock == s.lock
      && !s'.corked
      && var c := s.clients[id];
         s'.clients[id] == c.(channel := c.channel + if c.alive then [Uncork] else [])
  {
  }

  lemma Uncorked(s: State)
    requires LockOk(s) && forall t :: ThreadOf(s, t).Idle?
    ensures var s' := Apply(s, UncorkAll(0));
      && s'.Some? && SameWorld(s, s'.value) && !s'.value.corked && s'.value.lock.None? && s'.value.threads == s.threads
  {
    NobodySends(s);
    var s' := Apply(s, UncorkAll(0)).value;
    assert s'.clients.Keys == s.clients.Keys;
    forall id | id in s.clients ensures SameClient(s.clients[id], s'.clients[id]) { UncorkTells(s, 0, id); }
    hide LockOk, SameClient;
  }

  lemma DrainedUpToDate(s: State, id: ClientId)
    requires Inv(s) && s.lock.None? && LiveData(s, id) && Drained(s.clients[id])
    ensures UpToDate(s, id)
  {
    hide Inv, Wanted;
    InvMember(s, id);
    assert Calls([]) == [] && Ops([]) == [];
  }

  lemma RestIs(s: State)
    requires Inv(s) && (forall t :: ThreadOf(s, t).Idle?) && !s.corked && s.lock.None? && Undrained(s) == {}
    ensures AtRest(s)
  {
    hide Inv, UpToDate;
    forall id | LiveData(s, id) ensures Drained(s.clients[id]) && UpToDate(s, id) {
      assert id !in Undrained(s);
      DrainedUpToDate(s, id);
    }
    hide Drained, Undrained;
    forall t, fsync ensures Apply(s, Begin(t, fsync)).Some? { RestEnables(s, t, fsync, Sync, false); }
    forall mode, pool ensures (pool ==> mode == Sync) <==> Apply(s, Join(mode, pool)).Some? {
      RestEnables(s, 0, false, mode, pool);
    }
    forall id | id in s.clients && !s.clients[id].alive ensures Apply(s, Harvest(id)).Some? {}
    hide Apply;
  }

  lemma RestEnables(s: State, t: Tid, fsync: bool, mode: Mode, pool: bool)
    requires (forall t :: ThreadOf(s, t).Idle?) && !s.corked && s.lock.None?
    ensures Apply(s, Begin(t, fsync)).Some? && ((pool ==> mode == Sync) <==> Apply(s, Join(mode, pool)).Some?)
  {
  }

  /** From every reachable state in which the clients that are waited for are connected, or gone, the system can come
      to rest: all calls return, all corks are completed and lifted, and the connected clients catch up. */
  lemma ComesToRest(s: State) returns (steps: seq<Step>, s': State)
    requires Reachable(s) && forall t :: Answered(s, t)
    ensures Leads(s, steps, s') && AtRest(s') && SameWorld(s, s')
  {
    ReachableInv(s);
    hide Reachable, Inv, Leads, Answered, AtRest, Undrained;
    var a, m := AllEnd(s);
    InvParts(m, 0);
    Uncorked(m);
    StepKeeps(m, UncorkAll(0));
    LeadsOne(m, UncorkAll(0));
    var n := Apply(m, UncorkAll(0)).value;
    hide Apply;
    var b;
    b, s' := AllDrain(n);
    RestIs(s');
    LeadsTrans(m, [UncorkAll(0)], n, b, s');
    LeadsTrans(s, a, m, [UncorkAll(0)] + b, s');
    steps := a + ([UncorkAll(0)] + b);
  }

  /** A call begins exactly on a thread that is idle, while no thread sends and the server is not corked; so it can
      begin right after an uncork. */
  lemma BeginIff(s: State, t: Tid, fsync: bool)
    requires Inv(s)
    ensures Apply(s, Begin(t, fsync)).Some? <==>
              ThreadOf(s, t).Idle? && !s.corked && forall u :: !ThreadOf(s, u).Sending?
    ensures Apply(s, Begin(t, fsync)).Some? ==> Apply(s, Begin(t, fsync)).value.order == s.order + [Call(fsync)]
    ensures Apply(s, UncorkAll(t)).Some? ==> Apply(Apply(s, UncorkAll(t)).value, Begin(t, fsync)).Some?
  {
    assert LockOk(s);
    if s.lock.Some? { assert ThreadOf(s, s.lock.value).Sending?; }
    hide Inv;
  }
}
