/** What a client has been sent, what it has executed, and what its acknowledgements mean. */
module ReplicaOrder {
  import opened Replication

  /** The calls among the messages of a channel. */
  function Ops(ms: seq<Msg>): seq<nat> {
    if ms == [] then []
    else (if ms[0].AsyncOp? || ms[0].SyncOp? then [ms[0].call] else []) + Ops(ms[1..])
  }

  function Calls(tasks: seq<Task>): seq<nat> {
    if tasks == [] then [] else [tasks[0].call] + Calls(tasks[1..])
  }

  lemma {:induction false} OpsAppend(ms: seq<Msg>, m: Msg)
    ensures Ops(ms + [m]) == Ops(ms) + if m.AsyncOp? || m.SyncOp? then [m.call] else []
  {
    if ms == [] {
      assert [m][1..] == [];
    } else {
      OpsAppend(ms[1..], m);
      assert (ms + [m])[1..] == ms[1..] + [m];
    }
  }

  ghost predicate Increasing(ks: seq<nat>) {
    forall i, j | 0 <= i < j < |ks| :: ks[i] < ks[j]
  }

  lemma IncreasingAppend(ks: seq<nat>, k: nat)
    requires Increasing(ks) && forall j | j in ks :: j < k
    ensures Increasing(ks + [k])
  {
    assert forall i | 0 <= i < |ks| :: ks[i] in ks;
  }

  /** A client with one thread executes what it is sent, in order. */
  ghost predicate Fifo(c: Client) {
    c.sent == c.executed + Calls(c.running) + Ops(c.channel) && |c.running| <= 1
  }

  /** No call is lost and none is executed twice, in whatever order a client with several threads executes them. */
  ghost predicate Kept(c: Client) {
    multiset(c.sent) == multiset(c.executed) + multiset(Calls(c.running)) + multiset(Ops(c.channel))
  }

  /** Every call below `at` that the client was sent has been executed. */
  ghost predicate ExecutedBelow(c: Client, at: nat) {
    forall k | k in c.sent && k < at :: k in c.executed
  }

  /** The client has read the call from its channel. */
  ghost predicate Obtained(c: Client, k: nat) {
    k in c.executed || exists i :: 0 <= i < |c.running| && c.running[i].call == k
  }

  /** Every call below `at` that the client was sent has been read. */
  ghost predicate ReadBelow(c: Client, at: nat) {
    forall k | k in c.sent && k < at :: Obtained(c, k)
  }

  /** A semi-synchronous client, and no other, acknowledges a call when it has read it; a return code comes after the
      execution of its call. */
  ghost predicate CodeMeans(c: Client, call: nat, code: Code) {
    if c.mode == SemiSync then code == Early && Obtained(c, call) else code == Ret && call in c.executed
  }

  /** A client acknowledges a cork when it has read all that was sent before the cork; a client with one thread has
      executed it then. */
  ghost predicate CorkMeans(c: Client, at: nat) {
    ReadBelow(c, at) && (c.pool || ExecutedBelow(c, at))
  }

  ghost predicate AckMeans(c: Client, a: AckMsg) {
    match a
    case Ack(call, _, code) => CodeMeans(c, call, code)
    case AckCork(_, at) => CorkMeans(c, at)
  }

  ghost predicate ReplyMeans(c: Client, r: Reply) {
    match r
    case Acked(call, code) => CodeMeans(c, call, code)
    case Corked(at) => CorkMeans(c, at)
  }

  /** A semi-synchronous client has nothing more to acknowledge for a call that it has read. */
  ghost predicate EarlyOnly(c: Client) {
    c.mode == SemiSync ==> forall i | 0 <= i < |c.running| :: c.running[i].ack.None?
  }

  ghost predicate AcksMean(c: Client) {
    && (forall i | 0 <= i < |c.acks| :: AckMeans(c, c.acks[i]))
    && (forall t | t in c.slots :: ReplyMeans(c, c.slots[t]))
  }

  /** Calls behind a cork in the channel were sent after it. */
  ghost predicate CorkAhead(c: Client, i: nat)
    requires i < |c.channel| && c.channel[i].Cork?
  {
    forall k | k in Ops(c.channel[i..]) :: k >= c.channel[i].at
  }

  /** No cork knows of more than `limit` calls. */
  ghost predicate CorksBelow(c: Client, limit: nat) {
    && (forall i | 0 <= i < |c.channel| && c.channel[i].Cork? :: c.channel[i].at <= limit)
    && (forall i | 0 <= i < |c.acks| && c.acks[i].AckCork? :: c.acks[i].at <= limit)
    && (forall t | t in c.slots && c.slots[t].Corked? :: c.slots[t].at <= limit)
  }

  ghost predicate CorksAhead(c: Client) {
    forall i: nat | i < |c.channel| && c.channel[i].Cork? :: CorkAhead(c, i)
  }

  ghost predicate FlowOk(c: Client) {
    (!c.pool ==> Fifo(c)) && Kept(c) && CorksAhead(c) && EarlyOnly(c)
  }

  /** `sent` is in the order of the server and lies below `upto`. */
  ghost predicate ClientOk(c: Client, upto: nat, limit: nat) {
    && Increasing(c.sent) && (forall k | k in c.sent :: k < upto)
    && (c.pool ==> c.mode == Sync) && FlowOk(c) && CorksBelow(c, limit) && AcksMean(c)
  }

  lemma OpsFirst(ms: seq<Msg>)
    requires ms != []
    ensures Ops(ms) == if ms[0].AsyncOp? || ms[0].SyncOp? then [ms[0].call] + Ops(ms[1..]) else Ops(ms[1..])
  {
  }

  lemma CallsOne(tasks: seq<Task>)
    requires |tasks| == 1
    ensures Calls(tasks) == [tasks[0].call]
  {
    assert tasks[1..] == [];
  }

  lemma ReceivedFifo(c: Client)
    requires Fifo(c) && c.channel != [] && c.running == []
    ensures Fifo(Received(c))
  {
    var d := Received(c);
    ReceivedCalls(c);
    ReceivedFrame(c);
    assert |d.running| <= 1;
    hide Ops, Calls, Received;
    Associative(c.executed, Calls(c.running), Ops(c.channel));
    Associative(d.executed, Calls(d.running), Ops(d.channel));
  }

  lemma Associative(a: seq<nat>, b: seq<nat>, c: seq<nat>)
    ensures a + b + c == a + (b + c)
  {
  }

  lemma {:induction false} CallsConcat(a: seq<Task>, b: seq<Task>)
    ensures Calls(a + b) == Calls(a) + Calls(b)
  {
    if a == [] {
      assert a + b == b;
    } else {
      CallsConcat(a[1..], b);
      assert (a + b)[1..] == a[1..] + b;
    }
  }

  lemma {:induction false} CallsHas(tasks: seq<Task>, k: nat)
    ensures k in Calls(tasks) <==> exists i :: 0 <= i < |tasks| && tasks[i].call == k
  {
    if tasks != [] {
      CallsHas(tasks[1..], k);
      assert forall i | 0 < i < |tasks| :: tasks[i] == tasks[1..][i - 1];
      assert forall i | 0 <= i < |tasks[1..]| :: tasks[1..][i] == tasks[i + 1];
    }
  }

  lemma ReceivedKept(c: Client)
    requires Kept(c) && c.channel != []
    ensures Kept(Received(c))
  {
    var d := Received(c);
    ReceivedCalls(c);
    ReceivedFrame(c);
    hide Ops, Calls, Received;
    var a, b, a', b' := Calls(c.running), Ops(c.channel), Calls(d.running), Ops(d.channel);
    MovesOver(a, b, a', b');
    assert multiset(c.executed) + multiset(a) + multiset(b) == multiset(c.executed) + (multiset(a) + multiset(b));
    assert multiset(d.executed) + multiset(a') + multiset(b') == multiset(d.executed) + (multiset(a') + multiset(b'));
  }

  /** Reading a call moves it from the channel to what is being executed. */
  lemma ReceivedCalls(c: Client)
    requires c.channel != []
    ensures var d := Received(c); Calls(c.running) + Ops(c.channel) == Calls(d.running) + Ops(d.channel)
  {
    var m, d := c.channel[0], Received(c);
    ReceivedFrame(c);
    OpsFirst(c.channel);
    hide Ops;
    if IsCall(m) {
      var task := d.running[|c.running|];
      assert d.running == c.running + [task] && task.call == m.call;
      CallsConcat(c.running, [task]);
      CallsOne([task]);
      hide Calls, Received;
      Associative(Calls(c.running), [m.call], Ops(d.channel));
    }
  }

  lemma MovesOver(a: seq<nat>, b: seq<nat>, a': seq<nat>, b': seq<nat>)
    requires a + b == a' + b'
    ensures multiset(a) + multiset(b) == multiset(a') + multiset(b')
  {
    assert multiset(a + b) == multiset(a) + multiset(b) && multiset(a' + b') == multiset(a') + multiset(b');
  }

  lemma ExecutedKept(c: Client, i: nat)
    requires Kept(c) && i < |c.running|
    ensures Kept(Executed(c, i))
  {
    var a, task, b := c.running[..i], c.running[i], c.running[i + 1..];
    assert c.running == a + ([task] + b);
    CallsConcat(a, [task] + b);
    CallsConcat([task], b);
    CallsConcat(a, b);
    CallsOne([task]);
    hide Calls, Ops;
  }

  lemma SentKept(c: Client, m: Msg)
    requires Kept(c)
    ensures Kept(Sent(c, m))
  {
    OpsAppend(c.channel, m);
    hide Calls, Ops;
  }

  /** What was sent and is not in the channel has been read. */
  lemma KeptRead(c: Client, k: nat)
    requires Kept(c) && k in c.sent && k !in Ops(c.channel)
    ensures Obtained(c, k)
  {
    hide Ops;
    assert k in multiset(c.sent);
    CallsHas(c.running, k);
  }

  /** A client that reads a cork has read everything that was sent before it, and executed it if it has one thread. */
  lemma CorkReached(c: Client)
    requires Kept(c) && c.channel != [] && c.channel[0].Cork? && CorkAhead(c, 0)
    requires !c.pool ==> Fifo(c) && c.running == []
    ensures CorkMeans(c, c.channel[0].at)
  {
    assert c.channel[0..] == c.channel;
    forall k | k in c.sent && k < c.channel[0].at ensures Obtained(c, k) { KeptRead(c, k); }
    assert !c.pool ==> c.sent == c.executed + Ops(c.channel);
  }

  /** What an acknowledgement means stays true while more is executed and nothing is sent. */
  lemma AcksStillMean(c: Client, d: Client)
    requires AcksMean(c) && d.sent == c.sent && c.executed <= d.executed && d.mode == c.mode && d.pool == c.pool
    requires d.slots == c.slots && forall k | Obtained(c, k) :: Obtained(d, k)
    requires c.acks <= d.acks && forall i | |c.acks| <= i < |d.acks| :: AckMeans(d, d.acks[i])
    ensures AcksMean(d)
  {
    assert forall k | k in c.executed :: k in d.executed;
    hide Obtained;
    forall i | 0 <= i < |d.acks| ensures AckMeans(d, d.acks[i]) {
      if i < |c.acks| { assert AckMeans(c, c.acks[i]); }
    }
    forall t | t in d.slots ensures ReplyMeans(d, d.slots[t]) {
      assert ReplyMeans(c, c.slots[t]);
    }
  }

  lemma ReceivedAhead(c: Client)
    requires CorksAhead(c) && c.channel != []
    ensures CorksAhead(Received(c))
  {
    var d := Received(c);
    hide Ops;
    forall i: nat | i < |d.channel| && d.channel[i].Cork? ensures CorkAhead(d, i) {
      assert CorkAhead(c, i + 1);
      assert d.channel[i..] == c.channel[i + 1..];
    }
  }

  /** Reading a message changes what is to be executed and acknowledged, and nothing else. */
  lemma ReceivedFrame(c: Client)
    requires c.channel != []
    ensures var d := Received(c);
      d == c.(channel := c.channel[1..], running := d.running, acks := d.acks)
  {
  }

  /** What the client has read stays read, and so is what it reads now. */
  lemma ReceivedObtains(c: Client)
    requires c.channel != []
    ensures forall k | Obtained(c, k) :: Obtained(Received(c), k)
    ensures c.channel[0].AsyncOp? || c.channel[0].SyncOp? ==> Obtained(Received(c), c.channel[0].call)
  {
    var d := Received(c);
    assert c.running <= d.running && d.executed == c.executed;
    forall k | Obtained(c, k) ensures Obtained(d, k) {
      if k !in c.executed {
        var i :| 0 <= i < |c.running| && c.running[i].call == k;
        assert d.running[i] == c.running[i];
      }
    }
    if c.channel[0].AsyncOp? || c.channel[0].SyncOp? {
      assert d.running[|c.running|].call == c.channel[0].call;
    }
  }

  lemma ExecutedObtains(c: Client, i: nat)
    requires i < |c.running|
    ensures forall k | Obtained(c, k) :: Obtained(Executed(c, i), k)
  {
    var d := Executed(c, i);
    assert d.executed[|c.executed|] == c.running[i].call;
    forall k | Obtained(c, k) ensures Obtained(d, k) {
      if k !in d.executed {
        assert k !in c.executed;
        var j :| 0 <= j < |c.running| && c.running[j].call == k;
        assert j != i && d.running[if j < i then j else j - 1] == c.running[j];
      }
    }
  }

  lemma ReceivedAcks(c: Client, limit: nat)
    requires c.channel != [] && (c.channel[0].Cork? ==> c.channel[0].at <= limit)
    requires c.channel[0].Cork? ==> CorkMeans(c, c.channel[0].at)
    ensures var d := Received(c);
      && c.acks <= d.acks
      && (forall i | |c.acks| <= i < |d.acks| ::
           AckMeans(d, d.acks[i]) && (d.acks[i].AckCork? ==> d.acks[i].at <= limit))
  {
    ReceivedObtains(c);
    hide Obtained;
  }

  lemma ReceivedEarly(c: Client)
    requires EarlyOnly(c) && c.channel != []
    ensures EarlyOnly(Received(c))
  {
  }

  lemma ReceivedFlow(c: Client)
    requires FlowOk(c) && c.channel != [] && (c.pool || c.running == [])
    ensures FlowOk(Received(c)) && (c.channel[0].Cork? ==> CorkMeans(c, c.channel[0].at))
  {
    ReceivedFrame(c);
    hide Fifo, Kept, EarlyOnly, CorkAhead, CorkMeans, Received;
    if !c.pool { ReceivedFifo(c); }
    ReceivedKept(c);
    ReceivedAhead(c);
    ReceivedEarly(c);
    if c.channel[0].Cork? { CorkReached(c); }
  }

  lemma ReceivedOk(c: Client, upto: nat, limit: nat)
    requires ClientOk(c, upto, limit) && c.channel != [] && (c.pool || c.running == [])
    ensures ClientOk(Received(c), upto, limit)
  {
    hide FlowOk, Increasing, Received, AckMeans, CodeMeans, CorkMeans, Obtained;
    ReceivedFlow(c);
    ReceivedFrame(c);
    ReceivedAcks(c, limit);
    ReceivedObtains(c);
    AcksStillMean(c, Received(c));
  }

  lemma ExecutedFifo(c: Client, i: nat)
    requires Fifo(c) && i < |c.running|
    ensures Fifo(Executed(c, i))
  {
    var d := Executed(c, i);
    assert c.running == [c.running[0]] && d.running == [];
    CallsOne(c.running);
  }

  /** The corks in the channel only depend on the channel. */
  lemma SameAhead(c: Client, d: Client)
    requires CorksAhead(c) && d.channel == c.channel
    ensures CorksAhead(d)
  {
    forall j: nat | j < |d.channel| && d.channel[j].Cork? ensures CorkAhead(d, j) { assert CorkAhead(c, j); }
  }

  lemma ExecutedFlow(c: Client, i: nat)
    requires FlowOk(c) && i < |c.running|
    ensures FlowOk(Executed(c, i))
  {
    hide Fifo, Kept, CorksAhead;
    if !c.pool { ExecutedFifo(c, i); }
    ExecutedKept(c, i);
    SameAhead(c, Executed(c, i));
  }

  lemma ExecutedOk(c: Client, i: nat, upto: nat, limit: nat)
    requires ClientOk(c, upto, limit) && i < |c.running|
    ensures ClientOk(Executed(c, i), upto, limit)
  {
    var d := Executed(c, i);
    hide FlowOk, Increasing;
    ExecutedFlow(c, i);
    assert d.executed[|c.executed|] == c.running[i].call;
    ExecutedObtains(c, i);
    hide CorkMeans;
    AcksStillMean(c, d);
  }

  /** The calls on their way do not depend on the replies, nor on whether the client is connected. */
  lemma SlotsFlow(c: Client, d: Client)
    requires FlowOk(c) && d == c.(acks := d.acks, slots := d.slots, alive := d.alive)
    ensures FlowOk(d)
  {
    SameAhead(c, d);
    hide Ops, Calls, CorksAhead;
  }

  lemma MeansSame(c: Client, d: Client)
    requires d == c.(acks := d.acks, slots := d.slots, alive := d.alive)
    ensures forall call, code :: CodeMeans(d, call, code) == CodeMeans(c, call, code)
    ensures forall at :: CorkMeans(d, at) == CorkMeans(c, at)
  {
  }

  lemma DeliveredOk(c: Client, upto: nat, limit: nat)
    requires ClientOk(c, upto, limit) && c.acks != []
    ensures ClientOk(Delivered(c), upto, limit)
  {
    var d := Delivered(c);
    SlotsFlow(c, d);
    MeansSame(c, d);
    hide FlowOk, Increasing, CodeMeans, CorkMeans;
    assert AckMeans(c, c.acks[0]);
    forall j | 0 <= j < |d.acks| ensures AckMeans(d, d.acks[j]) {
      assert AckMeans(c, c.acks[j + 1]);
    }
    forall t | t in d.slots ensures ReplyMeans(d, d.slots[t]) {
      if t != c.acks[0].tid { assert ReplyMeans(c, c.slots[t]); }
    }
  }

  lemma ConsumedOk(c: Client, t: Tid, upto: nat, limit: nat)
    requires ClientOk(c, upto, limit)
    ensures ClientOk(c.(slots := c.slots - {t}), upto, limit)
  {
    var d := c.(slots := c.slots - {t});
    SlotsFlow(c, d);
    MeansSame(c, d);
    hide FlowOk, Increasing, CodeMeans, CorkMeans;
    forall j | 0 <= j < |d.acks| ensures AckMeans(d, d.acks[j]) { assert AckMeans(c, c.acks[j]); }
    forall t | t in d.slots ensures ReplyMeans(d, d.slots[t]) { assert ReplyMeans(c, c.slots[t]); }
  }

  predicate IsCall(m: Msg) {
    m.AsyncOp? || m.SyncOp?
  }

  lemma SentFifo(c: Client, m: Msg)
    requires Fifo(c)
    ensures Fifo(Sent(c, m))
  {
    OpsAppend(c.channel, m);
  }

  lemma OpsNone()
    ensures Ops([]) == []
  {
  }

  lemma SentAhead(c: Client, m: Msg)
    requires CorksAhead(c) && (IsCall(m) ==> CorksBelow(c, m.call))
    ensures CorksAhead(Sent(c, m))
  {
    var d := Sent(c, m);
    hide Ops;
    forall j: nat | j < |d.channel| && d.channel[j].Cork? ensures CorkAhead(d, j) {
      if j < |c.channel| {
        assert CorkAhead(c, j);
        assert d.channel[j..] == c.channel[j..] + [m];
        OpsAppend(c.channel[j..], m);
      } else {
        assert d.channel[j..] == [m] && [m][1..] == [];
        OpsFirst([m]);
        assert Ops([]) == [] by { OpsNone(); }
      }
    }
  }

  lemma SentMeans(c: Client, m: Msg, limit: nat)
    requires AcksMean(c) && CorksBelow(c, limit) && (IsCall(m) ==> m.call == limit)
    ensures AcksMean(Sent(c, m))
  {
    var d := Sent(c, m);
    forall j | 0 <= j < |d.acks| ensures AckMeans(d, d.acks[j]) { assert AckMeans(c, c.acks[j]); }
    forall t | t in d.slots ensures ReplyMeans(d, d.slots[t]) { assert ReplyMeans(c, c.slots[t]); }
  }

  lemma SentFlow(c: Client, m: Msg)
    requires FlowOk(c) && (IsCall(m) ==> CorksBelow(c, m.call))
    ensures FlowOk(Sent(c, m))
  {
    hide Fifo, Kept, CorksAhead;
    if !c.pool { SentFifo(c, m); }
    SentKept(c, m);
    SentAhead(c, m);
  }

  /** A call that is newer than every cork and every call sent so far, or a cork that knows of no more
      than `limit` calls. */
  lemma SentOk(c: Client, m: Msg, upto: nat, upto': nat, limit: nat)
    requires ClientOk(c, upto, limit) && upto <= upto'
    requires IsCall(m) ==> m.call == limit && upto <= limit < upto'
    requires m.Cork? ==> m.at <= limit
    ensures ClientOk(Sent(c, m), upto', limit)
  {
    hide FlowOk, AcksMean;
    SentFlow(c, m);
    SentMeans(c, m, limit);
    if IsCall(m) { IncreasingAppend(c.sent, m.call); }
  }

  /** When everything a single-threaded client was sent has been executed, it has executed exactly that. */
  lemma AllExecuted(c: Client)
    requires Fifo(c) && Increasing(c.sent)
    ensures (forall k | k in c.sent :: k in c.executed) ==> c.executed == c.sent
  {
    var n := |c.executed|;
    assert c.executed == c.sent[..n];
    if n < |c.sent| {
      assert forall i | 0 <= i < n :: c.executed[i] == c.sent[i];
      assert c.sent[n] in c.sent && c.sent[n] !in c.executed;
    } else {
      assert c.sent[..n] == c.sent;
    }
  }
}
