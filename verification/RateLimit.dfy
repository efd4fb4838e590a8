/**
 A writer that limits the rate of another writer with a bucket of tokens. Instants are nanoseconds of a
 monotonic clock.
 */
module RateLimit {
  import opened Wrappers
  import opened OrderedKeys
  import opened Extents

  const USIZE_RANGE: nat := 0x1_0000_0000_0000_0000
  const MILLISECOND: nat := 1_000_000

  function Millis(nanos: nat): nat { nanos / MILLISECOND }

  /** The tokens that a number of milliseconds is worth. */
  function Tokens(millis: nat, rate: nat): nat { millis * rate }

  datatype Bucket = Bucket(bytesLeft: nat, bps: nat, lastUpdated: nat, blocking: bool, partialWrites: bool)

  /** One call of `write`: the length of the buffer, the clock when it is read, the clock after the wait if
      there is one, and how many bytes the inner writer takes (`None` is an error). */
  datatype Op = Op(len: nat, now: nat, woke: nat, takes: Option<nat>)

  /** What `write` decides before it calls the inner writer. */
  datatype Decision = Pass(len: nat) | Wait(millis: nat) | WouldBlock | Panic

  datatype Outcome = Wrote(n: nat) | Failed | Blocked | Panicked

  // ---------------------------------------------------------------- one call

  function PerMilli(bps: nat): nat { bps / 1000 }

  function Rate(b: Bucket): nat { PerMilli(b.bps) }

  /** How many milliseconds it takes to earn what is missing. */
  function Pause(missing: nat, rate: nat): nat
    requires rate > 0
  {
    missing / rate
  }

  /** Whole milliseconds since the bucket was filled, as a machine word. */
  function Elapsed(b: Bucket, now: nat): nat
    requires b.lastUpdated <= now
  {
    Millis(now - b.lastUpdated) % USIZE_RANGE
  }

  /** The tokens that have accrued, at most what the call needs or one second's worth. */
  function Accrued(b: Bucket, len: nat, now: nat): nat
    requires b.lastUpdated <= now && b.bytesLeft <= len
  {
    Min(Tokens(Elapsed(b, now), Rate(b)), Max(len - b.bytesLeft, b.bps))
  }

  predicate Overflows(b: Bucket, len: nat, now: nat)
    requires b.lastUpdated <= now && b.bytesLeft <= len
  {
    Tokens(Elapsed(b, now), Rate(b)) >= USIZE_RANGE || b.bytesLeft + Accrued(b, len, now) >= USIZE_RANGE
  }

  /** The call reads the clock. */
  predicate NeedsTime(b: Bucket, len: nat) {
    b.bps != 0 && b.bytesLeft < len && !(b.partialWrites && b.bytesLeft != 0)
  }

  /** The bucket after the clock was read. */
  function Filled(b: Bucket, len: nat, now: nat): Bucket
    requires b.lastUpdated <= now
  {
    if NeedsTime(b, len) && !Overflows(b, len, now) then
      b.(bytesLeft := b.bytesLeft + Accrued(b, len, now), lastUpdated := now)
    else b
  }

  function Decide(b: Bucket, len: nat, now: nat): Decision
    requires b.lastUpdated <= now
  {
    var left := Filled(b, len, now).bytesLeft;
    if !NeedsTime(b, len) then Pass(if b.bps == 0 then len else Min(b.bytesLeft, len))
    else if Overflows(b, len, now) then Panic
    else if left >= len then Pass(len)
    else if !b.blocking then WouldBlock
    else if Rate(b) == 0 then Panic
    else Wait(Pause(len - left, Rate(b)))
  }

  /** The bytes that reach the inner writer. */
  function Written(b: Bucket, op: Op): nat
    requires b.lastUpdated <= op.now
  {
    var d := Decide(b, op.len, op.now);
    if op.takes.None? || d.WouldBlock? || d.Panic? then 0
    else Min(op.takes.value, if d.Pass? then d.len else op.len)
  }

  /** The bucket after the call. */
  function After(b: Bucket, op: Op): Bucket
    requires b.lastUpdated <= op.now
  {
    var f := Filled(b, op.len, op.now);
    f.(bytesLeft := f.bytesLeft - Min(Written(b, op), f.bytesLeft),
       lastUpdated := if Decide(b, op.len, op.now).Wait? then op.woke else f.lastUpdated)
  }

  function Waits(b: Bucket, op: Op): nat
    requires b.lastUpdated <= op.now
  {
    if Decide(b, op.len, op.now).Wait? then 1 else 0
  }

  /** The clock does not run backwards, and a wait does not end early. */
  predicate Timely(b: Bucket, op: Op) {
    && b.lastUpdated <= op.now
    && var d := Decide(b, op.len, op.now);
       d.Wait? ==> op.now + d.millis * MILLISECOND <= op.woke
  }

  // ---------------------------------------------------------------- the rate

  lemma TokensMonotone(a: nat, b: nat, rate: nat)
    requires a <= b
    ensures Tokens(a, rate) <= Tokens(b, rate)
  {
  }

  lemma TokensSum(a: nat, b: nat, rate: nat)
    ensures Tokens(a + b, rate) == Tokens(a, rate) + Tokens(b, rate)
  {
  }

  /** A wait is too short by less than a millisecond's worth of tokens. */
  lemma WaitCovers(missing: nat, rate: nat)
    requires rate > 0
    ensures missing <= Tokens(missing / rate + 1, rate)
  {
    assert missing == missing / rate * rate + missing % rate;
  }

  lemma MillisSum(x: nat, y: nat)
    ensures Millis(x) + Millis(y) <= Millis(x + y)
  {
  }

  lemma MillisAtLeast(m: nat, x: nat)
    requires m * MILLISECOND <= x
    ensures m <= Millis(x)
  {
  }

  lemma FilledBound(b: Bucket, len: nat, now: nat)
    requires b.lastUpdated <= now
    ensures var f := Filled(b, len, now);
      && b.lastUpdated <= f.lastUpdated <= now && f.bps == b.bps
      && f.bytesLeft <= b.bytesLeft + Tokens(Millis(f.lastUpdated - b.lastUpdated), Rate(b))
  {
    TokensMonotone(Elapsed(b, now), Millis(now - b.lastUpdated), Rate(b));
    hide Tokens, Millis;
  }

  /** A call that waits. */
  lemma WaitBound(b: Bucket, op: Op)
    requires Timely(b, op) && Decide(b, op.len, op.now).Wait?
    ensures b.lastUpdated <= op.woke
    ensures op.len <= b.bytesLeft + Tokens(Millis(op.woke - b.lastUpdated) + 1, Rate(b))
  {
    var f, wait := Filled(b, op.len, op.now), Decide(b, op.len, op.now).millis;
    FilledBound(b, op.len, op.now);
    WaitCovers(op.len - f.bytesLeft, Rate(b));
    MillisAtLeast(wait, op.woke - f.lastUpdated);
    MillisSum(f.lastUpdated - b.lastUpdated, op.woke - f.lastUpdated);
    hide Tokens, Millis;
    TokensSum(Millis(f.lastUpdated - b.lastUpdated), wait + 1, Rate(b));
    TokensMonotone(Millis(f.lastUpdated - b.lastUpdated) + (wait + 1), Millis(op.woke - b.lastUpdated) + 1, Rate(b));
  }

  /** One call spends what was in the bucket, what the time has earned, and for a wait at most one more
      millisecond's worth. */
  lemma CallBound(b: Bucket, op: Op)
    requires Timely(b, op) && b.bps > 0
    ensures var a := After(b, op);
      && b.lastUpdated <= a.lastUpdated && a.bps == b.bps
      && Written(b, op) + a.bytesLeft <=
           b.bytesLeft + Tokens(Millis(a.lastUpdated - b.lastUpdated) + Waits(b, op), Rate(b))
  {
    FilledBound(b, op.len, op.now);
    hide Tokens, Millis;
    if Decide(b, op.len, op.now).Wait? {
      WaitBound(b, op);
    }
  }

  ghost predicate TimelyAll(b: Bucket, ops: seq<Op>)
    decreases |ops|
  {
    ops == [] || (Timely(b, ops[0]) && TimelyAll(After(b, ops[0]), ops[1..]))
  }

  ghost function AfterAll(b: Bucket, ops: seq<Op>): Bucket
    requires TimelyAll(b, ops)
    decreases |ops|
  {
    if ops == [] then b else AfterAll(After(b, ops[0]), ops[1..])
  }

  ghost function TotalWritten(b: Bucket, ops: seq<Op>): nat
    requires TimelyAll(b, ops)
    decreases |ops|
  {
    if ops == [] then 0 else Written(b, ops[0]) + TotalWritten(After(b, ops[0]), ops[1..])
  }

  ghost function TotalWaits(b: Bucket, ops: seq<Op>): nat
    requires TimelyAll(b, ops)
    decreases |ops|
  {
    if ops == [] then 0 else Waits(b, ops[0]) + TotalWaits(After(b, ops[0]), ops[1..])
  }

  /** Over any run of calls the bytes written and the tokens left are at most the tokens at the start, what
      the elapsed milliseconds have earned, and one millisecond's worth for each wait. */
  lemma {:induction false} RateBound(b: Bucket, ops: seq<Op>)
    requires TimelyAll(b, ops) && b.bps > 0
    ensures var a := AfterAll(b, ops);
      && b.lastUpdated <= a.lastUpdated && a.bps == b.bps
      && TotalWritten(b, ops) + a.bytesLeft <=
         b.bytesLeft + Tokens(Millis(a.lastUpdated - b.lastUpdated) + TotalWaits(b, ops), Rate(b))
    decreases |ops|
  {
    if ops != [] {
      var m, a := After(b, ops[0]), AfterAll(b, ops);
      hide After, Written, Waits, Tokens, Millis, Decide;
      CallBound(b, ops[0]);
      RateBound(m, ops[1..]);
      MillisSum(m.lastUpdated - b.lastUpdated, a.lastUpdated - m.lastUpdated);
      var x := Millis(m.lastUpdated - b.lastUpdated) + Waits(b, ops[0]);
      var y := Millis(a.lastUpdated - m.lastUpdated) + TotalWaits(m, ops[1..]);
      TokensSum(x, y, Rate(b));
      TokensMonotone(x + y, Millis(a.lastUpdated - b.lastUpdated) + TotalWaits(b, ops), Rate(b));
    }
  }

  // ---------------------------------------------------------------- no less than the rate

  /** A call that reads the clock gets what the elapsed milliseconds have earned, in bytes: if that covers the buffer it
      passes, otherwise the bucket holds exactly what there was and what was earned, and a blocking writer waits no
      longer than the rest takes to earn. */
  lemma Refill(b: Bucket, len: nat, now: nat)
    requires b.lastUpdated <= now && b.bps > 0 && b.bytesLeft < len && (b.partialWrites ==> b.bytesLeft == 0)
    ensures
      var rate := b.bps / 1000;
      var earned := (now - b.lastUpdated) / 1_000_000 % 0x1_0000_0000_0000_0000 * rate;
      var cap := if b.bps < len - b.bytesLeft then len - b.bytesLeft else b.bps;
      var left, d, f := b.bytesLeft + earned, Decide(b, len, now), Filled(b, len, now);
      var max := 0xFFFF_FFFF_FFFF_FFFF;
      if earned > max || b.bytesLeft + (if earned < cap then earned else cap) > max then
        d == Panic && f == b
      else if left >= len then
        d == Pass(len) && f == b.(bytesLeft := if earned < cap then left else b.bytesLeft + cap, lastUpdated := now)
      else
        && f == b.(bytesLeft := left, lastUpdated := now)
        && (if !b.blocking then d == WouldBlock
            else if rate == 0 then d == Panic
            else d.Wait? && d.millis * rate <= len - left < (d.millis + 1) * rate)
  {
    var rate := b.bps / 1000;
    var earned := Tokens(Elapsed(b, now), Rate(b));
    assert earned == (now - b.lastUpdated) / 1_000_000 % 0x1_0000_0000_0000_0000 * rate;
    if b.bytesLeft + earned < len && rate > 0 { PauseIs(len - (b.bytesLeft + earned), rate); }
    hide Tokens, Elapsed, Pause;
  }

  lemma PauseIs(missing: nat, rate: nat)
    requires rate > 0
    ensures Pause(missing, rate) * rate <= missing < (Pause(missing, rate) + 1) * rate
  {
    assert missing == missing / rate * rate + missing % rate;
  }

  /** A call that does not read the clock passes all of the buffer, or what the bucket holds. */
  lemma NoRefill(b: Bucket, len: nat, now: nat)
    requires b.lastUpdated <= now && (b.bps == 0 || len <= b.bytesLeft || (b.partialWrites && b.bytesLeft > 0))
    ensures Filled(b, len, now) == b
    ensures Decide(b, len, now) == Pass(if b.bps == 0 || len <= b.bytesLeft then len else b.bytesLeft)
  {
  }

  /** Tokens are spent for the bytes written and for nothing else: what passes is paid in full, and after a wait all
      that is left goes first. */
  lemma TokensSpent(b: Bucket, op: Op)
    requires b.lastUpdated <= op.now && b.bps > 0
    ensures var a, f, d := After(b, op), Filled(b, op.len, op.now), Decide(b, op.len, op.now);
      && (!d.Wait? ==> Written(b, op) + a.bytesLeft == f.bytesLeft && a.lastUpdated == f.lastUpdated)
      && (d.Wait? ==> a.lastUpdated == op.woke
                      && a.bytesLeft == if Written(b, op) < f.bytesLeft then f.bytesLeft - Written(b, op) else 0)
      && (Written(b, op) > 0 <==>
           op.len > 0 && op.takes.Some? && op.takes.value > 0 && (d.Wait? || (d.Pass? && d.len > 0)))
      && (op.takes.Some? && op.takes.value >= op.len && (d.Wait? || d == Pass(op.len)) ==> Written(b, op) == op.len)
  {
    FilledBound(b, op.len, op.now);
    hide Tokens, Millis, Elapsed, Accrued, Pause;
  }

  ghost function TotalMillis(b: Bucket, ops: seq<Op>): nat
    requires TimelyAll(b, ops)
    decreases |ops|
  {
    if ops == [] then 0
    else
      var d := Decide(b, ops[0].len, ops[0].now);
      (if d.Wait? then d.millis else 0) + TotalMillis(After(b, ops[0]), ops[1..])
  }

  ghost function TotalLength(ops: seq<Op>): nat {
    if ops == [] then 0 else ops[0].len + TotalLength(ops[1..])
  }

  /** Over any run of calls a writer waits no longer than the bytes offered take at the rate of the limit. */
  lemma {:induction false} WaitsBound(b: Bucket, ops: seq<Op>)
    requires TimelyAll(b, ops) && b.bps > 0
    ensures Tokens(TotalMillis(b, ops), Rate(b)) <= TotalLength(ops)
    decreases |ops|
  {
    if ops != [] {
      var m, d := After(b, ops[0]), Decide(b, ops[0].len, ops[0].now);
      hide After, Tokens, Millis;
      CallBound(b, ops[0]);
      WaitsBound(m, ops[1..]);
      var millis := if d.Wait? then d.millis else 0;
      assert Tokens(millis, Rate(b)) <= ops[0].len by { WaitIsShort(b, ops[0].len, ops[0].now); }
      TokensSum(millis, TotalMillis(m, ops[1..]), Rate(b));
    }
  }

  lemma WaitIsShort(b: Bucket, len: nat, now: nat)
    requires b.lastUpdated <= now
    ensures var d := Decide(b, len, now); Tokens(if d.Wait? then d.millis else 0, Rate(b)) <= len
  {
    var d, f := Decide(b, len, now), Filled(b, len, now);
    if d.Wait? { PauseIs(len - f.bytesLeft, Rate(b)); }
  }

  /** Below a thousand bytes a second no tokens ever accrue: a blocking writer whose bucket does not cover the
      buffer divides by zero, and this is its only panic. */
  lemma SlowRatePanics(b: Bucket, len: nat, now: nat)
    requires 0 < b.bps < 1000 && b.lastUpdated <= now && b.bytesLeft < USIZE_RANGE
    ensures Decide(b, len, now).Panic? <==> NeedsTime(b, len) && b.blocking
  {
    assert Rate(b) == 0;
    assert b.bytesLeft <= len ==> Accrued(b, len, now) == 0;
  }

  /** Waits are rounded down, so that writes of one byte are not limited at all: `n` bytes pass in `n`
      nanoseconds through an empty bucket. */
  lemma {:induction false} SmallWritesEscape(b: Bucket, n: nat) returns (ops: seq<Op>)
    requires b.bps >= 2000 && b.bytesLeft == 0 && b.blocking
    ensures |ops| == n && TimelyAll(b, ops)
    ensures TotalWritten(b, ops) == n && AfterAll(b, ops) == b.(lastUpdated := b.lastUpdated + n)
    decreases n
  {
    if n == 0 {
      ops := [];
    } else {
      var op := Op(1, b.lastUpdated, b.lastUpdated + 1, Some(1));
      var next := b.(lastUpdated := b.lastUpdated + 1);
      assert Accrued(b, 1, b.lastUpdated) == 0;
      assert Rate(b) >= 2 && 1 / Rate(b) == 0;
      assert Decide(b, 1, b.lastUpdated) == Wait(0);
      assert After(b, op) == next && Written(b, op) == 1;
      var rest := SmallWritesEscape(next, n - 1);
      ops := [op] + rest;
      assert ops[1..] == rest;
    }
  }

  // ---------------------------------------------------------------- the writer

  lemma PassesPrefix(b: Bucket, len: nat, now: nat)
    requires b.lastUpdated <= now
    ensures Decide(b, len, now).Pass? ==> Decide(b, len, now).len <= len
  {
  }

  /** The readings of the clock pass every instant. */
  ghost predicate Passes(clock: nat -> nat, instant: nat) {
    exists n: nat :: clock(n) > instant
  }

  /** Reads the clock until it is past the instant; gives the first reading that is. */
  method SleepUntil(instant: nat, clock: nat -> nat) returns (now: nat)
    requires Passes(clock, instant)
    ensures instant < now && exists n: nat :: clock(n) == now && forall i: nat | i < n :: clock(i) <= instant
  {
    ghost var last: nat :| clock(last) > instant;
    var n: nat := 0;
    now := clock(0);
    while now <= instant
      invariant n <= last && now == clock(n) && forall i: nat | i < n :: clock(i) <= instant
      decreases last - n
    {
      n := n + 1;
      now := clock(n);
    }
  }

  class LimitWriter {
    var inner: seq<Byte>
    var bytesLeft: nat
    const bps: nat
    var lastUpdated: nat
    var blocking: bool
    var partialWrites: bool

    function Contents(): Bucket
      reads this
    {
      Bucket(bytesLeft, bps, lastUpdated, blocking, partialWrites)
    }

    constructor (bps: nat, now: nat)
      ensures Contents() == Bucket(bps, bps, now, true, false) && inner == []
    {
      this.bps := bps;
      inner, bytesLeft, lastUpdated, blocking, partialWrites := [], bps, now, true, false;
    }

    /** The first half of `write`: how much of the buffer may pass, after a wait if need be. */
    method Acquire(len: nat, now: nat, clock: nat -> nat) returns (d: Decision, ghost woke: nat)
      requires lastUpdated <= now && forall instant :: Passes(clock, instant)
      modifies this`bytesLeft, this`lastUpdated
      ensures d == Decide(old(Contents()), len, now)
      ensures d.Wait? ==> now + d.millis * MILLISECOND < woke
      ensures var f := Filled(old(Contents()), len, now);
        Contents() == if d.Wait? then f.(lastUpdated := woke) else f
    {
      hide Tokens, Millis, Passes, Max, PerMilli, Pause;
      woke := now;
      if bps == 0 || bytesLeft >= len {
        return Pass(len), woke;
      }
      if partialWrites && bytesLeft != 0 {
        return Pass(Min(bytesLeft, len)), woke;
      }
      var earned := Tokens(Millis(now - lastUpdated) % USIZE_RANGE, PerMilli(bps));
      var added := Min(earned, Max(len - bytesLeft, bps));
      if earned >= USIZE_RANGE || bytesLeft + added >= USIZE_RANGE {
        return Panic, woke;
      }
      bytesLeft := bytesLeft + added;
      lastUpdated := now;
      if bytesLeft >= len {
        return Pass(len), woke;
      }
      if !blocking {
        return WouldBlock, woke;
      }
      if PerMilli(bps) == 0 {
        return Panic, woke;
      }
      var wait := Pause(len - bytesLeft, PerMilli(bps));
      lastUpdated := SleepUntil(now + wait * MILLISECOND, clock);
      woke := lastUpdated;
      d := Wait(wait);
    }

    /** `now` is the clock when the call reads it, `clock` its readings during the wait, and `takes` what
        the inner writer takes. The ghost result is the call as an `Op`. */
    method Write(buf: seq<Byte>, now: nat, clock: nat -> nat, takes: Option<nat>) returns (r: Outcome, ghost op: Op)
      requires lastUpdated <= now && forall instant :: Passes(clock, instant)
      modifies this
      ensures op.len == |buf| && op.now == now && op.takes == takes && Timely(old(Contents()), op)
      ensures Contents() == After(old(Contents()), op)
      ensures Written(old(Contents()), op) <= |buf| && inner == old(inner) + buf[..Written(old(Contents()), op)]
      ensures r == match Decide(old(Contents()), |buf|, now) {
        case WouldBlock => Blocked
        case Panic => Panicked
        case _ => if takes.None? then Failed else Wrote(Written(old(Contents()), op))
      }
    {
      var d: Decision;
      ghost var woke: nat;
      d, woke := Acquire(|buf|, now, clock);
      op := Op(|buf|, now, woke, takes);
      PassesPrefix(old(Contents()), |buf|, now);
      hide Decide, Filled, Passes;
      if d.WouldBlock? {
        return Blocked, op;
      }
      if d.Panic? {
        return Panicked, op;
      }
      if takes.None? {
        return Failed, op;
      }
      var out := if d.Pass? then buf[..d.len] else buf;
      var written := Min(takes.value, |out|);
      inner := inner + out[..written];
      bytesLeft := bytesLeft - Min(written, bytesLeft);
      r := Wrote(written);
    }
  }
}
