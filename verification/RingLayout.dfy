/**
 The layout of the journal ring: logical offsets grow for ever and are mapped into a ring of whole blocks;
 an entry never straddles a block; the rest of a block is skipped, and marked by a zero size when
 there is room for one.
 */
module RingLayout {
  import opened Octets

  const BLOCK_SIZE: nat := 1024 * 128

  function AlignUpAlways(off: nat): nat {
    (off / BLOCK_SIZE + 1) * BLOCK_SIZE
  }

  function AlignDown(off: nat): nat {
    off / BLOCK_SIZE * BLOCK_SIZE
  }

  /** `body` is the serialised content of the entry. */
  datatype Entry = Entry(transId: U32, body: seq<Octet>) {
    function Size(): nat {
      12 + |body|
    }
  }

  type Crc = seq<Octet> -> U32

  /** Size, transaction, content, and the checksum of all that. */
  function Encode(e: Entry, crc: Crc): (b: seq<Octet>)
    ensures |b| == e.Size()
  {
    var prefix := EncodeU32(e.Size() % U32_RANGE) + EncodeU32(e.transId) + e.body;
    prefix + EncodeU32(crc(prefix))
  }

  lemma EncodeParts(e: Entry, crc: Crc)
    requires e.Size() < BLOCK_SIZE
    ensures var b := Encode(e, crc);
            && DecodeU32(b[..4]) == e.Size() && b[..4] != [0, 0, 0, 0]
            && DecodeU32(b[4..8]) == e.transId
            && b[8..|b| - 4] == e.body
            && DecodeU32(b[|b| - 4..]) == crc(b[..|b| - 4])
  {
    var b := Encode(e, crc);
    var prefix := EncodeU32(e.Size()) + EncodeU32(e.transId) + e.body;
    assert b[..4] == EncodeU32(e.Size());
    assert b[4..8] == EncodeU32(e.transId);
    assert b[8..|b| - 4] == e.body;
    assert b[..|b| - 4] == prefix && b[|b| - 4..] == EncodeU32(crc(prefix));
    U32RoundTrip(e.Size());
    U32RoundTrip(e.transId);
    U32RoundTrip(crc(prefix));
  }

  // ---------------------------------------------------------------- the ring

  /** A range that starts at `off` and does not leave its block. */
  ghost predicate InBlock(off: nat, n: nat) {
    off % BLOCK_SIZE + n <= BLOCK_SIZE
  }

  ghost predicate RingSize(size: nat) {
    size > 0 && size % BLOCK_SIZE == 0
  }

  lemma TimesBlocks(size: nat, m: nat, q: nat)
    requires size == BLOCK_SIZE * m
    ensures size * q == BLOCK_SIZE * (m * q)
  {
  }

  lemma ModShift(k: nat, r: nat)
    ensures (BLOCK_SIZE * k + r) % BLOCK_SIZE == r % BLOCK_SIZE
  {
  }

  lemma RemainderBlock(off: nat, size: nat, q: nat, r: nat)
    requires RingSize(size) && off == size * q + r
    ensures r % BLOCK_SIZE == off % BLOCK_SIZE
  {
    var m := size / BLOCK_SIZE;
    TimesBlocks(size, m, q);
    ModShift(m * q, r);
  }

  lemma ModBlock(off: nat, size: nat)
    requires RingSize(size)
    ensures off % size % BLOCK_SIZE == off % BLOCK_SIZE
  {
    RemainderBlock(off, size, off / size, off % size);
  }

  /** A range inside one block is contiguous in the ring. */
  lemma Contiguous(off: nat, n: nat, size: nat)
    requires RingSize(size) && InBlock(off, n)
    ensures off % size + n <= size
  {
    ModBlock(off, size);
    var r := off % size;
    assert r < size;
    assert r / BLOCK_SIZE < size / BLOCK_SIZE;
  }

  lemma ModDistinct(a: nat, b: nat, size: nat)
    requires size > 0 && a < b < a + size
    ensures a % size != b % size
  {
    var p, q, r := a / size, b / size, a % size;
    assert a == size * p + r;
    MulMonotone(size, q, p);
    MulMonotone(size, p + 1, q);
    assert size * (p + 1) == size * p + size;
    assert b == size * q + b % size;
  }

  lemma ModAdd(a: nat, i: nat, size: nat)
    requires size > 0 && a % size + i < size
    ensures (a + i) % size == a % size + i
  {
    var q := a / size;
    assert a + i == size * q + (a % size + i);
    assert (a + i) / size == q by {
      assert size * q <= a + i < size * q + size;
      DivUnique(a + i, size, q);
    }
  }

  lemma DivUnique(x: nat, size: nat, q: nat)
    requires size > 0 && size * q <= x < size * q + size
    ensures x / size == q
  {
    var d := x / size;
    assert x == size * d + x % size;
    MulMonotone(size, d + 1, q);
    MulMonotone(size, q + 1, d);
  }

  lemma MulMonotone(size: nat, a: int, b: int)
    ensures a <= b ==> size * a <= size * b
  {
  }

  /** Ranges that are apart within one lap do not meet in the ring. */
  lemma RingApart(o: nat, n: nat, t: nat, m: nat, size: nat)
    requires RingSize(size) && InBlock(o, n) && InBlock(t, m) && n > 0 && m > 0
    requires o + n <= t && t + m <= o + size
    ensures o % size + n <= t % size || t % size + m <= o % size
  {
    Contiguous(o, n, size);
    Contiguous(t, m, size);
    var a, b := o % size, t % size;
    if a < b + m && b < a + n {
      var p := if a < b then b else a;
      ModAdd(o, p - a, size);
      ModAdd(t, p - b, size);
      ModDistinct(o + (p - a), t + (p - b), size);
    }
  }

  /** `file_off`, relative to the end of the file header. */
  function FileOff(off: nat, size: nat): nat
    requires size > 0
  {
    off % size
  }

  /** The ring holds `b` at logical offset `off`. */
  ghost predicate Holds(ring: seq<Octet>, off: nat, b: seq<Octet>) {
    |ring| > 0 && FileOff(off, |ring|) + |b| <= |ring| && ring[FileOff(off, |ring|)..FileOff(off, |ring|) + |b|] == b
  }

  /** `write_all_at` of a range that does not reach the end of the ring. */
  function WriteRing(ring: seq<Octet>, pos: nat, b: seq<Octet>): (r: seq<Octet>)
    requires pos + |b| <= |ring|
    ensures |r| == |ring|
  {
    ring[..pos] + b + ring[pos + |b|..]
  }

  lemma WriteHolds(ring: seq<Octet>, t: nat, b: seq<Octet>)
    requires RingSize(|ring|) && InBlock(t, |b|)
    ensures FileOff(t, |ring|) + |b| <= |ring|
    ensures Holds(WriteRing(ring, FileOff(t, |ring|), b), t, b)
  {
    Contiguous(t, |b|, |ring|);
  }

  lemma WriteKeeps(ring: seq<Octet>, t: nat, b: seq<Octet>, o: nat, c: seq<Octet>)
    requires RingSize(|ring|) && InBlock(t, |b|) && InBlock(o, |c|) && |b| > 0 && |c| > 0
    requires o + |c| <= t && t + |b| <= o + |ring| && Holds(ring, o, c)
    ensures FileOff(t, |ring|) + |b| <= |ring|
    ensures Holds(WriteRing(ring, FileOff(t, |ring|), b), o, c)
  {
    Contiguous(t, |b|, |ring|);
    RingApart(o, |c|, t, |b|, |ring|);
    var r := WriteRing(ring, FileOff(t, |ring|), b);
    assert r[FileOff(o, |ring|)..FileOff(o, |ring|) + |c|] == ring[FileOff(o, |ring|)..FileOff(o, |ring|) + |c|];
  }

  // ---------------------------------------------------------------- records

  /** An entry and the logical offset it was written at. */
  datatype Record = Record(off: nat, entry: Entry) {
    function End(): nat {
      off + entry.Size()
    }
  }

  /** Where an entry of `n` bytes goes when the tail is `t`. */
  function Place(t: nat, n: nat): nat {
    if AlignUpAlways(t) - t < n then AlignUpAlways(t) else t
  }

  function TailOf(log: seq<Record>): nat {
    if log == [] then 0 else log[|log| - 1].End()
  }

  /** The entry fits a block, follows the one before it, and bears the next transaction number. */
  ghost predicate LaidAt(log: seq<Record>, i: nat)
    requires i < |log|
  {
    && log[i].entry.Size() < BLOCK_SIZE && InBlock(log[i].off, log[i].entry.Size())
    && log[i].entry.transId == i % U32_RANGE
    && log[i].off == Place(TailOf(log[..i]), log[i].entry.Size())
  }

  ghost predicate Laid(log: seq<Record>) {
    forall i: nat | i < |log| :: LaidAt(log, i)
  }

  lemma LaidPrefix(log: seq<Record>, n: nat)
    requires Laid(log) && n <= |log|
    ensures Laid(log[..n])
  {
    forall i: nat | i < n ensures LaidAt(log[..n], i) {
      assert LaidAt(log, i) && log[..n][..i] == log[..i];
    }
  }

  lemma Follows(log: seq<Record>, i: nat)
    requires Laid(log) && i < |log|
    ensures log[i].entry.Size() < BLOCK_SIZE && InBlock(log[i].off, log[i].entry.Size())
    ensures log[i].off == Place(if i == 0 then 0 else log[i - 1].End(), log[i].entry.Size())
    ensures log[i].entry.transId == i % U32_RANGE
  {
    assert LaidAt(log, i);
  }

  /** An entry goes to the tail when it fits in the block of the tail, and otherwise to the start of the next block. */
  lemma PlaceInBlock(t: nat, n: nat)
    requires n < BLOCK_SIZE
    ensures InBlock(Place(t, n), n) && t <= Place(t, n) <= AlignUpAlways(t) && t < AlignUpAlways(t)
    ensures Place(t, n) == t <==> InBlock(t, n)
    ensures Place(t, n) != t ==> Place(t, n) % BLOCK_SIZE == 0 && Place(t, n) <= t + n
  {
  }

  lemma {:induction false} Increasing(log: seq<Record>, i: nat, j: nat)
    requires Laid(log) && i < j < |log|
    ensures log[i].End() <= log[j].off
  {
    Follows(log, j);
    if i + 1 < j { Increasing(log, i, j - 1); }
  }

  lemma LaidAppend(log: seq<Record>, body: seq<Octet>)
    requires Laid(log) && 12 + |body| < BLOCK_SIZE
    ensures Laid(log + [Record(Place(TailOf(log), 12 + |body|), Entry(|log| % U32_RANGE, body))])
  {
    var next := log + [Record(Place(TailOf(log), 12 + |body|), Entry(|log| % U32_RANGE, body))];
    PlaceInBlock(TailOf(log), 12 + |body|);
    forall i: nat | i < |next| ensures LaidAt(next, i) {
      assert next[..i] == log[..i];
      if i < |log| { assert LaidAt(log, i); } else { assert log[..i] == log; }
    }
  }

  /** Every block that starts below the tail starts with an entry. */
  lemma {:induction false} BlockStart(log: seq<Record>, b: nat) returns (i: nat)
    requires Laid(log) && b % BLOCK_SIZE == 0 && b < TailOf(log)
    ensures i < |log| && log[i].off == b
  {
    i := |log| - 1;
    var rest := log[..i];
    LaidPrefix(log, i);
    assert LaidAt(log, i);
    if b < TailOf(rest) {
      i := BlockStart(rest, b);
    }
  }

  /** Number of records below `head`: those from here on are retained. */
  ghost function First(log: seq<Record>, head: nat): (f: nat)
    requires Laid(log)
    ensures f <= |log|
    ensures forall i | 0 <= i < f :: log[i].off < head
    ensures forall i | f <= i < |log| :: head <= log[i].off
  {
    if log == [] then 0
    else if log[|log| - 1].off < head then
      BelowLast(log, head);
      |log|
    else
      LaidPrefix(log, |log| - 1);
      First(log[..|log| - 1], head)
  }

  lemma BelowLast(log: seq<Record>, head: nat)
    requires Laid(log) && log != [] && log[|log| - 1].off < head
    ensures forall i | 0 <= i < |log| :: log[i].off < head
  {
    forall i | 0 <= i < |log| - 1 ensures log[i].off < head { Increasing(log, i, |log| - 1); }
  }
}
