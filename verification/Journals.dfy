/** The journal: writing entries into the ring, and what every reachable state keeps. */
module Journals {
  import opened Octets
  import opened RingLayout

  const ZERO_SIZE: seq<Octet> := [0, 0, 0, 0]

  // ---------------------------------------------------------------- what the ring holds

  /** Record `i` is in the ring, and so is the zero size that ends its block, if there is one. */
  ghost predicate Stored(ring: seq<Octet>, crc: Crc, log: seq<Record>, i: nat)
    requires i < |log|
  {
    && Holds(ring, log[i].off, Encode(log[i].entry, crc))
    && (i + 1 < |log| && log[i + 1].off - log[i].End() >= 4 ==> Holds(ring, log[i].End(), ZERO_SIZE))
  }

  /** Head and log fit together, whatever the ring holds. */
  ghost predicate LogInv(head: nat, tail: nat, size: nat, log: seq<Record>) {
    && RingSize(size) && Laid(log) && tail == TailOf(log)
    && head % BLOCK_SIZE == 0 && head <= tail && (log != [] ==> head < tail)
    && (head > 0 ==> head + size < tail + BLOCK_SIZE)
  }

  ghost predicate RingInv(crc: Crc, head: nat, tail: nat, ring: seq<Octet>, log: seq<Record>) {
    && LogInv(head, tail, |ring|, log) && tail <= head + |ring|
    && forall i: nat | First(log, head) <= i < |log| :: Stored(ring, crc, log, i)
  }

  /** A record and the zero size after it end at or below the tail. */
  lemma BelowTail(log: seq<Record>, i: nat)
    requires Laid(log) && i < |log|
    ensures InBlock(log[i].off, log[i].entry.Size()) && log[i].End() <= TailOf(log)
    ensures i + 1 < |log| && log[i + 1].off - log[i].End() >= 4 ==>
              InBlock(log[i].End(), 4) && log[i].End() + 4 <= TailOf(log)
  {
    Follows(log, i);
    if i + 1 < |log| {
      Follows(log, i + 1);
      Increasing(log, i, |log| - 1);
      if i + 1 < |log| - 1 { Increasing(log, i + 1, |log| - 1); }
    }
  }

  /** A write in the space after all retained records leaves them in place. */
  lemma WriteKeepsStored(crc: Crc, head: nat, ring: seq<Octet>, log: seq<Record>, t: nat, b: seq<Octet>, i: nat)
    requires RingSize(|ring|) && Laid(log) && i < |log| && head <= log[i].off && Stored(ring, crc, log, i)
    requires TailOf(log) <= t && t + |b| <= head + |ring| && InBlock(t, |b|) && |b| > 0
    ensures FileOff(t, |ring|) + |b| <= |ring|
    ensures Stored(WriteRing(ring, FileOff(t, |ring|), b), crc, log, i)
  {
    hide Holds, RingSize, InBlock, Encode, TailOf;
    BelowTail(log, i);
    WriteKeeps(ring, t, b, log[i].off, Encode(log[i].entry, crc));
    if i + 1 < |log| && log[i + 1].off - log[i].End() >= 4 {
      WriteKeeps(ring, t, b, log[i].End(), ZERO_SIZE);
    }
  }

  /** Moving the head by a whole block, or not at all, only forgets records. */
  lemma LaterHead(log: seq<Record>, head: nat, head': nat)
    requires Laid(log) && head <= head'
    ensures First(log, head) <= First(log, head')
  {
    var f := First(log, head');
    assert f < |log| ==> head <= log[f].off;
  }

  /** Head after an entry of `n` bytes: the oldest block is evicted when the tail wraps onto it. */
  function NextHead(head: nat, tail: nat, size: nat, n: nat): nat {
    var t := Place(tail, n);
    if t != tail && head + size == t then head + BLOCK_SIZE else head
  }

  /** While the ring is not exactly full the next entry fits in front of the head. */
  lemma RoomForEntry(head: nat, tail: nat, size: nat, n: nat)
    requires RingSize(size) && head % BLOCK_SIZE == 0 && head <= tail < head + size && 0 < n < BLOCK_SIZE
    ensures var t := Place(tail, n);
            && AlignUpAlways(tail) <= head + size
            && t + n <= NextHead(head, tail, size, n) + size
            && head <= NextHead(head, tail, size, n) <= t
            && NextHead(head, tail, size, n) % BLOCK_SIZE == 0
  {
    BlockAbove(tail, head + size);
  }

  /** No block boundary lies between an offset and the end of its block. */
  lemma BlockAbove(t: nat, bound: nat)
    requires t < bound && bound % BLOCK_SIZE == 0
    ensures t < AlignUpAlways(t) <= bound && AlignUpAlways(t) % BLOCK_SIZE == 0
  {
    assert t / BLOCK_SIZE < bound / BLOCK_SIZE;
  }

  /** The ring after `write_inner`: the zero size that ends the old block, if the entry starts a new one
      and there is room, and then the entry. */
  function Written(ring: seq<Octet>, tail: nat, b: seq<Octet>): (r: seq<Octet>)
    requires RingSize(|ring|) && |b| < BLOCK_SIZE
    ensures |r| == |ring|
  {
    var t := Place(tail, |b|);
    PlaceInBlock(tail, |b|);
    Contiguous(t, |b|, |ring|);
    WriteRing(Ended(ring, tail, t), FileOff(t, |ring|), b)
  }

  /** Nothing else in the ring changes. */
  lemma WrittenOnly(ring: seq<Octet>, tail: nat, b: seq<Octet>, p: nat)
    requires RingSize(|ring|) && |b| < BLOCK_SIZE && p < |ring|
    requires var t := FileOff(Place(tail, |b|), |ring|); !(t <= p < t + |b|)
    requires Place(tail, |b|) - tail >= 4 ==> !(FileOff(tail, |ring|) <= p < FileOff(tail, |ring|) + 4)
    ensures Written(ring, tail, b)[p] == ring[p]
  {
    var t := Place(tail, |b|);
    PlaceInBlock(tail, |b|);
    Contiguous(t, |b|, |ring|);
    if t - tail >= 4 { Contiguous(tail, 4, |ring|); }
    hide Place, FileOff, InBlock, RingSize;
  }

  function Ended(ring: seq<Octet>, tail: nat, t: nat): (r: seq<Octet>)
    requires RingSize(|ring|) && (t == tail || t == AlignUpAlways(tail))
    ensures |r| == |ring|
  {
    if t - tail >= 4 then
      Contiguous(tail, 4, |ring|);
      WriteRing(ring, FileOff(tail, |ring|), ZERO_SIZE)
    else ring
  }

  lemma KeptRecord(crc: Crc, head: nat, ring: seq<Octet>, log: seq<Record>, e: Entry, i: nat)
    requires RingInv(crc, head, TailOf(log), ring, log) && TailOf(log) < head + |ring| && e.Size() < BLOCK_SIZE
    requires i < |log| && NextHead(head, TailOf(log), |ring|, e.Size()) <= log[i].off
    ensures Stored(Written(ring, TailOf(log), Encode(e, crc)), crc, log + [Record(Place(TailOf(log), e.Size()), e)], i)
  {
    var tail, n := TailOf(log), e.Size();
    var t, head' := Place(tail, n), NextHead(head, tail, |ring|, n);
    RoomForEntry(head, tail, |ring|, n);
    PlaceInBlock(tail, n);
    assert First(log, head) <= i;
    assert Stored(ring, crc, log, i);
    if t - tail >= 4 { WriteKeepsStored(crc, head, ring, log, tail, ZERO_SIZE, i); }
    var ring1 := Ended(ring, tail, t);
    assert Stored(ring1, crc, log, i);
    WriteKeepsStored(crc, head', ring1, log, t, Encode(e, crc), i);
    if i == |log| - 1 && t - tail >= 4 {
      WriteHolds(ring, tail, ZERO_SIZE);
      WriteKeeps(ring1, t, Encode(e, crc), tail, ZERO_SIZE);
    }
  }

  /** An entry written while the ring is not exactly full keeps the invariant. */
  lemma AppendInv(crc: Crc, head: nat, ring: seq<Octet>, log: seq<Record>, body: seq<Octet>)
    requires RingInv(crc, head, TailOf(log), ring, log) && TailOf(log) < head + |ring| && 12 + |body| < BLOCK_SIZE
    ensures var e := Entry(|log| % U32_RANGE, body);
            var r := Record(Place(TailOf(log), e.Size()), e);
            RingInv(crc, NextHead(head, TailOf(log), |ring|, e.Size()), r.End(),
              Written(ring, TailOf(log), Encode(e, crc)), log + [r])
  {
    var e := Entry(|log| % U32_RANGE, body);
    var r := Record(Place(TailOf(log), e.Size()), e);
    var head' := NextHead(head, TailOf(log), |ring|, e.Size());
    var ring' := Written(ring, TailOf(log), Encode(e, crc));
    LaidAppend(log, body);
    RoomForEntry(head, TailOf(log), |ring|, e.Size());
    forall i: nat | First(log + [r], head') <= i < |log + [r]| ensures Stored(ring', crc, log + [r], i) {
      if i < |log| {
        assert (log + [r])[i] == log[i];
        KeptRecord(crc, head, ring, log, e, i);
      } else {
        PlaceInBlock(TailOf(log), e.Size());
        WriteHolds(Ended(ring, TailOf(log), r.off), r.off, Encode(e, crc));
      }
    }
  }

  /** From offset `tail` on the ring has never been written. */
  ghost predicate ZeroFrom(ring: seq<Octet>, tail: nat) {
    forall p | tail <= p < |ring| :: ring[p] == 0
  }

  lemma WrittenZeroFrom(ring: seq<Octet>, tail: nat, b: seq<Octet>)
    requires RingSize(|ring|) && 0 < |b| < BLOCK_SIZE && ZeroFrom(ring, tail)
    ensures ZeroFrom(Written(ring, tail, b), Place(tail, |b|) + |b|)
  {
    var t := Place(tail, |b|);
    PlaceInBlock(tail, |b|);
    if t + |b| < |ring| {
      SmallMod(tail, |ring|);
      SmallMod(t, |ring|);
    }
  }

  lemma SmallMod(a: nat, size: nat)
    requires a < size
    ensures a % size == a
  {
  }

  /** An entry written to the ring when it is exactly full lands on the oldest one. */
  lemma WrittenOverHead(ring: seq<Octet>, head: nat, b: seq<Octet>)
    requires RingSize(|ring|) && head % BLOCK_SIZE == 0 && |b| < BLOCK_SIZE
    ensures Place(head + |ring|, |b|) == head + |ring|
    ensures Holds(Written(ring, head + |ring|, b), head, b)
  {
    var t := head + |ring|;
    assert Place(t, |b|) == t;
    WriteHolds(ring, t, b);
    assert FileOff(t, |ring|) == FileOff(head, |ring|) by { ModLap(head, |ring|); }
  }

  lemma ModLap(a: nat, size: nat)
    requires size > 0
    ensures (a + size) % size == a % size
  {
    var q := a / size;
    assert a + size == size * (q + 1) + a % size;
    DivUnique(a + size, size, q + 1);
  }

  // ---------------------------------------------------------------- the header on disk

  datatype JournalType = Invalid | Bilog | Forward | Undo

  datatype Header = Header(head: nat, tail: nat, transCtr: U32, ty: JournalType)

  /** The entry at `i` starts where the one before it ends. */
  ghost predicate NoGap(log: seq<Record>, i: nat)
    requires 0 < i < |log|
  {
    log[i].off == log[i - 1].End()
  }

  /** The header on disk is that of the last entry that skipped the rest of a block: entry number
      `mark`, or the zeros of a new file. */
  ghost predicate DiskInv(disk: Header, head: nat, log: seq<Record>, mark: nat, ty: JournalType) {
    && disk.head == head <= disk.tail && disk.transCtr == mark % U32_RANGE
    && (disk.ty == ty || (disk.ty == Invalid && mark == 0))
    && (log == [] ==> mark == 0 && disk.tail == 0)
    && (log != [] ==> mark < |log| && disk.tail == log[mark].off && disk.tail % BLOCK_SIZE == 0)
    && (forall i | mark < i < |log| :: NoGap(log, i))
  }

  lemma DiskAppend(disk: Header, head: nat, log: seq<Record>, mark: nat, ty: JournalType, r: Record)
    requires DiskInv(disk, head, log, mark, ty) && r.off == TailOf(log)
    ensures DiskInv(disk, head, log + [r], mark, ty)
  {
    var next := log + [r];
    forall i | mark < i < |next| ensures NoGap(next, i) {
      if i < |log| { assert NoGap(log, i); }
    }
  }

  /** The header on disk after an entry. */
  lemma DiskKept(disk: Header, head: nat, log: seq<Record>, mark: nat, ty: JournalType, r: Record, size: nat)
    requires LogInv(head, TailOf(log), size, log)
    requires r.off == Place(TailOf(log), r.entry.Size()) && r.entry.Size() < BLOCK_SIZE
    ensures var head' := NextHead(head, TailOf(log), size, r.entry.Size());
            if r.off == TailOf(log) then
              head' == head && (DiskInv(disk, head, log, mark, ty) ==> DiskInv(disk, head, log + [r], mark, ty))
            else DiskInv(Header(head', r.off, |log| % U32_RANGE, ty), head', log + [r], |log|, ty)
  {
    if r.off == TailOf(log) {
      if DiskInv(disk, head, log, mark, ty) { DiskAppend(disk, head, log, mark, ty, r); }
    } else {
      HeadAtMost(head, TailOf(log), size, r.entry.Size());
    }
  }

  lemma HeadAtMost(head: nat, tail: nat, size: nat, n: nat)
    requires RingSize(size) && head % BLOCK_SIZE == 0 && head <= tail
    ensures NextHead(head, tail, size, n) <= Place(tail, n)
  {
  }

  /** Once the tail has passed the head by more than a lap no block is ever evicted again. */
  lemma NoEviction(head: nat, tail: nat, size: nat, n: nat)
    requires head + size < tail
    ensures NextHead(head, tail, size, n) == head
  {
  }

  /** What one entry does to the parts of the invariant. */
  lemma Appended(crc: Crc, head: nat, ring: seq<Octet>, log: seq<Record>, body: seq<Octet>)
    requires LogInv(head, TailOf(log), |ring|, log) && 12 + |body| < BLOCK_SIZE
    ensures var tail, e := TailOf(log), Entry(|log| % U32_RANGE, body);
            var t, head' := Place(tail, e.Size()), NextHead(head, tail, |ring|, e.Size());
            var r, ring' := Record(t, e), Written(ring, tail, Encode(e, crc));
            && LogInv(head', r.End(), |ring'|, log + [r])
            && (ZeroFrom(ring, tail) ==> ZeroFrom(ring', r.End()))
            && (RingInv(crc, head, tail, ring, log) ==>
                  (RingInv(crc, head', r.End(), ring', log + [r]) <==> tail != head + |ring|))
            && (tail >= head + |ring| ==>
                  head' == head && r.End() > head' + |ring'| && !RingInv(crc, head', r.End(), ring', log + [r]))
            && (tail == head + |ring| ==> t == tail && Holds(ring', head, Encode(e, crc)))
  {
    hide Holds, Stored, Encode, ZeroFrom, Laid, Written;
    var tail, e := TailOf(log), Entry(|log| % U32_RANGE, body);
    if ZeroFrom(ring, tail) { WrittenZeroFrom(ring, tail, Encode(e, crc)); }
    LaidAppend(log, body);
    PlaceInBlock(tail, e.Size());
    if tail < head + |ring| {
      RoomForEntry(head, tail, |ring|, e.Size());
      if RingInv(crc, head, tail, ring, log) { AppendInv(crc, head, ring, log, body); }
    } else if tail == head + |ring| {
      WrittenOverHead(ring, head, Encode(e, crc));
    } else {
      NoEviction(head, tail, |ring|, e.Size());
    }
  }

  /** The body of `write_inner`: ends the block if the entry does not fit in it, evicts the oldest
      block if the tail wrapped onto it, and writes the entry. */
  method Put(crc: Crc, head: nat, tail: nat, ring: seq<Octet>, e: Entry)
    returns (head': nat, tail': nat, ring': seq<Octet>, crossed: bool)
    requires RingSize(|ring|) && e.Size() < BLOCK_SIZE
    ensures crossed <==> Place(tail, e.Size()) != tail
    ensures head' == NextHead(head, tail, |ring|, e.Size()) && tail' == Place(tail, e.Size()) + e.Size()
    ensures ring' == Written(ring, tail, Encode(e, crc))
  {
    hide WriteRing, Encode, AlignUpAlways, RingSize, InBlock, FileOff;
    var esize := e.Size();
    PlaceInBlock(tail, esize);
    var spaceInBlock := AlignUpAlways(tail) - tail;
    head', tail', ring', crossed := head, tail, ring, false;
    if spaceInBlock < esize {
      if spaceInBlock >= 4 {
        EndFits(tail, |ring|);
        ring' := WriteRing(ring', FileOff(tail, |ring|), ZERO_SIZE);
      }
      tail' := AlignUpAlways(tail);
      if head + |ring| == tail' {
        head' := head + BLOCK_SIZE;
      }
      crossed := true;
    }
    EntryFits(tail', esize, |ring|);
    ring' := WriteRing(ring', FileOff(tail', |ring|), Encode(e, crc));
    tail' := tail' + esize;
  }

  /** No entry of the run is written while the tail stands on the block boundary that the head wraps onto. */
  ghost predicate NeverFull(head: nat, tail: nat, size: nat, bodies: seq<seq<Octet>>)
    decreases |bodies|
  {
    bodies != [] ==>
      && tail != head + size
      && var n := 12 + |bodies[0]|;
         NeverFull(NextHead(head, tail, size, n), Place(tail, n) + n, size, bodies[1..])
  }

  lemma HeadGrows(head: nat, tail: nat, size: nat, n: nat)
    ensures head <= NextHead(head, tail, size, n)
  {
  }

  // ---------------------------------------------------------------- the journal object

  class Journal {
    const crc: Crc
    const ty: JournalType
    /** The in-memory header. */
    var head: nat
    var tail: nat
    var transCtr: U32
    /** The journal file: its header and its body of whole blocks. */
    var disk: Header
    var ring: seq<Octet>
    /** Every entry ever written, and the number of the one the header on disk was written for. */
    ghost var log: seq<Record>
    ghost var mark: nat

    /** What every write keeps. */
    ghost predicate Shaped()
      reads this
    {
      LogInv(head, tail, |ring|, log) && transCtr == |log| % U32_RANGE
    }

    /** All entries of the blocks that have not been evicted are in the ring. */
    ghost predicate Valid()
      reads this
    {
      RingInv(crc, head, tail, ring, log) && transCtr == |log| % U32_RANGE
    }

    /** The header on disk describes this journal. */
    ghost predicate HeaderOnDisk()
      reads this
    {
      DiskInv(disk, head, log, mark, ty)
    }

    /** Nothing was ever written after the tail. */
    ghost predicate Unwritten()
      reads this
    {
      ZeroFrom(ring, tail)
    }

    /** An entry was written to a full ring. */
    predicate Overrun()
      reads this
    {
      tail > head + |ring|
    }

    /** The tail is on the block boundary that the head wraps onto. */
    predicate Full()
      reads this
    {
      tail == head + |ring|
    }

    /** The entries of the blocks that have not been evicted. */
    ghost function Retained(): seq<Entry>
      requires Valid()
      reads this
    {
      Entries(log[First(log, head)..])
    }

    /** A journal in a file of whole blocks, whatever that file held before. */
    constructor New(ring: seq<Octet>, disk: Header, crc: Crc, ty: JournalType)
      requires RingSize(|ring|)
      ensures Valid() && log == [] && head == tail == 0 && this.ring == ring && this.disk == disk
      ensures this.crc == crc && this.ty == ty
      ensures HeaderOnDisk() <==> disk.head == disk.tail == disk.transCtr == 0 && (disk.ty == ty || disk.ty == Invalid)
      ensures Unwritten() <==> forall p | 0 <= p < |ring| :: ring[p] == 0
    {
      this.crc, this.ty := crc, ty;
      head, tail, transCtr := 0, 0, 0;
      this.disk, this.ring := disk, ring;
      log, mark := [], 0;
    }

    /** `false` is the failed assertion that the entry is smaller than a block. An entry keeps the journal
        valid unless the ring is exactly full: then no block is evicted, now or later, and the oldest entry is
        overwritten. The first change of block makes the header on disk that of this journal. */
    method WriteInner(body: seq<Octet>) returns (ok: bool)
      requires Shaped()
      modifies this
      ensures ok <==> 12 + |body| < 0x2_0000
      ensures !ok ==> unchanged(this)
      ensures ok ==>
                var e := Entry(old(transCtr), body);
                var t := Place(old(tail), e.Size());
                && log == old(log) + [Record(t, e)] && |ring| == old(|ring|) && tail == t + e.Size()
                && head == NextHead(old(head), old(tail), |ring|, e.Size())
                && (old(Full()) ==> t == old(tail) && Holds(ring, head, Encode(e, crc)))
                && disk == (if t == old(tail) then old(disk) else Header(head, t, e.transId, ty))
                && (t != old(tail) || old(HeaderOnDisk()) ==> HeaderOnDisk())
      ensures Shaped() && (old(Unwritten()) ==> Unwritten())
      ensures ok && old(Valid()) ==> (Valid() <==> !old(Full()))
      ensures ok && (old(Full()) || old(Overrun())) ==> Overrun() && !Valid() && head == old(head)
    {
      hide RingInv, LogInv, DiskInv, ZeroFrom, Encode, Written, Place, NextHead, Holds, RingSize, TailOf;
      if 12 + |body| >= BLOCK_SIZE {
        return false;
      }
      LogFacts();
      var e := Entry(transCtr, body);
      ghost var r := Record(Place(tail, e.Size()), e);
      Appended(crc, head, ring, log, body);
      DiskKept(disk, head, log, mark, ty, r, |ring|);
      NextCounter(log, r);
      var newHead, newTail, file, crossed := Put(crc, head, tail, ring, e);
      if crossed {
        disk := Header(newHead, newTail - e.Size(), transCtr, ty);
        mark := |log|;
      }
      head, tail, ring, transCtr := newHead, newTail, file, (transCtr + 1) % U32_RANGE;
      log := log + [r];
      ok := true;
    }

    static lemma NextCounter(log: seq<Record>, r: Record)
      ensures (|log| % U32_RANGE + 1) % U32_RANGE == |log + [r]| % U32_RANGE
    {
    }

    /** A run of writes, over any number of laps. It keeps the journal valid exactly when no entry is written
        while the ring is exactly full; otherwise the head never moves again. */
    method WriteAll(bodies: seq<seq<Octet>>) returns (ok: bool)
      requires Valid()
      modifies this
      ensures ok <==> forall b | b in bodies :: 12 + |b| < BLOCK_SIZE
      ensures |ring| == old(|ring|) && old(head) <= head && old(log) <= log
      ensures Shaped() && (Valid() || Overrun())
      ensures ok ==> |log| == old(|log|) + |bodies|
                     && forall i | 0 <= i < |bodies| :: log[old(|log|) + i].entry.body == bodies[i]
      ensures NeverFull(old(head), old(tail), |ring|, bodies) ==> Valid()
      ensures ok ==> (Valid() <==> NeverFull(old(head), old(tail), |ring|, bodies))
      ensures (old(HeaderOnDisk()) ==> HeaderOnDisk()) && (old(Unwritten()) ==> Unwritten())
    {
      hide RingInv, LogInv, DiskInv, ZeroFrom, Place, NextHead, TailOf, Encode, Holds;
      ValidShaped();
      assert bodies[0..] == bodies;
      for i := 0 to |bodies|
        invariant Shaped() && |ring| == old(|ring|) && old(head) <= head && old(log) <= log
        invariant if Valid() then
                    NeverFull(old(head), old(tail), |ring|, bodies) <==> NeverFull(head, tail, |ring|, bodies[i..])
                  else Overrun() && !NeverFull(old(head), old(tail), |ring|, bodies)
        invariant forall j | 0 <= j < i :: 12 + |bodies[j]| < BLOCK_SIZE
        invariant |log| == old(|log|) + i && forall j | 0 <= j < i :: log[old(|log|) + j].entry.body == bodies[j]
        invariant (old(HeaderOnDisk()) ==> HeaderOnDisk()) && (old(Unwritten()) ==> Unwritten())
      {
        LogFacts();
        HeadGrows(head, tail, |ring|, 12 + |bodies[i]|);
        assert bodies[i..][0] == bodies[i] && bodies[i..][1..] == bodies[i + 1..];
        ok := WriteInner(bodies[i]);
        if !ok {
          assert bodies[i] in bodies;
          return;
        }
      }
      ok := true;
    }

    lemma ValidShaped()
      requires Valid()
      ensures Shaped() && !Overrun()
    {
    }

    lemma LogFacts()
      requires Shaped()
      ensures RingSize(|ring|) && |ring| > 0 && tail == TailOf(log) && head % BLOCK_SIZE == 0 && head <= tail
    {
    }
  }

  lemma EndFits(tail: nat, size: nat)
    requires RingSize(size) && AlignUpAlways(tail) - tail >= 4
    ensures size > 0 && FileOff(tail, size) + 4 <= size
  {
    Contiguous(tail, 4, size);
  }

  lemma EntryFits(t: nat, n: nat, size: nat)
    requires RingSize(size) && InBlock(t, n)
    ensures size > 0 && FileOff(t, size) + n <= size
  {
    Contiguous(t, n, size);
  }

  ghost function Entries(log: seq<Record>): (es: seq<Entry>)
    ensures |es| == |log| && forall i | 0 <= i < |log| :: es[i] == log[i].entry
  {
    seq(|log|, i requires 0 <= i < |log| => log[i].entry)
  }
}
