/** Reading the journal in both directions. */
module JournalIterators {
  import opened Wrappers
  import opened Octets
  import opened RingLayout
  import opened Journals

  /** `Underflow` is a subtraction of the source that a build with overflow checks refuses. */
  datatype ReadError = ShortRead | Undecodable | EntryTooLarge | ChecksumMismatch | Underflow

  type Item = Option<Result<Entry, ReadError>>

  /** `read_exact_at`, relative to the end of the file header. */
  function ReadAt(ring: seq<Octet>, pos: nat, n: nat): (r: Option<seq<Octet>>)
    ensures r.Some? ==> |r.value| == n
  {
    if pos + n <= |ring| then Some(ring[pos..pos + n]) else None
  }

  /** The serialised entry, without looking at its checksum. */
  function Decode(b: seq<Octet>): Option<Entry> {
    if |b| < 12 then None else Some(Entry(DecodeU32(b[4..8]), b[8..|b| - 4]))
  }

  // ---------------------------------------------------------------- one entry in the ring

  /** Entry `e` can be read at `off`. */
  ghost predicate Readable(ring: seq<Octet>, crc: Crc, off: nat, e: Entry) {
    e.Size() < BLOCK_SIZE && InBlock(off, e.Size()) && Holds(ring, off, Encode(e, crc))
  }

  lemma ReadParts(ring: seq<Octet>, crc: Crc, off: nat, e: Entry)
    requires Readable(ring, crc, off, e)
    ensures |ring| > 0 && off < off + e.Size() <= AlignUpAlways(off)
    ensures var p := FileOff(off, |ring|);
            && ReadAt(ring, p, 4).Some? && ReadAt(ring, p, 4).value != ZERO_SIZE
            && DecodeU32(ReadAt(ring, p, 4).value) == e.Size()
            && ReadAt(ring, p, e.Size()) == Some(Encode(e, crc))
  {
    EncodeParts(e, crc);
    var p := FileOff(off, |ring|);
    assert ring[p..p + 4] == Encode(e, crc)[..4];
  }

  /** The size that the bytes at `off` give. */
  ghost function SizeAt(ring: seq<Octet>, off: nat): U32
    requires |ring| > 0
  {
    var word := ReadAt(ring, FileOff(off, |ring|), 4);
    if word.Some? then DecodeU32(word.value) else 0
  }

  /** `b` reads as `e`, followed by any checksum. */
  ghost predicate Spells(b: seq<Octet>, e: Entry, sum: U32) {
    e.Size() < U32_RANGE && b == EncodeU32(e.Size()) + EncodeU32(e.transId) + e.body + EncodeU32(sum)
  }

  ghost predicate Spelled(b: seq<Octet>, e: Entry) {
    exists sum: U32 :: Spells(b, e, sum)
  }

  lemma SpellsParts(b: seq<Octet>, e: Entry, sum: U32)
    requires Spells(b, e, sum)
    ensures |b| == e.Size() >= 12 && DecodeU32(b[..4]) == |b| && Decode(b) == Some(e) && DecodeU32(b[|b| - 4..]) == sum
  {
    assert b[..4] == EncodeU32(e.Size()) && b[4..8] == EncodeU32(e.transId);
    assert b[8..|b| - 4] == e.body && b[|b| - 4..] == EncodeU32(sum);
    U32RoundTrip(e.Size());
    U32RoundTrip(e.transId);
    U32RoundTrip(sum);
  }

  lemma DecodeSpells(b: seq<Octet>)
    requires 12 <= |b| < U32_RANGE && DecodeU32(b[..4]) == |b|
    ensures Decode(b).Some? && Spells(b, Decode(b).value, DecodeU32(b[|b| - 4..]))
  {
    WordBack(b[..4]);
    WordBack(b[4..8]);
    WordBack(b[|b| - 4..]);
    assert b == b[..4] + b[4..8] + b[8..|b| - 4] + b[|b| - 4..];
  }

  lemma EncodeSpells(e: Entry, crc: Crc)
    requires e.Size() < U32_RANGE
    ensures var b := Encode(e, crc); Spells(b, e, crc(b[..|b| - 4]))
  {
    hide EncodeU32;
    var prefix := EncodeU32(e.Size()) + EncodeU32(e.transId) + e.body;
    WithoutSum(prefix, EncodeU32(crc(prefix)));
  }

  lemma SpellsEncoded(b: seq<Octet>, e: Entry, crc: Crc)
    requires |b| >= 4 && Spells(b, e, crc(b[..|b| - 4]))
    ensures b == Encode(e, crc)
  {
    hide EncodeU32;
    WithoutSum(EncodeU32(e.Size()) + EncodeU32(e.transId) + e.body, EncodeU32(crc(b[..|b| - 4])));
  }

  lemma WithoutSum(a: seq<Octet>, b: seq<Octet>)
    requires |b| == 4
    ensures (a + b)[..|a + b| - 4] == a
  {
  }

  // ---------------------------------------------------------------- forward

  /** Where the forward iterator looks for an entry. */
  ghost function EntryStart(ring: seq<Octet>, head: nat): nat {
    if AlignUpAlways(head) - head < 4 || Holds(ring, head, ZERO_SIZE) then AlignUpAlways(head) else head
  }

  /** The ring shows `e` at `off`, whatever the checksum after it is. */
  ghost predicate Shows(ring: seq<Octet>, off: nat, e: Entry) {
    && |ring| > 0 && FileOff(off, |ring|) + e.Size() <= |ring|
    && Spelled(ring[FileOff(off, |ring|)..FileOff(off, |ring|) + e.Size()], e)
  }

  lemma StartReadable(ring: seq<Octet>, head: nat)
    requires RingSize(|ring|)
    ensures |ring| > 0 && FileOff(EntryStart(ring, head), |ring|) + 4 <= |ring|
    ensures AlignUpAlways(head) - head >= 4 ==> FileOff(head, |ring|) + 4 <= |ring|
  {
    Contiguous(EntryStart(ring, head), 4, |ring|);
    if AlignUpAlways(head) - head >= 4 { Contiguous(head, 4, |ring|); }
  }

  /** The `n` bytes at `off` decode to `e`. */
  ghost predicate ShownBy(ring: seq<Octet>, off: nat, n: nat, e: Entry)
    requires |ring| > 0
  {
    && n == e.Size() && FileOff(off, |ring|) + n <= |ring|
    && Decode(ring[FileOff(off, |ring|)..FileOff(off, |ring|) + n]) == Some(e)
  }

  lemma ShowsSize(ring: seq<Octet>, off: nat, e: Entry)
    requires |ring| > 0 && Shows(ring, off, e)
    ensures ShownBy(ring, off, SizeAt(ring, off), e)
  {
    hide FileOff, Decode, DecodeU32;
    var p := FileOff(off, |ring|);
    var b := ring[p..p + e.Size()];
    var sum: U32 :| Spells(b, e, sum);
    SpellsParts(b, e, sum);
    assert b[..4] == ring[p..p + 4];
  }

  lemma ShowsDecoded(ring: seq<Octet>, off: nat, n: nat)
    requires |ring| > 0 && n == SizeAt(ring, off) >= 12 && FileOff(off, |ring|) + n <= |ring|
    ensures var b := ring[FileOff(off, |ring|)..FileOff(off, |ring|) + n];
      Decode(b).Some? && Shows(ring, off, Decode(b).value)
  {
    hide FileOff, DecodeU32;
    var p := FileOff(off, |ring|);
    var b := ring[p..p + n];
    assert b[..4] == ring[p..p + 4];
    DecodeSpells(b);
  }

  /** The item read at `head`, and the head after it: the end, the entry that the ring shows, or an error when the size
      is too small for an entry or leads past the end of the file. */
  ghost predicate ReadsForward(ring: seq<Octet>, head: nat, tail: nat, item: Item, head': nat)
    requires |ring| > 0
  {
    if head == tail then item == None && head' == head
    else
      var at := EntryStart(ring, head);
      var past := FileOff(at, |ring|) + SizeAt(ring, at) > |ring|;
      && item.Some? && (item.value.Err? ==> head' == at)
      && (forall e :: item == Some(Ok(e)) <==> Shows(ring, at, e))
      && (forall e :: Shows(ring, at, e) ==> head' == at + e.Size())
      && (item == Some(Err(ShortRead)) <==> past)
      && (item == Some(Err(Undecodable)) <==> SizeAt(ring, at) < 12 && !past)
  }

  /** One call of `next` of the forward iterator, on a ring with any bytes in it. It yields what the ring shows, and
      does not look at the checksum. */
  method ForwardStep(ring: seq<Octet>, head: nat, tail: nat) returns (item: Item, head': nat)
    requires RingSize(|ring|)
    ensures ReadsForward(ring, head, tail, item, head')
  {
    hide AlignUpAlways, FileOff, Shows, DecodeU32, RingSize;
    head' := head;
    if head == tail {
      return None, head;
    }
    ghost var at := EntryStart(ring, head);
    StartReadable(ring, head);
    if AlignUpAlways(head) - head < 4 {
      head' := AlignUpAlways(head);
    } else {
      var buf := ReadAt(ring, FileOff(head, |ring|), 4);
      if buf.None? {
        return Some(Err(ShortRead)), head;
      }
      if buf.value == ZERO_SIZE {
        head' := AlignUpAlways(head);
      }
    }
    var size := ReadAt(ring, FileOff(head', |ring|), 4);
    if size.None? {
      return Some(Err(ShortRead)), head';
    }
    var fsize := DecodeU32(size.value);
    forall e | Shows(ring, at, e) ensures ShownBy(ring, at, fsize, e) { ShowsSize(ring, at, e); }
    var buf := ReadAt(ring, FileOff(head', |ring|), fsize);
    if buf.None? {
      return Some(Err(ShortRead)), head';
    }
    var entry := Decode(buf.value);
    if entry.None? {
      return Some(Err(Undecodable)), head';
    }
    ShowsDecoded(ring, at, fsize);
    return Some(Ok(entry.value)), head' + fsize;
  }

  /** Where an entry can be read, it is what the ring shows. */
  lemma ReadableShows(ring: seq<Octet>, crc: Crc, off: nat, e: Entry)
    requires Readable(ring, crc, off, e)
    ensures Shows(ring, off, e)
  {
    hide Encode, FileOff, InBlock;
    EncodeSpells(e, crc);
  }

  /** The iterator stands at an entry, or before the rest of a block that is too short or marked. */
  lemma StartsAt(ring: seq<Octet>, crc: Crc, head: nat, off: nat, e: Entry)
    requires Readable(ring, crc, off, e)
    requires off != head ==> off == AlignUpAlways(head) && (off - head < 4 || Holds(ring, head, ZERO_SIZE))
    ensures EntryStart(ring, head) == off && Shows(ring, off, e)
  {
    hide Encode, FileOff, Shows;
    ReadableShows(ring, crc, off, e);
    ReadParts(ring, crc, off, e);
  }

  /** The block that the head is on starts with the first retained entry. */
  lemma FirstAtHead(log: seq<Record>, head: nat)
    requires Laid(log) && head % BLOCK_SIZE == 0 && head < TailOf(log)
    ensures First(log, head) < |log| && log[First(log, head)].off == head
  {
    var i := BlockStart(log, head);
    var f := First(log, head);
    assert f <= i;
    if f < i { Increasing(log, f, i); }
  }

  class ForwardIterator {
    const journal: Journal
    var head: nat
    var tail: nat
    /** Number of the entry to be read next. */
    ghost var pos: nat

    ghost predicate Valid()
      reads this, journal
    {
      && journal.Valid() && tail == journal.tail
      && First(journal.log, journal.head) <= pos <= |journal.log|
      && head == if pos == First(journal.log, journal.head) then journal.head else journal.log[pos - 1].End()
    }

    constructor (journal: Journal)
      ensures this.journal == journal && head == journal.head && tail == journal.tail
      ensures journal.Valid() ==> Valid() && pos == First(journal.log, journal.head)
    {
      this.journal := journal;
      head, tail := journal.head, journal.tail;
      pos := if journal.Valid() then First(journal.log, journal.head) else 0;
    }

    /** Yields what the ring shows, which in a valid journal are the retained entries in order, and never an error. */
    method Next() returns (item: Item)
      requires RingSize(|journal.ring|)
      modifies this
      ensures tail == old(tail) && ReadsForward(journal.ring, old(head), tail, item, head)
      ensures old(Valid()) ==> Valid()
      ensures old(Valid()) ==>
                if old(pos) < |journal.log| then item == Some(Ok(journal.log[old(pos)].entry)) && pos == old(pos) + 1
                else item == None && pos == old(pos)
    {
      hide Holds, AlignUpAlways, Encode, First, Shows, EntryStart, FileOff, Readable, RingInv;
      if Valid() {
        NextRecord(journal.crc, journal.head, journal.tail, journal.ring, journal.log, pos, head);
        if pos < |journal.log| {
          StartsAt(journal.ring, journal.crc, head, journal.log[pos].off, journal.log[pos].entry);
        }
      }
      item, head := ForwardStep(journal.ring, head, tail);
      if pos < |journal.log| { pos := pos + 1; }
    }
  }

  lemma NextRecord(crc: Crc, jhead: nat, tail: nat, ring: seq<Octet>, log: seq<Record>, pos: nat, head: nat)
    requires RingInv(crc, jhead, tail, ring, log)
    requires First(log, jhead) <= pos <= |log|
    requires head == if pos == First(log, jhead) then jhead else log[pos - 1].End()
    ensures |ring| > 0 && (head == tail <==> pos == |log|)
    ensures pos < |log| ==>
              && Readable(ring, crc, log[pos].off, log[pos].entry)
              && (log[pos].off != head ==>
                    log[pos].off == AlignUpAlways(head) && (log[pos].off - head < 4 || Holds(ring, head, ZERO_SIZE)))
  {
    hide Holds, Encode;
    if log != [] { FirstAtHead(log, jhead); }
    if pos < |log| {
      Follows(log, pos);
      assert Stored(ring, crc, log, pos);
      assert log[pos].End() <= tail by { BelowTail(log, pos); }
      if pos > First(log, jhead) {
        assert Stored(ring, crc, log, pos - 1);
      }
    }
  }

  /** A reader that saw exactly these entries and no error. */
  ghost function Oks(es: seq<Entry>): (items: seq<Result<Entry, ReadError>>)
    ensures |items| == |es| && forall i | 0 <= i < |es| :: items[i] == Ok(es[i])
  {
    seq(|es|, i requires 0 <= i < |es| => Ok(es[i]))
  }

  /** Reading the whole journal forward yields exactly the retained entries. */
  method ReadForward(journal: Journal) returns (items: seq<Result<Entry, ReadError>>)
    requires journal.Valid()
    ensures items == Oks(journal.Retained())
  {
    hide RingInv, First, Laid;
    RingFacts(journal.crc, journal.head, journal.tail, journal.ring, journal.log);
    var it := new ForwardIterator(journal);
    ghost var f := First(journal.log, journal.head);
    items := [];
    while true
      invariant it.Valid() && it.journal == journal
      invariant items == Oks(Entries(journal.log[f..it.pos]))
      decreases |journal.log| - it.pos
    {
      var item := it.Next();
      if item.None? {
        return;
      }
      items := items + [item.value];
    }
  }

  /** No more than needed is evicted: every entry of the last lap but one block is retained. */
  lemma RecentRetained(crc: Crc, head: nat, tail: nat, ring: seq<Octet>, log: seq<Record>, i: nat)
    requires RingInv(crc, head, tail, ring, log) && i < |log| && tail + BLOCK_SIZE <= log[i].off + |ring|
    ensures First(log, head) <= i && log[i].entry in Entries(log[First(log, head)..])
  {
    var f := First(log, head);
    assert head <= log[i].off;
    assert Entries(log[f..])[i - f] == log[i].entry;
  }

  /** Transaction numbers are consecutive, modulo the 32-bit counter. */
  lemma ConsecutiveIds(log: seq<Record>, i: nat)
    requires Laid(log) && i + 1 < |log|
    ensures log[i + 1].entry.transId == (log[i].entry.transId + 1) % U32_RANGE
  {
    hide Laid;
    Follows(log, i);
    Follows(log, i + 1);
    NextId(i);
  }

  lemma NextId(i: nat)
    ensures (i + 1) % U32_RANGE == (i % U32_RANGE + 1) % U32_RANGE
  {
  }

  /** When the ring is exactly full, the next entry is written over the oldest one: the first entry that
      a reader sees is then the newest, and the reader does not stop after it. */
  method FirstAfterOverwrite(journal: Journal, body: seq<Octet>) returns (item: Item, head': nat)
    requires journal.Valid() && journal.Full() && 12 + |body| < BLOCK_SIZE
    modifies journal
    ensures item == Some(Ok(Entry(old(journal.transCtr), body))) && head' != journal.tail
    ensures journal.log == old(journal.log) + [Record(old(journal.tail), Entry(old(journal.transCtr), body))]
    ensures journal.Shaped() && journal.Overrun() && !journal.Valid()
  {
    hide RingInv, LogInv, Encode, Holds, InBlock, Shows, EntryStart, RingSize, FileOff, NextHead, TailOf, DiskInv;
    ghost var e := Entry(journal.transCtr, body);
    journal.ValidShaped();
    journal.LogFacts();
    AtBlockStart(journal.head, e.Size(), |journal.ring|);
    var ok := journal.WriteInner(body);
    journal.LogFacts();
    StartsAt(journal.ring, journal.crc, journal.head, journal.head, e);
    item, head' := ForwardStep(journal.ring, journal.head, journal.tail);
  }

  lemma AtBlockStart(head: nat, n: nat, size: nat)
    requires head % BLOCK_SIZE == 0 && RingSize(size) && n < BLOCK_SIZE
    ensures InBlock(head, n) && Place(head + size, n) == head + size
  {
  }

  lemma WholeBlocks(blocks: nat)
    requires blocks > 0
    ensures RingSize(blocks * BLOCK_SIZE) && blocks * BLOCK_SIZE >= BLOCK_SIZE
  {
  }

  /** A new ring of zeroes in which two entries of half a block fill the first block. */
  method HalfBlocks(blocks: nat, crc: Crc, ty: JournalType) returns (journal: Journal)
    requires blocks > 0
    ensures fresh(journal) && journal.Valid() && journal.HeaderOnDisk() && journal.Unwritten() && journal.Shaped()
    ensures |journal.ring| == blocks * BLOCK_SIZE && journal.head == 0 && journal.tail == BLOCK_SIZE
    ensures |journal.log| == 2 && journal.transCtr == 2 && journal.disk == Header(0, 0, 0, Invalid)
  {
    hide RingInv, LogInv, DiskInv, Encode, Holds, RingSize;
    WholeBlocks(blocks);
    journal := new Journal.New(seq(blocks * BLOCK_SIZE, _ => 0), Header(0, 0, 0, Invalid), crc, ty);
    journal.ValidShaped();
    var half := seq(BLOCK_SIZE / 2 - 12, _ => 0);
    var ok := journal.WriteInner(half);
    ok := journal.WriteInner(half);
  }

  /** In a ring of one block they fill it exactly. */
  method FillRing(crc: Crc, ty: JournalType) returns (journal: Journal)
    ensures fresh(journal) && journal.Valid() && journal.Full() && journal.HeaderOnDisk() && journal.Unwritten()
    ensures |journal.log| == 2 && journal.transCtr == 2 && First(journal.log, journal.head) == 0
  {
    hide RingInv, LogInv, DiskInv;
    journal := HalfBlocks(1, crc, ty);
    RingFacts(journal.crc, journal.head, journal.tail, journal.ring, journal.log);
  }

  /** The next entry is all that a reader then finds at the head. */
  method FullRingOverwritten(crc: Crc, ty: JournalType, body: seq<Octet>) returns (journal: Journal, item: Item)
    requires 12 + |body| < BLOCK_SIZE
    ensures item == Some(Ok(Entry(2, body))) && |journal.log| == 3 && journal.Overrun() && !journal.Valid()
  {
    journal := FillRing(crc, ty);
    var rest;
    item, rest := FirstAfterOverwrite(journal, body);
  }

  // ---------------------------------------------------------------- reverse

  /** Start of the block that ends at or contains `tail`. */
  function BlockBefore(tail: nat): nat
    requires tail > 0
  {
    if tail % BLOCK_SIZE != 0 then AlignDown(tail) else tail - BLOCK_SIZE
  }

  /** `tail` is the tail of the journal, or a block boundary below it. */
  ghost predicate Boundary(log: seq<Record>, tail: nat) {
    tail == TailOf(log) || (tail % BLOCK_SIZE == 0 && tail < TailOf(log))
  }

  /** Within a block entries follow each other without a gap. */
  lemma SameBlock(log: seq<Record>, start: nat, tail: nat, i: nat)
    requires Laid(log) && start % BLOCK_SIZE == 0 && tail <= start + BLOCK_SIZE && 0 < i < |log|
    requires start <= log[i - 1].off && log[i].off < tail
    ensures log[i].off == log[i - 1].End()
  {
    Follows(log, i);
  }

  /** After the last entry of a block the rest is too short for an entry, or marked. */
  lemma BlockEnd(crc: Crc, head: nat, ring: seq<Octet>, log: seq<Record>, tail: nat)
    requires RingInv(crc, head, TailOf(log), ring, log) && Boundary(log, tail) && head < tail
    ensures var a := First(log, tail);
            && First(log, head) < a && log[a - 1].End() <= tail
            && (tail - log[a - 1].End() < 4 || Holds(ring, log[a - 1].End(), ZERO_SIZE))
  {
    hide Holds, Encode;
    var a := First(log, tail);
    FirstAtHead(log, head);
    assert First(log, head) < a;
    if tail < TailOf(log) {
      FirstAtHead(log, tail);
      Increasing(log, a - 1, a);
      assert Stored(ring, crc, log, a - 1);
    } else {
      assert a == |log| by { LastBelowTail(log); }
    }
  }

  lemma LastBelowTail(log: seq<Record>)
    requires Laid(log)
    ensures First(log, TailOf(log)) == |log|
  {
    if First(log, TailOf(log)) < |log| {
      var i := First(log, TailOf(log));
      BelowTail(log, i);
    }
  }

  /** The entries at offsets in [start, tail). */
  ghost function EntriesBetween(log: seq<Record>, start: nat, tail: nat): seq<Entry>
    requires Laid(log)
  {
    if First(log, start) <= First(log, tail) then Entries(log[First(log, start)..First(log, tail)]) else []
  }

  /** The ring holds entry `e` at `at`, in one block and with its checksum. */
  ghost predicate EntryAt(ring: seq<Octet>, crc: Crc, at: nat, e: Entry) {
    InBlock(at, e.Size()) && Holds(ring, at, Encode(e, crc))
  }

  /** From `at` to `tail` the ring holds `es`, one after the other, and then an end marker or no room for one. */
  ghost predicate BlockHolds(ring: seq<Octet>, crc: Crc, at: nat, tail: nat, es: seq<Entry>)
    decreases |es|
  {
    if es == [] then at <= tail && (tail - at < 4 || Holds(ring, at, ZERO_SIZE))
    else at + 4 <= tail && EntryAt(ring, crc, at, es[0]) && BlockHolds(ring, crc, at + es[0].Size(), tail, es[1..])
  }

  /** Why the bytes at `at` are not decoded. */
  ghost predicate Stuck(ring: seq<Octet>, crc: Crc, at: nat, tail: nat, error: ReadError)
    requires RingSize(|ring|)
  {
    if at > tail then error == Underflow
    else
      && at + 4 <= tail && InBlock(at, 4)
      && var n := SizeAt(ring, at);
         && n > 0
         && if !InBlock(at, n) then error == EntryTooLarge
            else if n < 4 then error == Underflow
            else
              Contiguous(at, n, |ring|);
              var b := ring[FileOff(at, |ring|)..FileOff(at, |ring|) + n];
              if DecodeU32(b[n - 4..]) != crc(b[..n - 4]) then error == ChecksumMismatch
              else n < 12 && error == Undecodable
  }

  /** From `at` on the ring holds `es`, and then something that is not decoded. */
  ghost predicate BlockStuck(ring: seq<Octet>, crc: Crc, at: nat, tail: nat, es: seq<Entry>, error: ReadError)
    requires RingSize(|ring|)
    decreases |es|
  {
    if es == [] then Stuck(ring, crc, at, tail, error)
    else
      && at + 4 <= tail && EntryAt(ring, crc, at, es[0])
      && BlockStuck(ring, crc, at + es[0].Size(), tail, es[1..], error)
  }

  /** What the decoder says of the bytes from `at` to `tail`. */
  ghost predicate BlockReads(ring: seq<Octet>, crc: Crc, at: nat, tail: nat, es: seq<Entry>, error: Option<ReadError>)
    requires RingSize(|ring|)
  {
    if error.None? then BlockHolds(ring, crc, at, tail, es) else BlockStuck(ring, crc, at, tail, es, error.value)
  }

  /** The decoder has passed over `done` and stands at `at`. */
  ghost predicate Passed(ring: seq<Octet>, crc: Crc, start: nat, tail: nat, done: seq<Entry>, at: nat)
    decreases |done|
  {
    if done == [] then at == start
    else
      && start + 4 <= tail && EntryAt(ring, crc, start, done[0])
      && Passed(ring, crc, start + done[0].Size(), tail, done[1..], at)
  }

  lemma {:induction false} PassedOne(ring: seq<Octet>, crc: Crc, start: nat, tail: nat, done: seq<Entry>, at: nat,
                                     e: Entry)
    requires Passed(ring, crc, start, tail, done, at) && at + 4 <= tail && EntryAt(ring, crc, at, e)
    ensures Passed(ring, crc, start, tail, done + [e], at + e.Size())
    decreases |done|
  {
    hide EntryAt;
    if done == [] {
      assert [e][1..] == [];
    } else {
      PassedOne(ring, crc, start + done[0].Size(), tail, done[1..], at, e);
      assert (done + [e])[1..] == done[1..] + [e];
    }
  }

  lemma {:induction false} PassedReads(ring: seq<Octet>, crc: Crc, start: nat, tail: nat, done: seq<Entry>, at: nat,
                                       error: Option<ReadError>)
    requires RingSize(|ring|) && Passed(ring, crc, start, tail, done, at) && BlockReads(ring, crc, at, tail, [], error)
    ensures BlockReads(ring, crc, start, tail, done, error)
    decreases |done|
  {
    hide EntryAt, Stuck, Holds, RingSize;
    if done != [] { PassedReads(ring, crc, start + done[0].Size(), tail, done[1..], at, error); }
  }

  /** The bytes at `at` are an entry when the size, the checksum and the length are right. */
  lemma EntryThere(ring: seq<Octet>, crc: Crc, at: nat)
    requires RingSize(|ring|) && InBlock(at, 4) && InBlock(at, SizeAt(ring, at)) && SizeAt(ring, at) >= 12
    requires FileOff(at, |ring|) + SizeAt(ring, at) <= |ring|
    requires var n := SizeAt(ring, at);
      var b := ring[FileOff(at, |ring|)..FileOff(at, |ring|) + n];
      DecodeU32(b[n - 4..]) == crc(b[..n - 4])
    ensures var b := ring[FileOff(at, |ring|)..FileOff(at, |ring|) + SizeAt(ring, at)];
      Decode(b).Some? && Decode(b).value.Size() == SizeAt(ring, at) && EntryAt(ring, crc, at, Decode(b).value)
  {
    hide FileOff, InBlock, DecodeU32, Encode, RingSize;
    var p, n := FileOff(at, |ring|), SizeAt(ring, at);
    var b := ring[p..p + n];
    assert b[..4] == ring[p..p + 4];
    DecodeSpells(b);
    SpellsEncoded(b, Decode(b).value, crc);
  }

  lemma BlockReadable(ring: seq<Octet>, at: nat, n: nat)
    requires RingSize(|ring|) && InBlock(at, n)
    ensures |ring| > 0 && ReadAt(ring, FileOff(at, |ring|), n).Some?
  {
    Contiguous(at, n, |ring|);
  }

  /** One turn of the decoder. */
  datatype Turn = Ended | Failed(error: ReadError) | Decoded(entry: Entry)

  method DecodeOne(crc: Crc, ring: seq<Octet>, decodeTail: nat, tail: nat) returns (t: Turn)
    requires RingSize(|ring|) && (decodeTail < tail ==> tail <= AlignUpAlways(decodeTail))
    ensures t.Ended? ==> BlockHolds(ring, crc, decodeTail, tail, [])
    ensures t.Failed? ==> Stuck(ring, crc, decodeTail, tail, t.error)
    ensures t.Decoded? ==> decodeTail + 4 <= tail && EntryAt(ring, crc, decodeTail, t.entry)
  {
    hide Encode, FileOff, DecodeU32, RingSize, EntryAt;
    if decodeTail > tail {
      return Failed(Underflow);
    }
    if tail - decodeTail < 4 {
      return Ended;
    }
    BlockReadable(ring, decodeTail, 4);
    var size := ReadAt(ring, FileOff(decodeTail, |ring|), 4);
    if size.value == ZERO_SIZE {
      return Ended;
    }
    ZeroWord(size.value);
    var fsize := DecodeU32(size.value);
    if fsize > AlignUpAlways(decodeTail) - decodeTail {
      return Failed(EntryTooLarge);
    }
    BlockReadable(ring, decodeTail, fsize);
    var buf := ReadAt(ring, FileOff(decodeTail, |ring|), fsize);
    if fsize < 4 {
      return Failed(Underflow);
    }
    if DecodeU32(buf.value[fsize - 4..]) != crc(buf.value[..fsize - 4]) {
      return Failed(ChecksumMismatch);
    }
    var entry := Decode(buf.value);
    if entry.None? {
      return Failed(Undecodable);
    }
    EntryThere(ring, crc, decodeTail);
    return Decoded(entry.value);
  }

  /** Decodes the entries of one block, up to `tail`, on a ring with any bytes in it. On an error the buffer holds the
      entries before it. */
  method LoadBlock(crc: Crc, ring: seq<Octet>, tail: nat) returns (buffer: seq<Entry>, error: Option<ReadError>)
    requires RingSize(|ring|) && tail > 0
    ensures BlockReads(ring, crc, BlockBefore(tail), tail, buffer, error)
  {
    hide Holds, RingSize, AlignUpAlways, InBlock, Encode, Stuck;
    BlockStartIs(tail);
    var decodeTail := BlockBefore(tail);
    ghost var end := AlignUpAlways(decodeTail);
    buffer, error := [], None;
    while true
      invariant Passed(ring, crc, BlockBefore(tail), tail, buffer, decodeTail)
      invariant decodeTail <= end && (decodeTail < tail ==> tail <= AlignUpAlways(decodeTail) == end)
      decreases end - decodeTail
    {
      var t := DecodeOne(crc, ring, decodeTail, tail);
      match t
      case Ended =>
        PassedReads(ring, crc, BlockBefore(tail), tail, buffer, decodeTail, error);
        return;
      case Failed(e) =>
        error := Some(e);
        PassedReads(ring, crc, BlockBefore(tail), tail, buffer, decodeTail, error);
        return;
      case Decoded(entry) =>
        PassedOne(ring, crc, BlockBefore(tail), tail, buffer, decodeTail, entry);
        NextInBlock(decodeTail, entry.Size(), tail);
        decodeTail := decodeTail + entry.Size();
        buffer := buffer + [entry];
    }
  }

  lemma BlockStartIs(tail: nat)
    requires tail > 0
    ensures BlockBefore(tail) < tail <= AlignUpAlways(BlockBefore(tail))
  {
  }

  lemma NextInBlock(at: nat, n: nat, tail: nat)
    requires InBlock(at, n) && at < tail <= AlignUpAlways(at)
    ensures at + n <= AlignUpAlways(at) && (at + n < tail ==> AlignUpAlways(at + n) == AlignUpAlways(at))
  {
  }

  // ---------------------------------------------------------------- what the decoder finds is determined

  lemma EntryOnly(ring: seq<Octet>, crc: Crc, at: nat, e: Entry, e': Entry)
    requires EntryAt(ring, crc, at, e) && EntryAt(ring, crc, at, e')
    ensures e == e'
  {
    hide Encode, FileOff, Decode, DecodeU32;
    EntrySize(ring, crc, at, e);
    EntrySize(ring, crc, at, e');
  }

  lemma EntrySize(ring: seq<Octet>, crc: Crc, at: nat, e: Entry)
    requires EntryAt(ring, crc, at, e)
    ensures |ring| > 0 && FileOff(at, |ring|) + e.Size() <= |ring| && SizeAt(ring, at) == e.Size()
    ensures ring[FileOff(at, |ring|)..FileOff(at, |ring|) + e.Size()] == Encode(e, crc)
    ensures Decode(Encode(e, crc)) == Some(e)
    ensures var b := Encode(e, crc); DecodeU32(b[|b| - 4..]) == crc(b[..|b| - 4])
  {
    hide Encode, FileOff, Decode, DecodeU32;
    var p, b := FileOff(at, |ring|), Encode(e, crc);
    EncodeSpells(e, crc);
    SpellsParts(b, e, crc(b[..|b| - 4]));
    assert ring[p..p + |b|] == b;
    assert ring[p..p + 4] == b[..4];
  }

  /** Where there is an entry the decoder neither ends nor fails. */
  lemma EntryGoesOn(ring: seq<Octet>, crc: Crc, at: nat, tail: nat, e: Entry, error: ReadError)
    requires RingSize(|ring|) && at + 4 <= tail && EntryAt(ring, crc, at, e)
    ensures !Stuck(ring, crc, at, tail, error) && !BlockHolds(ring, crc, at, tail, [])
  {
    EntrySize(ring, crc, at, e);
    hide Encode, FileOff, Decode, EntryAt, RingSize;
    ZeroWord(ZERO_SIZE);
  }

  lemma {:induction false} ReadsOnce(ring: seq<Octet>, crc: Crc, at: nat, tail: nat, es: seq<Entry>,
                                     error: Option<ReadError>, es': seq<Entry>, error': Option<ReadError>)
    requires RingSize(|ring|)
    requires BlockReads(ring, crc, at, tail, es, error) && BlockReads(ring, crc, at, tail, es', error')
    ensures es == es' && error == error'
    decreases |es|
  {
    hide EntryAt, RingSize;
    if es != [] && es' != [] {
      EntryOnly(ring, crc, at, es[0], es'[0]);
      ReadsOnce(ring, crc, at + es[0].Size(), tail, es[1..], error, es'[1..], error');
      assert es == [es[0]] + es[1..] && es' == [es'[0]] + es'[1..];
    } else if es != [] {
      EntryGoesOn(ring, crc, at, tail, es[0], if error'.Some? then error'.value else ShortRead);
    } else if es' != [] {
      EntryGoesOn(ring, crc, at, tail, es'[0], if error.Some? then error.value else ShortRead);
    } else {
      StuckOnce(ring, crc, at, tail, error, error');
    }
  }

  lemma StuckOnce(ring: seq<Octet>, crc: Crc, at: nat, tail: nat, error: Option<ReadError>, error': Option<ReadError>)
    requires RingSize(|ring|)
    requires BlockReads(ring, crc, at, tail, [], error) && BlockReads(ring, crc, at, tail, [], error')
    ensures error == error'
  {
    ZeroWord(ZERO_SIZE);
    hide FileOff, InBlock, RingSize;
  }

  /** An entry whose checksum is wrong is yielded by the forward iterator and refused by the other. */
  lemma ChecksumIgnored(ring: seq<Octet>, crc: Crc, head: nat, tail: nat, e: Entry, sum: U32)
    requires RingSize(|ring|) && InBlock(head, e.Size()) && head + 4 <= tail
    requires FileOff(head, |ring|) + e.Size() <= |ring|
    requires var b := ring[FileOff(head, |ring|)..FileOff(head, |ring|) + e.Size()];
      Spells(b, e, sum) && sum != crc(b[..|b| - 4])
    ensures forall item, head' | ReadsForward(ring, head, tail, item, head') ::
              item == Some(Ok(e)) && head' == head + e.Size()
    ensures Stuck(ring, crc, head, tail, ChecksumMismatch)
  {
    var p := FileOff(head, |ring|);
    var b := ring[p..p + e.Size()];
    assert Shows(ring, head, e);
    hide FileOff, DecodeU32, RingSize, Shows, Decode;
    SpellsParts(b, e, sum);
    assert b[..4] == ring[p..p + 4];
    ZeroWord(ring[p..p + 4]);
    assert EntryStart(ring, head) == head;
  }

  // ---------------------------------------------------------------- the blocks of a valid journal

  lemma {:induction false} LogBlock(crc: Crc, head: nat, ring: seq<Octet>, log: seq<Record>, tail: nat, i: nat, at: nat)
    requires RingInv(crc, head, TailOf(log), ring, log) && Boundary(log, tail) && head < tail
    requires First(log, BlockBefore(tail)) <= i <= First(log, tail)
    requires First(log, BlockBefore(tail)) < First(log, tail)
    requires at == if i == First(log, BlockBefore(tail)) then BlockBefore(tail) else log[i - 1].End()
    ensures BlockHolds(ring, crc, at, tail, Entries(log[i..First(log, tail)]))
    decreases First(log, tail) - i
  {
    hide RingInv, First, Boundary, Encode, Holds, Readable, BlockBefore, InBlock, TailOf;
    RingFacts(crc, head, TailOf(log), ring, log);
    var es := Entries(log[i..First(log, tail)]);
    if i < First(log, tail) {
      RecordOffset(crc, head, ring, log, tail, i, at);
      LogBlock(crc, head, ring, log, tail, i + 1, log[i].End());
      assert es[1..] == Entries(log[i + 1..First(log, tail)]);
      ReadableEntry(ring, crc, at, log[i].entry);
    } else {
      BlockEnd(crc, head, ring, log, tail);
    }
  }

  lemma ReadableEntry(ring: seq<Octet>, crc: Crc, at: nat, e: Entry)
    requires Readable(ring, crc, at, e)
    ensures EntryAt(ring, crc, at, e) && e.Size() >= 12
  {
  }

  /** In a valid journal a block is decoded into exactly its entries, without an error. */
  lemma BlockDecodes(crc: Crc, head: nat, ring: seq<Octet>, log: seq<Record>, tail: nat, es: seq<Entry>,
                     error: Option<ReadError>)
    requires RingInv(crc, head, TailOf(log), ring, log) && Boundary(log, tail) && head < tail
    requires RingSize(|ring|) && BlockReads(ring, crc, BlockBefore(tail), tail, es, error)
    ensures error == None && es == EntriesBetween(log, BlockBefore(tail), tail) && es != []
  {
    hide RingInv, First, Boundary, BlockReads, RingSize, BlockBefore, TailOf;
    RingFacts(crc, head, TailOf(log), ring, log);
    BlockBounds(log, head, tail);
    var b, a := First(log, BlockBefore(tail)), First(log, tail);
    LogBlock(crc, head, ring, log, tail, b, BlockBefore(tail));
    ReadsIs(ring, crc, BlockBefore(tail), tail, Entries(log[b..a]));
    ReadsOnce(ring, crc, BlockBefore(tail), tail, es, error, Entries(log[b..a]), None);
  }

  lemma ReadsIs(ring: seq<Octet>, crc: Crc, at: nat, tail: nat, es: seq<Entry>)
    requires RingSize(|ring|) && BlockHolds(ring, crc, at, tail, es)
    ensures BlockReads(ring, crc, at, tail, es, None)
  {
  }

  lemma BlockBounds(log: seq<Record>, head: nat, tail: nat)
    requires Laid(log) && Boundary(log, tail) && head < tail && head % BLOCK_SIZE == 0
    ensures var s := BlockBefore(tail);
            && head <= s < tail <= s + BLOCK_SIZE && s % BLOCK_SIZE == 0
            && First(log, head) <= First(log, s) < First(log, tail) && log[First(log, s)].off == s
  {
    hide First, Laid, BlockBefore, TailOf;
    var s := BlockBefore(tail);
    BlockBeforeIs(head, tail);
    assert tail <= TailOf(log);
    FirstAtHead(log, s);
    LaterHead(log, head, s);
    assert log[First(log, s)].off < tail;
  }

  lemma BlockBeforeIs(head: nat, tail: nat)
    requires head < tail && head % BLOCK_SIZE == 0
    ensures head <= BlockBefore(tail) < tail <= BlockBefore(tail) + BLOCK_SIZE && BlockBefore(tail) % BLOCK_SIZE == 0
  {
  }

  lemma EndsInBlock(off: nat, n: nat, bound: nat)
    requires InBlock(off, n) && off < bound && bound % BLOCK_SIZE == 0
    ensures off + n <= bound
  {
  }

  lemma StoredHolds(crc: Crc, head: nat, ring: seq<Octet>, log: seq<Record>, i: nat)
    requires RingInv(crc, head, TailOf(log), ring, log) && First(log, head) <= i < |log|
    ensures Holds(ring, log[i].off, Encode(log[i].entry, crc))
  {
    assert Stored(ring, crc, log, i);
  }

  lemma RecordOffset(crc: Crc, head: nat, ring: seq<Octet>, log: seq<Record>, tail: nat, i: nat, decodeTail: nat)
    requires RingInv(crc, head, TailOf(log), ring, log) && Boundary(log, tail) && head < tail
    requires First(log, BlockBefore(tail)) <= i < First(log, tail)
    requires decodeTail == if i == First(log, BlockBefore(tail)) then BlockBefore(tail) else log[i - 1].End()
    ensures log[i].off == decodeTail && log[i].End() <= tail
    ensures Readable(ring, crc, log[i].off, log[i].entry)
  {
    hide RingInv, Encode, Holds, First, Laid, Place, BlockBefore, InBlock, TailOf;
    RingFacts(crc, head, TailOf(log), ring, log);
    BlockBounds(log, head, tail);
    StoredHolds(crc, head, ring, log, i);
    if i > First(log, BlockBefore(tail)) { SameBlock(log, BlockBefore(tail), tail, i); }
    Follows(log, i);
    BelowTail(log, i);
    if tail % BLOCK_SIZE == 0 { EndsInBlock(log[i].off, log[i].entry.Size(), tail); }
  }

  /** What is yielded and what is left of a block that was decoded. */
  predicate Popped(es: seq<Entry>, error: Option<ReadError>, item: Item, rest: seq<Entry>) {
    if error.Some? then item == Some(Err(error.value)) && rest == es
    else if es == [] then item == None && rest == []
    else item == Some(Ok(es[|es| - 1])) && rest == es[..|es| - 1]
  }

  class ReverseIterator {
    const journal: Journal
    var head: nat
    var tail: nat
    var blockBuffer: seq<Entry>
    /** Entries below this number are still to be read. */
    ghost var pos: nat

    ghost predicate Valid()
      reads this, journal
    {
      && journal.Valid() && head == journal.head && head <= tail && Boundary(journal.log, tail)
      && First(journal.log, head) <= First(journal.log, tail) <= pos <= |journal.log|
      && blockBuffer == Entries(journal.log[First(journal.log, tail)..pos])
    }

    constructor (journal: Journal)
      ensures this.journal == journal && head == journal.head && tail == journal.tail && blockBuffer == []
      ensures journal.Valid() ==> Valid() && pos == |journal.log|
    {
      this.journal := journal;
      head, tail := journal.head, journal.tail;
      blockBuffer := [];
      pos := |journal.log|;
      if journal.Valid() { LastBelowTail(journal.log); }
    }

    /** Yields the entries of a block from the last to the first. In a valid journal they are the retained entries, and
        there is never an error. */
    method Next() returns (item: Item)
      requires RingSize(|journal.ring|)
      modifies this
      ensures head == old(head)
      ensures old(blockBuffer) != [] ==>
                && item == Some(Ok(old(blockBuffer)[|old(blockBuffer)| - 1])) && tail == old(tail)
                && blockBuffer == old(blockBuffer)[..|old(blockBuffer)| - 1]
      ensures old(blockBuffer) == [] && (head == old(tail) || old(tail) == 0) ==>
                item == None && blockBuffer == [] && tail == old(tail)
      ensures old(blockBuffer) == [] && head != old(tail) && old(tail) != 0 ==>
                exists es, error :: BlockReads(journal.ring, journal.crc, BlockBefore(old(tail)), old(tail), es, error)
                  && Popped(es, error, item, blockBuffer)
                  && tail == if error.Some? then old(tail) else BlockBefore(old(tail))
      ensures old(Valid()) ==> Valid()
      ensures old(Valid()) ==>
                if First(journal.log, head) < old(pos) then
                  item == Some(Ok(journal.log[old(pos) - 1].entry)) && pos == old(pos) - 1
                else item == None && pos == old(pos)
    {
      hide RingInv, First, Boundary, Laid, Entries, BlockReads, RingSize, BlockBefore;
      if Valid() {
        RingFacts(journal.crc, head, journal.tail, journal.ring, journal.log);
        HeadBelow(journal.crc, head, journal.tail, journal.ring, journal.log, tail);
      }
      if blockBuffer == [] {
        if head == tail || tail == 0 {
          return None;
        }
        var error := Load();
        match error
        case Some(e) => return Some(Err(e));
        case None =>
      }
      if blockBuffer == [] {
        return None;
      }
      var entry := Pop();
      return Some(Ok(entry));
    }

    /** Takes the last entry from the buffer. */
    method Pop() returns (entry: Entry)
      requires blockBuffer != []
      modifies this
      ensures head == old(head) && tail == old(tail)
      ensures entry == old(blockBuffer)[|old(blockBuffer)| - 1]
      ensures blockBuffer == old(blockBuffer)[..|old(blockBuffer)| - 1]
      ensures old(Valid()) ==>
                Valid() && pos + 1 == old(pos) <= |journal.log| && entry == journal.log[pos].entry
                && First(journal.log, tail) <= pos
    {
      hide RingInv, First, Boundary, Laid, Entries;
      if Valid() {
        RingFacts(journal.crc, head, journal.tail, journal.ring, journal.log);
        EntriesPop(journal.log, First(journal.log, tail), pos);
      }
      entry := blockBuffer[|blockBuffer| - 1];
      blockBuffer := blockBuffer[..|blockBuffer| - 1];
      if pos > 0 { pos := pos - 1; }
    }

    /** Fills the buffer with the entries of the block before `tail`; on an error with those before it. */
    method Load() returns (error: Option<ReadError>)
      requires RingSize(|journal.ring|) && blockBuffer == [] && head != tail && tail != 0
      modifies this
      ensures head == old(head) && pos == old(pos)
      ensures BlockReads(journal.ring, journal.crc, BlockBefore(old(tail)), old(tail), blockBuffer, error)
      ensures tail == if error.Some? then old(tail) else BlockBefore(old(tail))
      ensures old(Valid()) ==> Valid() && error == None && blockBuffer != []
    {
      hide RingInv, First, Laid, BlockReads, RingSize;
      ghost var valid := Valid();
      if valid {
        RingFacts(journal.crc, head, journal.tail, journal.ring, journal.log);
        BlockBounds(journal.log, head, tail);
      }
      var buffer;
      buffer, error := LoadBlock(journal.crc, journal.ring, tail);
      if valid { BlockDecodes(journal.crc, head, journal.ring, journal.log, tail, buffer, error); }
      blockBuffer := buffer;
      if error.Some? {
        return;
      }
      if tail % BLOCK_SIZE != 0 {
        tail := AlignDown(tail);
      } else if tail != 0 && tail != head {
        tail := tail - BLOCK_SIZE;
      }
    }
  }

  lemma EntriesPop(log: seq<Record>, a: nat, n: nat)
    requires a < n <= |log|
    ensures Entries(log[a..n])[..n - a - 1] == Entries(log[a..n - 1])
    ensures Entries(log[a..n])[n - a - 1] == log[n - 1].entry
  {
  }

  lemma RingFacts(crc: Crc, head: nat, tail: nat, ring: seq<Octet>, log: seq<Record>)
    requires RingInv(crc, head, tail, ring, log)
    ensures tail == TailOf(log) && Laid(log) && head % BLOCK_SIZE == 0 && RingSize(|ring|) && |ring| > 0
  {
  }

  lemma HeadBelow(crc: Crc, head: nat, jtail: nat, ring: seq<Octet>, log: seq<Record>, tail: nat)
    requires RingInv(crc, head, jtail, ring, log) && Boundary(log, tail) && head <= tail
    ensures head < tail <==> First(log, head) < First(log, tail)
  {
    if head < tail { BlockBounds(log, head, tail); }
  }

  /** Reading backwards yields exactly the reverse of reading forwards. */
  method ReadReverse(journal: Journal) returns (items: seq<Result<Entry, ReadError>>)
    requires journal.Valid()
    ensures |items| == |journal.Retained()|
    ensures forall i | 0 <= i < |items| :: items[i] == Ok(journal.Retained()[|items| - 1 - i])
  {
    hide RingInv, First, Boundary, Laid, RingSize, BlockReads, BlockBefore, Popped;
    RingFacts(journal.crc, journal.head, journal.tail, journal.ring, journal.log);
    var it := new ReverseIterator(journal);
    items := [];
    ghost var n := |journal.log|;
    while true
      invariant it.Valid() && it.journal == journal && it.head == journal.head && it.pos <= n && |items| == n - it.pos
      invariant forall i | 0 <= i < |items| :: items[i] == Ok(journal.log[n - 1 - i].entry)
      decreases it.pos
    {
      var item := it.Next();
      if item.None? {
        break;
      }
      items := items + [item.value];
    }
  }
}
