/** Opening a journal after a crash: the scan from the header on disk to the end of the last block. */
module JournalRecovery {
  import opened Wrappers
  import opened Octets
  import opened RingLayout
  import opened Journals
  import opened JournalIterators

  /** The bytes at `tail` end the scan: too few of them in the block, or a zero size. */
  ghost predicate Stops(ring: seq<Octet>, tail: nat) {
    AlignUpAlways(tail) - tail < 4 || Holds(ring, tail, ZERO_SIZE)
  }

  /** What the scan needs to end at the true tail. It goes on until the first entry of the next block:
      `start` is where the header on disk says the last block starts. */
  ghost predicate Recoverable(ring: seq<Octet>, start: nat, log: seq<Record>) {
    var tail := TailOf(log);
    if tail <= AlignUpAlways(start) then Stops(ring, tail) else log[|log| - 1].off <= AlignUpAlways(start)
  }

  /** Position of the scan before record `i`. */
  ghost function ScanAt(log: seq<Record>, mark: nat, start: nat, i: nat): nat
    requires mark <= i <= |log|
  {
    if i == mark then start else log[i - 1].End()
  }

  /** A transaction counter that has reached `n`. */
  function Counter(n: int): U32 { n % U32_RANGE }

  lemma CounterNext(n: int)
    ensures Counter(Counter(n) + 1) == Counter(n + 1)
  {
  }

  lemma CounterSame(c: U32)
    ensures Counter(c - 1 + 1) == c
  {
  }

  lemma ScanRecord(crc: Crc, head: nat, ring: seq<Octet>, log: seq<Record>, disk: Header, mark: nat, ty: JournalType,
                   i: nat)
    requires RingInv(crc, head, TailOf(log), ring, log) && DiskInv(disk, head, log, mark, ty) && mark <= i < |log|
    ensures log[i].off == ScanAt(log, mark, disk.tail, i) && log[i].entry.transId == Counter(i)
    ensures log[i].End() <= TailOf(log)
    ensures Readable(ring, crc, log[i].off, log[i].entry)
  {
    hide Holds, Encode;
    Follows(log, i);
    BelowTail(log, i);
    if i > mark {
      Increasing(log, mark, i);
      assert NoGap(log, i);
    }
    assert Stored(ring, crc, log, i);
  }

  lemma SecondWord(ring: seq<Octet>, crc: Crc, off: nat, e: Entry)
    requires Readable(ring, crc, off, e)
    ensures |ring| > 0 && ReadAt(ring, FileOff(off, |ring|) + 4, 4).Some?
    ensures DecodeU32(ReadAt(ring, FileOff(off, |ring|) + 4, 4).value) == e.transId
  {
    hide Encode, DecodeU32, FileOff, InBlock;
    EncodeParts(e, crc);
    var p, b := FileOff(off, |ring|), Encode(e, crc);
    assert ring[p..p + |b|] == b;
    SliceOfSlice(ring, p, |b|, 4, 8);
  }

  lemma SliceOfSlice(s: seq<Octet>, p: nat, n: nat, i: nat, j: nat)
    requires p + n <= |s| && i <= j <= n
    ensures s[p..p + n][i..j] == s[p + i..p + j]
  {
    var t, u := s[p..p + n][i..j], s[p + i..p + j];
    forall k | 0 <= k < j - i ensures t[k] == u[k] {
      assert t[k] == s[p..p + n][i + k] == s[p + i + k];
    }
  }

  /** The four bytes at `tail` can be read, and are zero exactly when the scan stops there. */
  lemma StopWord(ring: seq<Octet>, tail: nat)
    requires RingSize(|ring|) && AlignUpAlways(tail) - tail >= 4
    ensures |ring| > 0 && ReadAt(ring, FileOff(tail, |ring|), 4).Some?
    ensures Stops(ring, tail) <==> DecodeU32(ReadAt(ring, FileOff(tail, |ring|), 4).value) == 0
  {
    Contiguous(tail, 4, |ring|);
    ZeroWord(ReadAt(ring, FileOff(tail, |ring|), 4).value);
  }

  lemma LaterOffset(crc: Crc, head: nat, ring: seq<Octet>, log: seq<Record>, i: nat)
    requires RingInv(crc, head, TailOf(log), ring, log) && i < |log|
    ensures log[i].off <= log[|log| - 1].off
  {
    if i < |log| - 1 { Increasing(log, i, |log| - 1); }
  }

  lemma ScanStart(crc: Crc, ring: seq<Octet>, log: seq<Record>, disk: Header, mark: nat, ty: JournalType)
    requires RingInv(crc, disk.head, TailOf(log), ring, log) && DiskInv(disk, disk.head, log, mark, ty)
    ensures RingSize(|ring|) && |ring| > 0 && mark <= |log| && disk.transCtr == Counter(mark)
    ensures ScanAt(log, mark, disk.tail, |log|) == TailOf(log) && disk.tail < AlignUpAlways(disk.tail)
  {
  }

  // ---------------------------------------------------------------- the scan

  /** Where a scan ends that stands at `at` and expects the transaction `tx`, and the transaction it then expects. */
  ghost function ScanFrom(ring: seq<Octet>, limit: nat, at: nat, tx: U32): Result<(nat, U32), ReadError>
    requires |ring| > 0
    decreases limit + 1 - at
  {
    var size, id := ReadAt(ring, FileOff(at, |ring|), 4), ReadAt(ring, FileOff(at, |ring|) + 4, 4);
    if at > limit || AlignUpAlways(at) - at < 4 then Ok((at, tx))
    else if size.None? then Err(ShortRead)
    else if DecodeU32(size.value) == 0 then Ok((at, tx))
    else if id.None? then Err(ShortRead)
    else if DecodeU32(id.value) != tx then Ok((at + DecodeU32(size.value), tx))
    else ScanFrom(ring, limit, at + DecodeU32(size.value), Counter(tx + 1))
  }

  /** The scan does not go back. */
  lemma {:induction false} ScanForward(ring: seq<Octet>, limit: nat, at: nat, tx: U32)
    requires |ring| > 0
    ensures var r := ScanFrom(ring, limit, at, tx); r.Ok? ==> r.value.0 >= at
    decreases limit + 1 - at
  {
    hide DecodeU32, ReadAt, FileOff, AlignUpAlways, Counter;
    var size, id := ReadAt(ring, FileOff(at, |ring|), 4), ReadAt(ring, FileOff(at, |ring|) + 4, 4);
    if at <= limit && AlignUpAlways(at) - at >= 4 && size.Some? && DecodeU32(size.value) != 0
       && id.Some? && DecodeU32(id.value) == tx {
      ScanForward(ring, limit, at + DecodeU32(size.value), Counter(tx + 1));
    }
  }

  /** It stays where it is exactly when the bytes there stop it. */
  lemma ScanStays(ring: seq<Octet>, limit: nat, at: nat, tx: U32)
    requires RingSize(|ring|) && |ring| > 0 && at <= limit
    ensures ScanFrom(ring, limit, at, tx) == Ok((at, tx)) <==> Stops(ring, at)
  {
    hide DecodeU32, ReadAt, FileOff, AlignUpAlways, Counter, Holds, RingSize;
    if AlignUpAlways(at) - at >= 4 {
      StopWord(ring, at);
      var size, id := ReadAt(ring, FileOff(at, |ring|), 4), ReadAt(ring, FileOff(at, |ring|) + 4, 4);
      if DecodeU32(size.value) != 0 && id.Some? && DecodeU32(id.value) == tx {
        ScanForward(ring, limit, at + DecodeU32(size.value), Counter(tx + 1));
      }
    }
  }

  /** It passes over a record of the journal. */
  lemma ScanOver(crc: Crc, ring: seq<Octet>, log: seq<Record>, disk: Header, mark: nat, ty: JournalType, i: nat,
                 limit: nat)
    requires RingInv(crc, disk.head, TailOf(log), ring, log) && DiskInv(disk, disk.head, log, mark, ty)
    requires mark <= i < |log| && ScanAt(log, mark, disk.tail, i) <= limit && |ring| > 0
    ensures ScanFrom(ring, limit, ScanAt(log, mark, disk.tail, i), Counter(i)) ==
              ScanFrom(ring, limit, log[i].End(), Counter(i + 1))
  {
    hide Holds, Encode, FileOff, RingInv, DiskInv, Readable, InBlock, Laid, ReadAt, AlignUpAlways, DecodeU32, Counter;
    ScanRecord(crc, disk.head, ring, log, disk, mark, ty, i);
    ReadParts(ring, crc, log[i].off, log[i].entry);
    SecondWord(ring, crc, log[i].off, log[i].entry);
    CounterNext(i);
  }

  /** From record `i` on, the scan reaches the tail, or ends behind the record that starts on the block boundary. */
  lemma {:induction false} ScanReaches(crc: Crc, ring: seq<Octet>, log: seq<Record>, disk: Header, mark: nat,
                                       ty: JournalType, i: nat, limit: nat)
    requires RingInv(crc, disk.head, TailOf(log), ring, log) && DiskInv(disk, disk.head, log, mark, ty)
    requires mark <= i <= |log| && ScanAt(log, mark, disk.tail, i) <= limit && |ring| > 0
    ensures var r := ScanFrom(ring, limit, ScanAt(log, mark, disk.tail, i), Counter(i));
      if TailOf(log) <= limit then r == ScanFrom(ring, limit, TailOf(log), Counter(|log|))
      else exists k: nat :: i < k <= |log| && Passes(log, k, limit) && r == Ok((log[k - 1].End(), Counter(k)))
    decreases |log| - i
  {
    hide RingInv, DiskInv, Counter;
    if i < |log| {
      ScanOver(crc, ring, log, disk, mark, ty, i, limit);
      ScanRecord(crc, disk.head, ring, log, disk, mark, ty, i);
      if log[i].End() <= limit {
        ScanReaches(crc, ring, log, disk, mark, ty, i + 1, limit);
      } else {
        assert Passes(log, i + 1, limit);
      }
    } else {
      assert RingInv(crc, disk.head, TailOf(log), ring, log) && DiskInv(disk, disk.head, log, mark, ty);
      ScanStart(crc, ring, log, disk, mark, ty);
    }
  }

  /** Record `k - 1` starts at or below the limit of the scan and ends above. */
  ghost predicate Passes(log: seq<Record>, k: nat, limit: nat) {
    0 < k <= |log| && log[k - 1].off <= limit < log[k - 1].End()
  }

  /** Only the last record that starts at or below the limit ends above. */
  lemma PassesLast(crc: Crc, head: nat, ring: seq<Octet>, log: seq<Record>, k: nat, limit: nat)
    requires RingInv(crc, head, TailOf(log), ring, log) && Passes(log, k, limit)
    ensures log[|log| - 1].off <= limit <==> k == |log|
    ensures log[k - 1].End() <= TailOf(log) && (log[k - 1].End() == TailOf(log) <==> k == |log|)
  {
    BelowTail(log, k - 1);
    if k < |log| {
      Increasing(log, k - 1, |log| - 1);
      LaterOffset(crc, head, ring, log, k);
      Follows(log, k);
      BelowTail(log, k);
    }
  }

  /** Where the scan of a journal that crashed ends. It finds the tail and the transaction counter exactly when the
      bytes after that tail stop it. Otherwise it takes leftover bytes at the tail for entries, or it ends behind the
      entry that starts on the block boundary and misses the later ones. */
  lemma ScanResult(crc: Crc, ring: seq<Octet>, log: seq<Record>, disk: Header, mark: nat, ty: JournalType)
    returns (k: nat)
    requires RingInv(crc, disk.head, TailOf(log), ring, log) && DiskInv(disk, disk.head, log, mark, ty) && |ring| > 0
    ensures var limit := AlignUpAlways(disk.tail);
      var r := ScanFrom(ring, limit, disk.tail, disk.transCtr);
      && (r == Ok((TailOf(log), Counter(|log|))) <==> Recoverable(ring, disk.tail, log))
      && (TailOf(log) <= limit ==> r == ScanFrom(ring, limit, TailOf(log), Counter(|log|)))
      && (TailOf(log) > limit ==> Passes(log, k, limit) && r == Ok((log[k - 1].End(), Counter(k))))
  {
    hide RingInv, DiskInv, AlignUpAlways, Counter, Stops, ScanFrom;
    var limit := AlignUpAlways(disk.tail);
    ScanStart(crc, ring, log, disk, mark, ty);
    ScanReaches(crc, ring, log, disk, mark, ty, mark, limit);
    k := 0;
    if TailOf(log) <= limit {
      ScanStays(ring, limit, TailOf(log), Counter(|log|));
    } else {
      k :| mark < k <= |log| && Passes(log, k, limit)
           && ScanFrom(ring, limit, disk.tail, disk.transCtr) == Ok((log[k - 1].End(), Counter(k)));
      PassesLast(crc, disk.head, ring, log, k, limit);
    }
  }

  /** The scan of `open`, on a ring with any bytes in it. */
  method Scan(disk: Header, ring: seq<Octet>) returns (r: Result<(nat, U32), ReadError>)
    requires RingSize(|ring|) && |ring| > 0
    ensures r == ScanFrom(ring, AlignUpAlways(disk.tail), disk.tail, disk.transCtr)
  {
    hide Holds, FileOff, ReadAt, AlignUpAlways, DecodeU32, Counter, Stops, RingSize;
    var txMax: int := disk.transCtr - 1;
    var newTail := disk.tail;
    CounterSame(disk.transCtr);
    ghost var limit := AlignUpAlways(disk.tail);
    ghost var answer := ScanFrom(ring, limit, disk.tail, disk.transCtr);
    while true
      invariant answer == ScanFrom(ring, limit, newTail, Counter(txMax + 1))
      decreases limit + 1 - newTail
    {
      if newTail > AlignUpAlways(disk.tail) {
        break;
      }
      if AlignUpAlways(newTail) - newTail < 4 {
        break;
      }
      StopWord(ring, newTail);
      var p := FileOff(newTail, |ring|);
      var size := ReadAt(ring, p, 4);
      var fsize := DecodeU32(size.value);
      if fsize == 0 {
        break;
      }
      newTail := newTail + fsize;
      var word := ReadAt(ring, p + 4, 4);
      if word.None? {
        return Err(ShortRead);
      }
      var nextTx := DecodeU32(word.value);
      if nextTx != Counter(txMax + 1) {
        break;
      }
      CounterNext(txMax + 1);
      txMax := nextTx;
    }
    return Ok((newTail, Counter(txMax + 1)));
  }

  /** While the ring has not wrapped, the bytes after the tail are still zero. */
  lemma FirstLapStops(crc: Crc, head: nat, ring: seq<Octet>, log: seq<Record>)
    requires RingInv(crc, head, TailOf(log), ring, log) && ZeroFrom(ring, TailOf(log)) && TailOf(log) < |ring|
    ensures Stops(ring, TailOf(log))
  {
    var tail := TailOf(log);
    if AlignUpAlways(tail) - tail >= 4 {
      Contiguous(tail, 4, |ring|);
      SmallMod(tail, |ring|);
      assert ring[tail..tail + 4] == ZERO_SIZE;
    }
  }

  /** On the first lap of a file of zeroes the scan misses the tail exactly when the last entry starts past the block
      after the one that the header on disk names. */
  lemma FirstLapIff(crc: Crc, ring: seq<Octet>, log: seq<Record>, disk: Header, mark: nat, ty: JournalType)
    requires RingInv(crc, disk.head, TailOf(log), ring, log) && DiskInv(disk, disk.head, log, mark, ty)
    requires ZeroFrom(ring, TailOf(log)) && TailOf(log) < |ring|
    ensures Recoverable(ring, disk.tail, log) <==> log == [] || log[|log| - 1].off <= AlignUpAlways(disk.tail)
  {
    FirstLapStops(crc, disk.head, ring, log);
  }

  /** An entry that does not end on a block boundary leaves the tail in its block. */
  lemma EndsInside(off: nat, n: nat, start: nat)
    requires start % BLOCK_SIZE == 0 && start <= off < start + BLOCK_SIZE
    requires InBlock(off, n) && (off + n) % BLOCK_SIZE != 0
    ensures off + n < start + BLOCK_SIZE
  {
  }

  lemma {:induction false} InsideBlock(log: seq<Record>, disk: Header, mark: nat, ty: JournalType, i: nat)
    requires Laid(log) && DiskInv(disk, disk.head, log, mark, ty) && mark <= i <= |log| && disk.tail % BLOCK_SIZE == 0
    requires forall j | mark <= j < i :: log[j].End() % BLOCK_SIZE != 0
    ensures disk.tail <= ScanAt(log, mark, disk.tail, i) < disk.tail + BLOCK_SIZE
    decreases i
  {
    hide Laid;
    if i > mark {
      InsideBlock(log, disk, mark, ty, i - 1);
      Follows(log, i - 1);
      if i - 1 > mark { assert NoGap(log, i - 1); }
      assert log[i - 1].off == ScanAt(log, mark, disk.tail, i - 1);
      EndsInside(log[i - 1].off, log[i - 1].entry.Size(), disk.tail);
    }
  }

  /** When no entry has ended on a block boundary, the tail is in the block that the header on disk names, and the
      journal recovers exactly when the bytes after the tail stop the scan. */
  lemma NoBoundary(ring: seq<Octet>, log: seq<Record>, disk: Header, mark: nat, ty: JournalType)
    requires Laid(log) && DiskInv(disk, disk.head, log, mark, ty)
    requires forall i | 0 <= i < |log| :: log[i].End() % BLOCK_SIZE != 0
    ensures TailOf(log) < AlignUpAlways(disk.tail)
    ensures Recoverable(ring, disk.tail, log) <==> Stops(ring, TailOf(log))
  {
    hide Laid, Stops;
    InsideBlock(log, disk, mark, ty, |log|);
  }

  datatype OpenError = TypeMismatch | Unreadable(error: ReadError)

  /** The header after the scan. */
  function Opened(disk: Header, found: Result<(nat, U32), ReadError>): Result<Header, OpenError> {
    match found
    case Err(e) => Err(Unreadable(e))
    case Ok((tail, transCtr)) => Ok(Header(disk.head, tail, transCtr, disk.ty))
  }

  /** `open` on the file that `journal` left behind when it crashed between two writes. Until the first
      change of block the file has no header, so that its type reads as `Invalid`. */
  method OpenAfterCrash(journal: Journal, requested: JournalType) returns (r: Result<Header, OpenError>)
    requires journal.Valid() && journal.HeaderOnDisk()
    ensures r == Err(TypeMismatch) <==> requested != Invalid && journal.disk.ty != requested
    ensures r != Err(TypeMismatch) ==>
              (Recovered(journal, r) <==> Recoverable(journal.ring, journal.disk.tail, journal.log))
    ensures r != Err(TypeMismatch) && |journal.ring| > 0 && journal.tail <= AlignUpAlways(journal.disk.tail) ==>
              r == Opened(journal.disk,
                          ScanFrom(journal.ring, AlignUpAlways(journal.disk.tail), journal.tail, journal.transCtr))
    ensures r != Err(TypeMismatch) && journal.tail > AlignUpAlways(journal.disk.tail) ==>
              exists k: nat :: Passes(journal.log, k, AlignUpAlways(journal.disk.tail))
                && r == Opened(journal.disk, Ok((journal.log[k - 1].End(), Counter(k))))
    ensures r != Err(TypeMismatch) && journal.Unwritten() && journal.tail < |journal.ring| ==>
              (Recovered(journal, r) <==> !LeftBehind(journal.log, journal.disk))
    ensures r != Err(TypeMismatch) && NoneOnBoundary(journal.log) ==>
              (Recovered(journal, r) <==> Stops(journal.ring, journal.tail))
    ensures r != Err(TypeMismatch) && journal.Unwritten() && journal.tail < |journal.ring| ==>
              (NoneOnBoundary(journal.log) ==> Recovered(journal, r))
  {
    hide RingInv, DiskInv, ZeroFrom, Stops, Recoverable, Laid, RingSize, AlignUpAlways, ScanFrom, Counter;
    RingFacts(journal.crc, journal.head, journal.tail, journal.ring, journal.log);
    if journal.Unwritten() && journal.tail < |journal.ring| {
      FirstLapStops(journal.crc, journal.head, journal.ring, journal.log);
      assert journal.disk.head == journal.head by { DiskHead(journal); }
      FirstLapIff(journal.crc, journal.ring, journal.log, journal.disk, journal.mark, journal.ty);
    }
    assert journal.disk.head == journal.head by { DiskHead(journal); }
    if NoneOnBoundary(journal.log) {
      NoBoundary(journal.ring, journal.log, journal.disk, journal.mark, journal.ty);
    }
    var header := journal.disk;
    if requested != Invalid && header.ty != requested {
      return Err(TypeMismatch);
    }
    ghost var k := ScanResult(journal.crc, journal.ring, journal.log, journal.disk, journal.mark, journal.ty);
    assert journal.transCtr == Counter(|journal.log|) by { CounterIs(journal); }
    var found := Scan(header, journal.ring);
    r := Opened(header, found);
  }

  lemma CounterIs(journal: Journal)
    requires journal.Valid()
    ensures journal.transCtr == Counter(|journal.log|)
  {
  }

  lemma DiskHead(journal: Journal)
    requires journal.HeaderOnDisk()
    ensures journal.disk.head == journal.head
  {
  }

  /** `open` has found the journal as it was. */
  ghost predicate Recovered(journal: Journal, r: Result<Header, OpenError>)
    reads journal
  {
    r == Ok(Header(journal.head, journal.tail, journal.transCtr, journal.disk.ty))
  }

  /** The last entry starts past the block after the one that the header on disk names. */
  ghost predicate LeftBehind(log: seq<Record>, disk: Header) {
    log != [] && log[|log| - 1].off > AlignUpAlways(disk.tail)
  }

  ghost predicate NoneOnBoundary(log: seq<Record>) {
    forall i | 0 <= i < |log| :: log[i].End() % BLOCK_SIZE != 0
  }

  /** No entry of a run of writes that starts at `tail` ends on a block boundary. */
  predicate NeverOnBoundary(tail: nat, bodies: seq<seq<Octet>>)
    decreases |bodies|
  {
    bodies != [] ==>
      var end := Place(tail, 12 + |bodies[0]|) + 12 + |bodies[0]|;
      end % BLOCK_SIZE != 0 && NeverOnBoundary(end, bodies[1..])
  }

  lemma {:induction false} RunEnds(log: seq<Record>, bodies: seq<seq<Octet>>, i: nat)
    requires Laid(log) && |log| == |bodies| && i <= |log|
    requires forall j | 0 <= j < |log| :: log[j].entry.body == bodies[j]
    ensures NeverOnBoundary(if i == 0 then 0 else log[i - 1].End(), bodies[i..]) <==>
              forall j | i <= j < |log| :: log[j].End() % BLOCK_SIZE != 0
    decreases |log| - i
  {
    hide Laid, Place;
    if i < |log| {
      Follows(log, i);
      RunEnds(log, bodies, i + 1);
      assert bodies[i..][0] == bodies[i] && bodies[i..][1..] == bodies[i + 1..];
    }
  }

  /** A run of writes to a new file of zeroes, and a crash before it wraps: the journal is recovered exactly when the
      last entry was not left behind, and always when no entry ends on a block boundary. */
  method WriteThenCrash(blocks: nat, crc: Crc, ty: JournalType, bodies: seq<seq<Octet>>)
    returns (journal: Journal, ok: bool, r: Result<Header, OpenError>)
    requires blocks > 0
    ensures ok <==> forall b | b in bodies :: 12 + |b| < BLOCK_SIZE
    ensures ok && journal.tail < blocks * BLOCK_SIZE ==>
              && |journal.log| == |bodies| && journal.Valid()
              && (Recovered(journal, r) <==> !LeftBehind(journal.log, journal.disk))
              && (NeverOnBoundary(0, bodies) ==> Recovered(journal, r))
  {
    hide RingInv, DiskInv, ZeroFrom, RingSize, NeverFull, Recoverable, Stops, NeverOnBoundary;
    WholeBlocks(blocks);
    journal := new Journal.New(seq(blocks * BLOCK_SIZE, _ => 0), Header(0, 0, 0, Invalid), crc, ty);
    assert journal.HeaderOnDisk() && journal.Unwritten();
    ok := journal.WriteAll(bodies);
    r := Err(TypeMismatch);
    if ok && !journal.Overrun() {
      r := OpenAfterCrash(journal, Invalid);
      RunEnds(journal.log, bodies, 0);
      assert bodies[0..] == bodies;
    }
  }

  /** Two entries of half a block end on a block boundary, for which no header is written. The scan then goes on to the
      first entry of the next block and misses the one after it, although nothing has wrapped. */
  method EntryLost(crc: Crc, ty: JournalType) returns (journal: Journal, r: Result<Header, OpenError>)
    ensures journal.Valid() && journal.HeaderOnDisk() && journal.Unwritten() && journal.tail < |journal.ring|
    ensures |journal.log| == 4 && r != Err(TypeMismatch) && !Recovered(journal, r)
  {
    hide RingInv, LogInv, DiskInv, ZeroFrom, Encode, Holds, Recoverable, Stops, NoneOnBoundary, Place, NextHead;
    journal := HalfBlocks(2, crc, ty);
    SmallEntries();
    var ok := journal.WriteInner([]);
    ok := journal.WriteInner([]);
    r := OpenAfterCrash(journal, Invalid);
  }

  lemma SmallEntries()
    ensures Place(BLOCK_SIZE, 12) == BLOCK_SIZE && Place(BLOCK_SIZE + 12, 12) == BLOCK_SIZE + 12
    ensures NextHead(0, BLOCK_SIZE, 2 * BLOCK_SIZE, 12) == 0 && NextHead(0, BLOCK_SIZE + 12, 2 * BLOCK_SIZE, 12) == 0
    ensures AlignUpAlways(0) == BLOCK_SIZE
  {
  }
}
