/**
 Runs from a new snapshot in which recorded bytes are lost.
 */
module SnapshotExamples {
  import opened Wrappers
  import opened FreeLists
  import opened Extents
  import opened EncodeWrite
  import opened FileTable
  import opened SnapshotSpec
  import opened Snapshots
  import T = Truncate
  import C = Compact

  /** `n` bytes of value `v`. */
  function Fill(n: nat, v: Byte): (buf: seq<Byte>)
    ensures |buf| == n
  {
    seq(n, _ => v)
  }

  /** A block that fits at the start of the only free extent is put there. */
  lemma PlacedFirst(d: DataList, offset: nat, n: nat, k: nat, size: nat, f': FreeList, d': DataList)
    requires 0 < n < size && Placed(map[k := size], d, offset, n, f', d')
    ensures d' == d[offset := Block(k, n)] && f' == map[k + n := size - n]
  {
    var f := map[k := size];
    assert k in f;
  }

  lemma ReachEmpty(end: nat)
    ensures Reach(map[], end) == end
  {
    ReachIs(map[], end);
  }

  lemma OneBlockBeyond(b: Block)
    ensures forall p: nat :: p in T.Beyond(map[0 := b], 0) <==> b.Has(p)
  {
    var d := map[0 := b];
    forall p: nat | b.Has(p) ensures T.HeldBeyond(d, 0, p) {
      assert 0 in d && d[0].Has(p);
    }
  }

  lemma FreeOne(k: nat, size: nat)
    ensures forall p: nat :: Free(map[k := size], p) <==> k <= p < k + size
  {
    assert k in map[k := size];
  }

  lemma FreeTwo(j: nat, m: nat, k: nat, n: nat)
    requires j + m < k && m > 0 && n > 0
    ensures Canonical(map[j := m, k := n])
    ensures forall p: nat :: Free(map[j := m, k := n], p) <==> j <= p < j + m || k <= p < k + n
  {
    var f := map[j := m, k := n];
    assert j in f && k in f;
  }

  /** A write that touches no block, into the only free extent. */
  method Put(s: Snapshot, path: Path, offset: nat, buf: seq<Byte>, ghost k: nat, ghost size: nat)
    requires s.Valid() && s.Bounded() && buf != [] && (path in s.files ==> s.files[path].data.Some?)
    requires s.freeList == map[k := size] && |buf| < size
    requires Clear(DataOf(s.files, path), offset, offset + |buf|)
    requires Room(s.serialised, HEADER_SIZE, Reach(DataOf(s.files, path), offset + |buf|))
    modifies s
    ensures s.Valid() && s.Bounded() && Effect(old(s.Contents()), Call.Write(path, offset, buf)) == Some(s.Contents())
    ensures s.freeList == map[k + |buf| := size - |buf|]
    ensures s.files == old(s.files)[path := File(Some(old(DataOf(s.files, path))[offset := Block(k, |buf|)]))]
    ensures Grew(old(s.serialised), s.serialised, HEADER_SIZE, Reach(old(DataOf(s.files, path)), offset + |buf|))
  {
    hide FilesSound, Views, Effect, Placed, Clear, Reach, Grew;
    ghost var d := DataOf(s.files, path);
    var r := s.Write(path, offset, buf);
    PlacedFirst(d, offset, |buf|, k, size, s.freeList, DataOf(s.files, path));
  }

  const A: Path := "a"
  const B: Path := "b"

  function TwoEntries(): Files {
    map[A := File(Some(map[0 := Block(HEADER_SIZE, 100)])), B := File(Some(map[0 := Block(HEADER_SIZE + 100, 10)]))]
  }

  /** The free list and the table after a write to each of two files. */
  method TwoFiles() returns (s: Snapshot, ghost m: Spec)
    ensures fresh(s) && s.Valid() && s.Bounded()
    ensures s.freeList == map[HEADER_SIZE + 110 := USIZE_MAX - 110]
    ensures s.files == TwoEntries()
    ensures Effect(map[], Call.Write(A, 0, Fill(100, 1))) == Some(m)
    ensures Effect(m, Call.Write(B, 0, Fill(10, 2))) == Some(s.Contents())
  {
    hide FilesSound, Views, Effect, Fill, Reach;
    s := new Snapshot.New([]);
    ReachEmpty(100);
    ReachEmpty(10);
    Put(s, A, 0, Fill(100, 1), HEADER_SIZE, USIZE_MAX);
    m := s.Contents();
    Put(s, B, 0, Fill(10, 2), HEADER_SIZE + 100, USIZE_MAX - 100);
  }

  lemma Reclaimed(f: FreeList, tail: nat)
    requires Canonical(f) && tail > 0
    requires forall p: nat :: Free(f, p) <==>
               Free(map[HEADER_SIZE + 110 := tail], p) || p in T.Beyond(map[0 := Block(HEADER_SIZE, 100)], 0)
    ensures f == map[HEADER_SIZE := 100, HEADER_SIZE + 110 := tail]
  {
    hide Free, T.Beyond;
    OneBlockBeyond(Block(HEADER_SIZE, 100));
    FreeOne(HEADER_SIZE + 110, tail);
    FreeTwo(HEADER_SIZE, 100, HEADER_SIZE + 110, tail);
    CanonicalUnique(f, map[HEADER_SIZE := 100, HEADER_SIZE + 110 := tail]);
  }

  /** Unlinking the first of them leaves a hole. */
  method Fragment() returns (s: Snapshot)
    ensures fresh(s) && s.Valid() && s.Bounded()
    ensures s.freeList == map[HEADER_SIZE := 100, HEADER_SIZE + 110 := USIZE_MAX - 110]
    ensures s.files == map[B := File(Some(map[0 := Block(HEADER_SIZE + 100, 10)]))]
    ensures Run(map[], [Call.Write(A, 0, Fill(100, 1)), Call.Write(B, 0, Fill(10, 2)), Call.Unlink(A)]) ==
              Some(s.Contents())
  {
    hide FilesSound, Views, Effect, Run, Fill, Free, TooWide, T.Beyond;
    ghost var m;
    s, m := TwoFiles();
    ghost var m' := s.Contents();
    var r := s.Unlink(A);
    assert Canonical(s.freeList) by { ValidCanonical(s); }
    Reclaimed(s.freeList, USIZE_MAX - 110);
    RunThree(map[], m, m', s.Contents(), Call.Write(A, 0, Fill(100, 1)), Call.Write(B, 0, Fill(10, 2)), Call.Unlink(A));
  }

  lemma ValidCanonical(s: Snapshot)
    requires s.Valid()
    ensures Canonical(s.freeList)
  {
  }

  lemma RunThree(m: Spec, m1: Spec, m2: Spec, m3: Spec, a: Call, b: Call, c: Call)
    requires Effect(m, a) == Some(m1) && Effect(m1, b) == Some(m2) && Effect(m2, c) == Some(m3)
    ensures Run(m, [a, b, c]) == Some(m3)
  {
    hide Effect;
    assert [a, b, c][1..] == [b, c] && [b, c][1..] == [c] && [c][1..] == [];
    assert Run(m3, []) == Some(m3);
    assert Run(m2, [c]) == Some(m3);
    assert Run(m1, [b, c]) == Some(m3);
  }

  /** The compaction of that snapshot moves the only block of file "b", and drops it. */
  lemma FragmentPlan()
    ensures
      var f := map[HEADER_SIZE := 100, HEADER_SIZE + 110 := USIZE_MAX - 110];
      var files := map[B := File(Some(map[0 := Block(HEADER_SIZE + 100, 10)]))];
      var plan := PlanFor(f, files, [B]);
      plan.Some? ==> plan.value.lost == {B}
  {
    var f := map[HEADER_SIZE := 100, HEADER_SIZE + 110 := USIZE_MAX - 110];
    var d := map[0 := Block(HEADER_SIZE + 100, 10)];
    var files := map[B := File(Some(d))];
    HoleWasted();
    assert C.FitsBelow(f, d[0], 0) by {
      assert HEADER_SIZE in f && f[HEADER_SIZE] >= 10;
      assert 0 !in f;
    }
    C.FrontAlone(f, d, 50);
    hide C.Outline, C.Loses, C.WastedSpace, C.EndOfData, C.FitsBelow, PlanFor;
    PlanOne(f, files, B);
  }

  lemma HoleWasted()
    ensures
      var f := map[HEADER_SIZE := 100, HEADER_SIZE + 110 := USIZE_MAX - 110];
      HEADER_SIZE in f && f != map[] && C.EndOfData(f) == HEADER_SIZE + 110 && C.WastedSpace(f) == 100
  {
    var f := map[HEADER_SIZE := 100, HEADER_SIZE + 110 := USIZE_MAX - 110];
    assert HEADER_SIZE + 110 in f.Keys;
    var g := map[HEADER_SIZE := 100];
    assert f - {HEADER_SIZE + 110} == g;
    assert HEADER_SIZE in g.Keys && g - {HEADER_SIZE} == map[];
    assert C.Total(g) == 100 + C.Total(map[]);
  }

  /** A write, a write, an unlink and a compaction: the compaction loses the bytes of file "b". */
  method CompactionLoses() returns (s: Snapshot, ghost before: Spec)
    ensures Run(map[], [Call.Write(A, 0, Fill(100, 1)), Call.Write(B, 0, Fill(10, 2)), Call.Unlink(A)]) ==
              Some(before)
    ensures s.Valid() && B in before && B in s.Contents() && s.Contents()[B] != before[B]
  {
    hide FilesSound, Views, Effect, Run, Fill, PlanFor, Snapshot.Lowered;
    s := Fragment();
    before := s.Contents();
    FragmentPlan();
    SameKeys(s.files, s.serialised);
    var r, lost := s.Compact([B]);
    SameKeys(s.files, s.serialised);
  }

  // ---------------------------------------------------------------- an empty write

  const LARGE: nat := MERGE_LIMIT + 1

  /** The extents of a file with two large blocks that touch. */
  function TwoLarge(): DataList {
    map[LARGE := Block(HEADER_SIZE, LARGE), 0 := Block(HEADER_SIZE + LARGE, LARGE)]
  }

  lemma TwoLargeIs()
    ensures BetweenLarge(TwoLarge(), LARGE)
    ensures Ordered(TwoLarge()) ==> Reach(TwoLarge(), LARGE) <= 2 * LARGE
  {
    var d := TwoLarge();
    assert 0 in d && 0 + d[0].size == LARGE;
    if Ordered(d) { ReachIs(d, LARGE); }
  }

  lemma OneLargeReach(b: Block)
    requires b.size == LARGE
    ensures Reach(map[LARGE := b], LARGE) <= 2 * LARGE
  {
    ReachIs(map[LARGE := b], LARGE);
  }

  method TwoLargeBlocks() returns (s: Snapshot, ghost m: Spec)
    ensures fresh(s) && s.Valid() && s.Bounded() && |s.serialised| <= HEADER_SIZE + 4 * LARGE
    ensures A in s.files && s.files[A] == File(Some(TwoLarge()))
    ensures Effect(map[], Call.Write(A, LARGE, Fill(LARGE, 1))) == Some(m)
    ensures Effect(m, Call.Write(A, 0, Fill(LARGE, 2))) == Some(s.Contents())
  {
    hide FilesSound, Views, Effect, Fill, Reach;
    s := new Snapshot.New([]);
    ReachEmpty(2 * LARGE);
    Put(s, A, LARGE, Fill(LARGE, 1), HEADER_SIZE, USIZE_MAX);
    m := s.Contents();
    OneLargeReach(Block(HEADER_SIZE, LARGE));
    Put(s, A, 0, Fill(LARGE, 2), HEADER_SIZE + LARGE, USIZE_MAX - LARGE);
  }

  /** A write, a write before it and an empty write where they meet: the empty write loses bytes of the file. */
  method EmptyWriteLoses() returns (s: Snapshot, ghost wanted: Spec)
    ensures
      var calls := [Call.Write(A, LARGE, Fill(LARGE, 1)), Call.Write(A, 0, Fill(LARGE, 2)), Call.Write(A, LARGE, [])];
      Run(map[], calls) == Some(wanted)
    ensures A in wanted && A in s.Contents() && s.Contents()[A] != wanted[A]
  {
    hide FilesSound, Views, Run, Fill, Reach, BetweenLarge, TwoLarge, Content, Touched, WriteOutcome;
    ghost var m;
    s, m := TwoLargeBlocks();
    TwoLargeIs();
    ghost var m' := s.Contents();
    OpenedView(s.files, s.serialised, A);
    assert Ordered(TwoLarge()) by {
      FileSound(s.freeList, s.files, s.serialised, HEADER_SIZE, s.top, A);
      SoundOrdered(s.freeList, TwoLarge(), s.serialised, HEADER_SIZE, s.top);
    }
    EmptyOverlay(m'[A].content, LARGE);
    wanted := m'[A := m'[A]];
    RunThree(map[], m, m', wanted,
      Call.Write(A, LARGE, Fill(LARGE, 1)), Call.Write(A, 0, Fill(LARGE, 2)), Call.Write(A, LARGE, []));
    var r := s.Write(A, LARGE, []);
  }

  // ---------------------------------------------------------------- a snapshot that was opened again

  lemma TwoFilesTidy()
    ensures var f := map[HEADER_SIZE + 110 := USIZE_MAX - 110];
      f != map[] && Snapshot.Tidy(f) && C.EndOfData(f) == HEADER_SIZE + 110
  {
    var f := map[HEADER_SIZE + 110 := USIZE_MAX - 110];
    assert HEADER_SIZE + 110 in f.Keys;
    assert f - {HEADER_SIZE + 110} == map[];
  }

  /** Two files, written, closed and opened again. */
  method Reopen(codec: Codec) returns (o: Snapshot)
    requires codec.Lawful() && HEADER_SIZE + 110 + |codec.encodeTable(TwoEntries())| <= OFF_MAX
    ensures fresh(o) && o.Valid() && o.files == TwoEntries()
    ensures o.freeList == map[HEADER_SIZE + 110 := USIZE_MAX] && o.top == HEADER_SIZE + 110 + USIZE_MAX
  {
    hide FilesSound, Views, Effect, Fill, Snapshot.Tidy, PlanFor, Tiles, Snapshot.CallOutcome, AllOrdered;
    ghost var m;
    var s;
    s, m := TwoFiles();
    TwoFilesTidy();
    var r, reopened, lost := FinalizeThenOpen(s, [A, B], codec);
    o := reopened.value;
  }

  /** The file that ends at the table cannot be unlinked. */
  method UnlinkFails(codec: Codec) returns (o: Snapshot, r: Outcome)
    requires codec.Lawful() && HEADER_SIZE + 110 + |codec.encodeTable(TwoEntries())| <= OFF_MAX
    ensures r == Overflow
  {
    hide FilesSound, Views, TooWide, T.Beyond;
    o := Reopen(codec);
    OneBlockBeyond(Block(HEADER_SIZE + 100, 10));
    WideAfterOpen(HEADER_SIZE + 110, T.Beyond(map[0 := Block(HEADER_SIZE + 100, 10)], 0));
    r := o.Unlink(B);
  }

  /** After the other file was unlinked, a longer write to it moves it into the hole and then fails. */
  method WriteFails(codec: Codec) returns (o: Snapshot, first: Outcome, r: Outcome)
    requires codec.Lawful() && HEADER_SIZE + 110 + |codec.encodeTable(TwoEntries())| <= OFF_MAX
    ensures first == Done && r == Overflow
  {
    hide FilesSound, Views, TooWide, T.Beyond, Free, WriteOutcome;
    o := Reopen(codec);
    OneBlockBeyond(Block(HEADER_SIZE, 100));
    WideAfterOpen(HEADER_SIZE + 110, T.Beyond(map[0 := Block(HEADER_SIZE, 100)], 0));
    first := o.Unlink(A);
    assert Canonical(o.freeList) by { ValidCanonical(o); }
    Reclaimed(o.freeList, USIZE_MAX);
    LongerWriteOverflows();
    r := o.Write(B, 0, Fill(12, 3));
  }

  /** The only block of the file touches the write. */
  lemma OneOverlap(b: Block, end: nat)
    requires b.size > 0
    ensures Ordered(map[0 := b]) && Overlaps(map[0 := b], end + 1, 0) == [0]
  {
    var d := map[0 := b];
    assert 0 in d;
    assert Overlaps(d, 0, 0) == [];
  }

  lemma HoleChosen()
    ensures var f := map[HEADER_SIZE := 100, HEADER_SIZE + 110 := USIZE_MAX];
      && Choose(f, 12, None) == Some(HEADER_SIZE)
      && Carved(f, Block(HEADER_SIZE, 12)) == map[HEADER_SIZE + 12 := 88, HEADER_SIZE + 110 := USIZE_MAX]
  {
    var f := map[HEADER_SIZE := 100, HEADER_SIZE + 110 := USIZE_MAX];
    assert HEADER_SIZE in f && HEADER_SIZE + 110 in f;
  }

  lemma OneBlockBytes(b: Block)
    ensures forall p: nat :: p in BytesAt(map[0 := b], [0]) <==> b.Has(p)
  {
    var d := map[0 := b];
    forall p: nat | b.Has(p) ensures HeldAt(d, [0], p) {
      assert 0 in [0] && 0 in d && d[0].Has(p);
    }
  }

  lemma GapFilled()
    ensures TooWide(map[HEADER_SIZE + 12 := 88, HEADER_SIZE + 110 := USIZE_MAX],
                    BytesAt(map[0 := Block(HEADER_SIZE + 100, 10)], [0]))
  {
    var freed := BytesAt(map[0 := Block(HEADER_SIZE + 100, 10)], [0]);
    var f := map[HEADER_SIZE + 12 := 88, HEADER_SIZE + 110 := USIZE_MAX];
    OneBlockBytes(Block(HEADER_SIZE + 100, 10));
    FreeTwo(HEADER_SIZE + 12, 88, HEADER_SIZE + 110, USIZE_MAX);
    hide BytesAt, Free;
    assert HEADER_SIZE + 109 in freed;
    assert Stretch(f, freed, HEADER_SIZE + 109, HEADER_SIZE + 110 + USIZE_MAX);
  }

  lemma LongerWriteOverflows()
    ensures
      var f, d := map[HEADER_SIZE := 100, HEADER_SIZE + 110 := USIZE_MAX], map[0 := Block(HEADER_SIZE + 100, 10)];
      Ordered(d) && WriteOutcome(f, d, 0, 12) == Overflow
  {
    var f, d := map[HEADER_SIZE := 100, HEADER_SIZE + 110 := USIZE_MAX], map[0 := Block(HEADER_SIZE + 100, 10)];
    OneOverlap(d[0], 12);
    HoleChosen();
    GapFilled();
    hide Overlaps, Choose, Carved, TooWide, BytesAt;
    assert Mergeable(d, [0], 0, 12) == [0];
    assert MergeSize(d, 0, 12, [0]) == 12;
    assert RestOutcome(f, d, 0, 12, [0]) == Overflow;
    hide RestOutcome, Mergeable, MergeSize;
  }
}
