/**
 The body of the loop of `Snapshot::compact` for one file: blocks above a threshold are moved down into
 free space and runs of moved blocks are joined.
 */
module Compact {
  import opened Wrappers
  import opened OrderedKeys
  import opened FreeLists
  import opened Extents
  import opened EncodeWrite

  /** Same file offsets, and no byte is kept at a higher location than before. */
  ghost predicate NotHigher(d: DataList, e: DataList) {
    forall x: nat :: (Mapped(e, x) <==> Mapped(d, x)) && (Mapped(e, x) ==> Locate(e, x) <= Locate(d, x))
  }

  /** Nothing changed in meaning, ownership is conserved and no byte moved up. */
  ghost predicate Compacted(f: FreeList, d: DataList, s: seq<Byte>, f': FreeList, d': DataList, s': seq<Byte>,
                            lo: nat, hi: nat) {
    Stepped(f, d, s, f', d', s', lo, hi) && Content(d', s') == Content(d, s) && NotHigher(d, d')
  }

  lemma CompactedTrans(f: FreeList, d: DataList, s: seq<Byte>, f1: FreeList, d1: DataList, s1: seq<Byte>,
                       f2: FreeList, d2: DataList, s2: seq<Byte>, lo: nat, hi: nat)
    requires Compacted(f, d, s, f1, d1, s1, lo, hi) && Compacted(f1, d1, s1, f2, d2, s2, lo, hi)
    ensures Compacted(f, d, s, f2, d2, s2, lo, hi)
  {
    hide Free, Owned, Sound, Content;
    assert NotHigher(d, d2) by {
      hide Mapped, Locate;
    }
  }

  lemma CompactedRefl(f: FreeList, d: DataList, s: seq<Byte>, lo: nat, hi: nat)
    requires Sound(f, d, s, lo, hi)
    ensures Compacted(f, d, s, f, d, s, lo, hi)
  {
    hide Free, Owned, Sound, Content;
  }

  // ---------------------------------------------------------------- moving one block

  lemma MovedContent(d: DataList, s: seq<Byte>, k: nat, b: Block, t: seq<Byte>)
    requires WellFormed(d) && k in d && b.size == d[k].size
    requires forall p: nat :: b.Has(p) ==> !Owned(d, p)
    requires Copied(s, t, d[k].location, b.location, b.size)
    ensures Content(d[k := b], t) == Content(d, s)
  {
    hide Content, Overlay, Exclusive;
    var rest: DataList := d - {k};
    RemoveBlock(d, k);
    forall x: nat ensures HoldsAt(d, s, k, b, t, k, [], x) {
      if k <= x < k + b.size { LocateIs(d, k, x); }
    }
    assert SameBytes(rest, s, t);
    ReplacementOverlays(d, s, rest, k, b, t, k, []);
    EmptyOverlay(Content(d, s), k);
    assert rest[k := b] == d[k := b];
  }

  lemma MovedDown(d: DataList, k: nat, b: Block)
    requires Ordered(d) && k in d && b.size == d[k].size && b.location <= d[k].location
    ensures Ordered(d[k := b]) && NotHigher(d, d[k := b])
  {
    var e := d[k := b];
    forall x: nat ensures Mapped(e, x) <==> Mapped(d, x)
                  ensures Mapped(e, x) ==> Locate(e, x) <= Locate(d, x) {
      if Mapped(d, x) {
        var j :| Covers(d, j, x);
        assert Covers(e, j, x);
        LocateIs(d, j, x);
        LocateIs(e, j, x);
      }
      if Mapped(e, x) {
        var j :| Covers(e, j, x);
        assert Covers(d, j, x);
      }
    }
  }

  /** A block of `d` can be placed in the tail extent. */
  lemma BlockFits(f: FreeList, d: DataList, s: seq<Byte>, lo: nat, hi: nat, k: nat, hint: Option<nat>)
    requires Sound(f, d, s, lo, hi) && k in d
    ensures Choose(f, d[k].size, hint).Some?
    ensures Choose(f, d[k].size, hint) == hint || Choose(f, d[k].size, hint).value <= OFF_MAX
  {
    BlockBounds(f, d, s, lo, hi, k);
    var t := TailExtent(f, d, s, lo, hi);
    assert f[t] >= d[k].size;
  }

  lemma MovedOwned(d: DataList, k: nat, b: Block)
    requires WellFormed(d) && k in d && b.size == d[k].size
    requires forall p: nat :: b.Has(p) ==> !Owned(d, p)
    ensures WellFormed(d[k := b])
    ensures forall p: nat :: Owned(d[k := b], p) <==> (Owned(d, p) && !d[k].Has(p)) || b.Has(p)
  {
    var rest: DataList := d - {k};
    RemoveBlock(d, k);
    InsertBlock(rest, k, b);
    assert rest[k := b] == d[k := b];
  }

  /** The extent that would be allocated for `block` starts below it. */
  predicate FitsBelow(f: FreeList, block: Block, hint: nat) {
    var chosen := Choose(f, block.size, Some(hint));
    chosen.Some? && chosen.value <= block.location
  }

  /** Where `block` is moved to. */
  function Target(f: FreeList, block: Block, hint: nat): (b: Block)
    requires FitsBelow(f, block, hint)
    ensures b.size == block.size && b.location in f && f[b.location] >= b.size && b.location <= block.location
  {
    Block(Choose(f, block.size, Some(hint)).value, block.size)
  }

  /** The free list once `block` has moved. */
  function MovedList(f: FreeList, block: Block, hint: nat): FreeList
    requires FitsBelow(f, block, hint)
  {
    Coalesced(Carved(f, Target(f, block, hint)), block)
  }

  /** A 64-bit sum overflows: where the block was, or where it would go if that is higher. */
  predicate MoveOverflows(f: FreeList, block: Block, hint: nat) {
    if FitsBelow(f, block, hint) then Overflows(Carved(f, Target(f, block, hint)), block)
    else
      var chosen := Choose(f, block.size, Some(hint));
      chosen.Some? && f[chosen.value] > USIZE_MAX
  }

  lemma MoveFits(f: FreeList, d: DataList, s: seq<Byte>, lo: nat, hi: nat, k: nat, hint: nat)
    requires Sound(f, d, s, lo, hi) && k in d && hi - lo <= USIZE_MAX && hint <= OFF_MAX
    ensures !MoveOverflows(f, d[k], hint)
  {
    hide Free, Owned;
    BlockBounds(f, d, s, lo, hi, k);
    BlockFits(f, d, s, lo, hi, k, Some(hint));
    var chosen := Choose(f, d[k].size, Some(hint)).value;
    ExtentFits(f, lo, hi, chosen);
    if FitsBelow(f, d[k], hint) {
      var b := Target(f, d[k], hint);
      CarvedFrees(f, b);
      WithinRegion(Carved(f, b), lo, hi);
      NoOverflow(Carved(f, b), d[k], lo, hi);
    }
  }

  /** Moves the block at `k` to a freshly allocated place unless that place is higher. */
  method MoveBlock(f: FreeList, s: seq<Byte>, block: Block, hint: nat,
                   ghost d: DataList, ghost k: nat, ghost lo: nat, ghost hi: nat)
    returns (r: Outcome, moved: bool, b: Block, f': FreeList, s': seq<Byte>, ghost d': DataList)
    requires Sound(f, d, s, lo, hi) && k in d && d[k] == block && hint <= OFF_MAX
    ensures r == if MoveOverflows(f, block, hint) then Overflow else Done
    ensures hi - lo <= USIZE_MAX ==> r == Done
    ensures moved ==> r == Done
    ensures r == Done ==> (moved <==> FitsBelow(f, block, hint))
    ensures r == Done && !moved ==> f' == f && d' == d && s' == s
    ensures r == Done && moved ==> b == Target(f, block, hint) && f' == MovedList(f, block, hint)
    ensures r == Done && moved ==> d' == d[k := b] && b.location < d[k].location
    ensures r == Done && moved ==> lo <= b.location && b.End() <= |s'|
    ensures r == Done && moved ==> Compacted(f, d, s, f', d', s', lo, hi)
    ensures r == Done ==> |FreeBelow(f', hi)| == |FreeBelow(f, hi)|
  {
    hide Free, Owned, Canonical, Content, NotHigher, Copied, Exclusive, Carved, Coalesced, LeftOf, FreeBelow;
    BlockFits(f, d, s, lo, hi, k, Some(hint));
    BlockBounds(f, d, s, lo, hi, k);
    if hi - lo <= USIZE_MAX { MoveFits(f, d, s, lo, hi, k, hint); }
    var a;
    moved, d', s' := false, d, s;
    a, f' := Allocate(f, block.size, Some(hint));
    b := a.value;
    if b.location > block.location {
      r, f' := GiveBack(f, f', b);
      return;
    }
    OwnedByBlock(d, k);
    IntervalsApart(b, d[k]);
    var t := MoveFileRange(s, block.location, b.location, block.size);
    assert b.Has(b.location);
    RegionDisjoint(f, d, s, f', b, lo, hi);
    ghost var f1 := f';
    var g := Deallocate(f', block);
    if g.None? {
      r := Overflow;
      return;
    }
    MovedBytes(f, b, f1, block, g.value, hi);
    r, moved, f', d', s' := Done, true, g.value, d[k := b], t.value;
    MovedContent(d, s, k, b, s');
    MovedOwned(d, k, b);
    MovedDown(d, k, b);
    CopiedFrame(s, s', d[k].location, b);
    Occupied(f, d, s, f', d', s', b, lo, hi);
  }

  lemma RegionDisjoint(f: FreeList, d: DataList, s: seq<Byte>, f': FreeList, b: Block, lo: nat, hi: nat)
    requires Sound(f, d, s, lo, hi) && Canonical(f')
    requires forall p: nat :: Free(f', p) <==> Free(f, p) && !b.Has(p)
    ensures Within(f', lo, hi)
  {
    hide Free, Owned, Canonical;
    WithinRegion(f', lo, hi);
  }

  lemma CopiedFrame(s: seq<Byte>, t: seq<Byte>, from: nat, b: Block)
    requires Copied(s, t, from, b.location, b.size) && b.End() <= |s|
    ensures |t| == |s|
    ensures forall p: nat :: !b.Has(p) ==> At(t, p) == At(s, p)
  {
  }

  // ---------------------------------------------------------------- joining a moved block to the run

  /** `d` with the blocks at `j` and `k` joined into one at `j`. */
  function Join(d: DataList, j: nat, k: nat): DataList
    requires j in d && k in d
  {
    (d - {k})[j := Block(d[j].location, d[j].size + d[k].size)]
  }

  ghost predicate Contiguous(d: DataList, j: nat, k: nat) {
    j in d && k in d && j + d[j].size == k && d[j].End() == d[k].location
  }

  lemma JoinCovers(d: DataList, j: nat, k: nat, x: nat)
    requires WellFormed(d) && Contiguous(d, j, k)
    ensures Mapped(Join(d, j, k), x) <==> Mapped(d, x)
    ensures Mapped(d, x) ==> Locate(Join(d, j, k), x) == Locate(d, x)
  {
    hide Exclusive;
    var e := Join(d, j, k);
    JoinOwned(d, j, k);
    if Mapped(d, x) {
      var i :| Covers(d, i, x);
      LocateIs(d, i, x);
      LocateIs(e, if i == k then j else i, x);
    }
    if Mapped(e, x) {
      var i :| Covers(e, i, x);
      assert Covers(d, i, x) || Covers(d, k, x);
    }
  }

  lemma JoinOwned(d: DataList, j: nat, k: nat)
    requires WellFormed(d) && Contiguous(d, j, k)
    ensures WellFormed(Join(d, j, k))
    ensures forall p: nat :: Owned(Join(d, j, k), p) <==> Owned(d, p)
  {
    hide Exclusive;
    RemoveBlock(d, k);
    GrowOwned(d - {k}, j, d[k].size);
    assert Grow(d - {k}, j, d[k].size) == Join(d, j, k);
    assert d[k] == Block((d - {k})[j].End(), d[k].size);
  }

  lemma JoinCompacts(f: FreeList, d: DataList, s: seq<Byte>, j: nat, k: nat, lo: nat, hi: nat)
    requires Sound(f, d, s, lo, hi) && Contiguous(d, j, k)
    ensures Compacted(f, d, s, f, Join(d, j, k), s, lo, hi)
  {
    hide Free, Owned, Canonical, Exclusive, Content, NotHigher;
    JoinOwned(d, j, k);
    JoinContent(d, s, j, k);
  }

  lemma JoinContent(d: DataList, s: seq<Byte>, j: nat, k: nat)
    requires WellFormed(d) && Contiguous(d, j, k)
    ensures Content(Join(d, j, k), s) == Content(d, s) && NotHigher(d, Join(d, j, k))
  {
    hide Ordered, Exclusive, Mapped;
    forall x: nat ensures Mapped(Join(d, j, k), x) <==> Mapped(d, x)
                  ensures Mapped(d, x) ==> Locate(Join(d, j, k), x) == Locate(d, x) {
      JoinCovers(d, j, k, x);
    }
  }

  // ---------------------------------------------------------------- one file

  /** Blocks moved so far that are contiguous in the file and in the snapshot; empty at first. */
  datatype Run = Run(offset: nat, block: Block)

  /** `cur` is the file's extent map half way through: what was merged, the pending run, and the
      blocks at the offsets in `rest`, which are still those of `d`. */
  ghost predicate Parts(cur: DataList, d: DataList, merged: DataList, run: Run, rest: set<nat>) {
    && (forall k | k in merged :: k in cur && cur[k] == merged[k] && forall j | j in rest :: k < j)
    && (run.block.size > 0 ==>
          && run.offset in cur && cur[run.offset] == run.block && run.offset !in merged
          && forall j | j in rest :: run.offset < j)
    && (run.block.size == 0 ==> run == Run(0, Block(0, 0)))
    && (forall j | j in rest :: j in cur && j in d && cur[j] == d[j])
    && (forall k | k in cur :: k in merged || (run.block.size > 0 && k == run.offset) || k in rest)
  }

  /** Block `k` of `e` is a block of `d`, where it was. */
  ghost predicate Stayed(d: DataList, e: DataList, k: nat) {
    k in d && k in e && e[k] == d[k]
  }

  /** Two blocks of `e` that follow each other in the file and in the snapshot are not both moved ones. */
  ghost predicate Fused(d: DataList, e: DataList, rest: set<nat>) {
    forall j: nat, k: nat | Contiguous(e, j, k) && k !in rest :: Stayed(d, e, j) || Stayed(d, e, k)
  }

  /** Blocks at or below the threshold have stayed, and of the moved ones only the run is not merged. */
  ghost predicate Tracked(cur: DataList, d: DataList, merged: DataList, run: Run, rest: set<nat>, threshold: int) {
    && (forall k | k in d && k !in rest && d[k].location <= threshold :: k in merged && merged[k] == d[k])
    && (forall k | k in merged && !Stayed(d, cur, k) :: run.block.size > 0 && k < run.offset)
    && (run.block.size > 0 ==> run.offset in d && run.block.location < d[run.offset].location)
    && Fused(d, cur, rest)
  }

  lemma TrackInit(d: DataList, threshold: int)
    ensures Tracked(d, d, map[], Run(0, Block(0, 0)), d.Keys, threshold)
  {
  }

  lemma TrackKeep(cur: DataList, d: DataList, merged: DataList, run: Run, rest: set<nat>, threshold: int, k: nat)
    requires Parts(cur, d, merged, run, rest) && Tracked(cur, d, merged, run, rest, threshold) && IsLeast(k, rest)
    ensures Tracked(cur, d, merged[k := d[k]], run, rest - {k}, threshold)
  {
    assert Stayed(d, cur, k);
  }

  /** A moved block starts a new run. */
  lemma TrackStart(cur: DataList, d: DataList, merged: DataList, run: Run, rest: set<nat>, threshold: int, k: nat,
                   b: Block)
    requires Ordered(cur) && Parts(cur, d, merged, run, rest) && Tracked(cur, d, merged, run, rest, threshold)
    requires IsLeast(k, rest) && threshold < d[k].location && 0 < b.size == d[k].size && b.location < d[k].location
    requires run.block.size > 0 ==> run.offset + run.block.size != k || run.block.End() != b.location
    ensures Tracked(cur[k := b], d, if run.block.size > 0 then merged[run.offset := run.block] else merged, Run(k, b),
                    rest - {k}, threshold)
  {
    var e := cur[k := b];
    forall i: nat, j: nat | Contiguous(e, i, j) && j !in rest - {k} ensures Stayed(d, e, i) || Stayed(d, e, j) {
      StartFused(cur, d, merged, run, rest, threshold, k, b, i, j);
    }
    hide Contiguous, Ordered;
  }

  lemma StartFused(cur: DataList, d: DataList, merged: DataList, run: Run, rest: set<nat>, threshold: int, k: nat,
                   b: Block, i: nat, j: nat)
    requires Ordered(cur) && Parts(cur, d, merged, run, rest) && Tracked(cur, d, merged, run, rest, threshold)
    requires IsLeast(k, rest) && threshold < d[k].location && 0 < b.size == d[k].size && b.location < d[k].location
    requires run.block.size > 0 ==> run.offset + run.block.size != k || run.block.End() != b.location
    requires Contiguous(cur[k := b], i, j) && j !in rest - {k}
    ensures Stayed(d, cur[k := b], i) || Stayed(d, cur[k := b], j)
  {
    var e := cur[k := b];
    assert j == k || j in merged || j == run.offset;
    assert j <= k && i < j;
    assert e[i] == cur[i] && i !in rest;
    if j != k {
      assert Contiguous(cur, i, j) && j !in rest;
      hide Ordered, Parts;
    }
  }

  /** A moved block joins the run. */
  lemma TrackJoin(cur: DataList, d: DataList, merged: DataList, run: Run, rest: set<nat>, threshold: int, k: nat,
                  b: Block)
    requires Ordered(cur) && Parts(cur, d, merged, run, rest) && Tracked(cur, d, merged, run, rest, threshold)
    requires IsLeast(k, rest) && threshold < d[k].location && 0 < b.size == d[k].size && run.block.size > 0
    requires run.offset + run.block.size == k && run.block.End() == b.location
    ensures run.offset in cur && k in cur
    ensures Tracked(Join(cur[k := b], run.offset, k), d, merged,
                    Run(run.offset, Block(run.block.location, run.block.size + b.size)), rest - {k}, threshold)
  {
    var e := Join(cur[k := b], run.offset, k);
    forall i: nat, j: nat | Contiguous(e, i, j) && j !in rest - {k} ensures Stayed(d, e, i) || Stayed(d, e, j) {
      JoinFused(cur, d, merged, run, rest, threshold, k, b, i, j);
    }
    hide Contiguous, Ordered;
  }

  lemma JoinFused(cur: DataList, d: DataList, merged: DataList, run: Run, rest: set<nat>, threshold: int, k: nat,
                  b: Block, i: nat, j: nat)
    requires Ordered(cur) && Parts(cur, d, merged, run, rest) && Tracked(cur, d, merged, run, rest, threshold)
    requires IsLeast(k, rest) && threshold < d[k].location && 0 < b.size == d[k].size && run.block.size > 0
    requires run.offset + run.block.size == k && run.block.End() == b.location
    requires run.offset in cur && k in cur && j !in rest - {k}
    requires Contiguous(Join(cur[k := b], run.offset, k), i, j)
    ensures var e := Join(cur[k := b], run.offset, k); Stayed(d, e, i) || Stayed(d, e, j)
  {
    var e := Join(cur[k := b], run.offset, k);
    assert j != k && i != k;
    if i != run.offset {
      assert Contiguous(cur, i, j);
      assert Stayed(d, e, i) == Stayed(d, cur, i);
      assert j == run.offset ==> !Stayed(d, cur, j);
      assert j != run.offset ==> Stayed(d, e, j) == Stayed(d, cur, j);
    }
    hide Parts, Tracked, Ordered;
  }

  /** The run once block `b` has been moved to follow it. */
  function Extended(run: Run, offset: nat, b: Block): Run {
    if run.block.size > 0 && run.offset + run.block.size == offset && run.block.End() == b.location then
      Run(run.offset, Block(run.block.location, run.block.size + b.size))
    else Run(offset, b)
  }

  /** Extends the run by the moved block, or starts a new run. */
  method AppendRun(merged: DataList, run: Run, offset: nat, b: Block) returns (merged': DataList, run': Run)
    requires b.size > 0
    requires if run.block.size == 0 then run == Run(0, Block(0, 0)) else run.offset < offset
    ensures run' == Extended(run, offset, b)
    ensures merged' ==
              if run.block.size == 0 || run'.offset == run.offset then merged else merged[run.offset := run.block]
  {
    merged', run' := merged, run;
    if run.offset == 0 && run.block.location == 0 && run.block.size == 0 {
      run' := Run(offset, b);
    } else if run.offset + run.block.size == offset && run.block.End() == b.location {
      run' := Run(run.offset, Block(run.block.location, run.block.size + b.size));
    } else {
      merged' := merged[run.offset := run.block];
      run' := Run(offset, b);
    }
  }

  lemma PartsKeep(cur: DataList, d: DataList, merged: DataList, run: Run, rest: set<nat>, k: nat)
    requires Parts(cur, d, merged, run, rest) && IsLeast(k, rest)
    ensures Parts(cur, d, merged[k := d[k]], run, rest - {k})
  {
  }

  lemma PartsStart(cur: DataList, d: DataList, merged: DataList, run: Run, rest: set<nat>, k: nat, b: Block)
    requires Parts(cur, d, merged, run, rest) && IsLeast(k, rest) && b.size > 0 && run.block.size == 0
    ensures Parts(cur[k := b], d, merged, Run(k, b), rest - {k})
  {
  }

  lemma PartsSwitch(cur: DataList, d: DataList, merged: DataList, run: Run, rest: set<nat>, k: nat, b: Block)
    requires Parts(cur, d, merged, run, rest) && IsLeast(k, rest) && b.size > 0 && run.block.size > 0
    ensures Parts(cur[k := b], d, merged[run.offset := run.block], Run(k, b), rest - {k})
  {
  }

  lemma PartsJoin(cur: DataList, d: DataList, merged: DataList, run: Run, rest: set<nat>, k: nat, b: Block)
    requires Parts(cur, d, merged, run, rest) && IsLeast(k, rest) && b.size > 0 && run.block.size > 0
    ensures run.offset in cur && k in cur
    ensures Parts(Join(cur[k := b], run.offset, k), d, merged,
                  Run(run.offset, Block(run.block.location, run.block.size + b.size)), rest - {k})
  {
  }

  lemma PartsFacts(cur: DataList, d: DataList, merged: DataList, run: Run, rest: set<nat>, k: nat)
    requires Parts(cur, d, merged, run, rest) && k in rest
    ensures k in cur && k in d && cur[k] == d[k]
    ensures run.block.size > 0 ==> run.offset in cur && cur[run.offset] == run.block && run.offset < k
    ensures run.block.size == 0 ==> run == Run(0, Block(0, 0))
  {
  }

  // ---------------------------------------------------------------- what happens to the blocks of a file

  /** The free list and the pending run, part of the way through a file. */
  datatype Pass = Pass(freeList: FreeList, run: Run)

  /** One block; `None` is an overflow. */
  function PassBlock(p: Pass, offset: nat, block: Block, threshold: int): Option<Pass> {
    var hint := p.run.block.End();
    if block.location <= threshold then Some(p)
    else if MoveOverflows(p.freeList, block, hint) then None
    else if !FitsBelow(p.freeList, block, hint) then Some(p)
    else Some(Pass(MovedList(p.freeList, block, hint), Extended(p.run, offset, Target(p.freeList, block, hint))))
  }

  /** The blocks at the offsets in `rest`, in ascending order. */
  function PassOver(p: Pass, d: DataList, rest: set<nat>, threshold: int): Option<Pass>
    requires rest <= d.Keys
    decreases |rest|
  {
    if rest == {} then Some(p)
    else
      var k := Least(rest);
      match PassBlock(p, k, d[k], threshold)
      case None => None
      case Some(q) => PassOver(q, d, rest - {k}, threshold)
  }

  /** The free list and the last run after the blocks of a file have been visited, from the free list and
      the extents before. */
  function Outline(f: FreeList, d: DataList, threshold: int): Option<Pass> {
    PassOver(Pass(f, Run(0, Block(0, 0))), d, d.Keys, threshold)
  }

  /** The source does not store a last run that starts at offset 0. */
  predicate Loses(run: Run) {
    run.offset == 0 && run.block.size > 0
  }

  lemma PassNext(p: Pass, d: DataList, rest: set<nat>, threshold: int, k: nat)
    requires rest <= d.Keys && IsLeast(k, rest)
    ensures PassOver(p, d, rest, threshold) ==
      match PassBlock(p, k, d[k], threshold) { case None => None case Some(q) => PassOver(q, d, rest - {k}, threshold) }
  {
    assert Least(rest) == k;
  }

  lemma {:induction false} NeverAtZero(p: Pass, d: DataList, rest: set<nat>, threshold: int)
    requires rest <= d.Keys && 0 !in rest && !Loses(p.run)
    ensures var q := PassOver(p, d, rest, threshold); q.Some? ==> !Loses(q.value.run)
    decreases |rest|
  {
    hide MoveOverflows, FitsBelow, MovedList, Target;
    if rest != {} {
      var k := Least(rest);
      PassNext(p, d, rest, threshold, k);
      var q := PassBlock(p, k, d[k], threshold);
      if q.Some? { NeverAtZero(q.value, d, rest - {k}, threshold); }
    }
  }

  lemma {:induction false} PassNarrow(p: Pass, d: DataList, rest: set<nat>, threshold: int)
    requires rest <= d.Keys && Narrow(p.freeList)
    ensures var q := PassOver(p, d, rest, threshold); q.Some? ==> Narrow(q.value.freeList)
    decreases |rest|
  {
    hide FitsBelow, Narrow, Extended, Overflows, Coalesced, Carved;
    if rest != {} {
      var k := Least(rest);
      PassNext(p, d, rest, threshold, k);
      var q := PassBlock(p, k, d[k], threshold);
      if q.Some? {
        if q.value != p { MovedNarrow(p.freeList, d[k], p.run.block.End()); }
        PassNarrow(q.value, d, rest - {k}, threshold);
      }
    }
  }

  lemma MovedNarrow(f: FreeList, block: Block, hint: nat)
    requires Narrow(f) && FitsBelow(f, block, hint) && !MoveOverflows(f, block, hint)
    ensures Narrow(MovedList(f, block, hint))
  {
    hide FitsBelow, Narrow, Overflows, Checked;
    var b := Target(f, block, hint);
    CarvedNarrow(f, b);
    CoalescedChecked(Carved(f, b), block);
    CheckedNarrow(Carved(f, b), Coalesced(Carved(f, b), block));
  }

  /** Compaction checks every sum. */
  lemma OutlineNarrow(f: FreeList, d: DataList, threshold: int)
    requires Narrow(f)
    ensures var q := Outline(f, d, threshold); q.Some? ==> Narrow(q.value.freeList)
  {
    OutlineIs(f, d, threshold);
    hide *;
    PassNarrow(Pass(f, Run(0, Block(0, 0))), d, d.Keys, threshold);
  }

  lemma {:induction false} NothingMoves(p: Pass, d: DataList, rest: set<nat>, threshold: int)
    requires rest <= d.Keys && forall k | k in rest :: d[k].location <= threshold
    ensures PassOver(p, d, rest, threshold) == Some(p)
    decreases |rest|
  {
    if rest != {} {
      var k := Least(rest);
      PassNext(p, d, rest, threshold, k);
      NothingMoves(p, d, rest - {k}, threshold);
    }
  }

  /** When one block alone is above the threshold, what happens to it is all that happens. */
  lemma {:induction false} OneMoves(p: Pass, d: DataList, rest: set<nat>, threshold: int, k: nat)
    requires rest <= d.Keys && k in rest && forall j | j in rest && j != k :: d[j].location <= threshold
    ensures PassOver(p, d, rest, threshold) == PassBlock(p, k, d[k], threshold)
    decreases |rest|
  {
    hide MoveOverflows, FitsBelow, MovedList, Target, Extended;
    var j := Least(rest);
    PassNext(p, d, rest, threshold, j);
    if j != k {
      OneMoves(p, d, rest - {j}, threshold, k);
    } else {
      var q := PassBlock(p, k, d[k], threshold);
      if q.Some? { NothingMoves(q.value, d, rest - {k}, threshold); }
    }
  }

  lemma FirstBlock(p: Pass, block: Block, threshold: int)
    requires block.size > 0 && p.run == Run(0, Block(0, 0))
    ensures var q := PassBlock(p, 0, block, threshold);
      q.Some? ==> (Loses(q.value.run) <==> block.location > threshold && FitsBelow(p.freeList, block, 0))
  {
    hide MoveOverflows, FitsBelow, MovedList, Target, Extended;
    if block.location > threshold && FitsBelow(p.freeList, block, 0) {
      ExtendedStart(0, Target(p.freeList, block, 0));
    }
  }

  lemma ExtendedStart(offset: nat, b: Block)
    ensures Extended(Run(0, Block(0, 0)), offset, b) == Run(offset, b)
  {
  }

  /** A file loses its front only if the block at offset 0 moves. */
  lemma FrontMoves(f: FreeList, d: DataList, threshold: int)
    requires forall k | k in d :: d[k].size > 0
    ensures var q := Outline(f, d, threshold);
      q.Some? && Loses(q.value.run) ==> 0 in d && d[0].location > threshold && FitsBelow(f, d[0], 0)
  {
    OutlineIs(f, d, threshold);
    hide *;
    var p := Pass(f, Run(0, Block(0, 0)));
    NoRunLoses();
    if 0 in d {
      PassNext(p, d, d.Keys, threshold, 0);
      FirstBlock(p, d[0], threshold);
      var q := PassBlock(p, 0, d[0], threshold);
      if q.Some? && !Loses(q.value.run) { NeverAtZero(q.value, d, d.Keys - {0}, threshold); }
    } else {
      NeverAtZero(p, d, d.Keys, threshold);
    }
  }

  lemma NoRunLoses()
    ensures !Loses(Run(0, Block(0, 0)))
  {
  }

  /** When no other block is above the threshold, that is all there is to it. */
  lemma FrontAlone(f: FreeList, d: DataList, threshold: int)
    requires forall k | k in d :: d[k].size > 0 && (k != 0 ==> d[k].location <= threshold)
    ensures var q := Outline(f, d, threshold);
      q.Some? ==> (Loses(q.value.run) <==> 0 in d && d[0].location > threshold && FitsBelow(f, d[0], 0))
  {
    OutlineIs(f, d, threshold);
    hide *;
    var p := Pass(f, Run(0, Block(0, 0)));
    NoRunLoses();
    if 0 in d {
      PassNext(p, d, d.Keys, threshold, 0);
      FirstBlock(p, d[0], threshold);
      var q := PassBlock(p, 0, d[0], threshold);
      if q.Some? { NothingMoves(q.value, d, d.Keys - {0}, threshold); }
    } else {
      NothingMoves(p, d, d.Keys, threshold);
    }
  }

  lemma BlockEnds(f: FreeList, d: DataList, s: seq<Byte>, lo: nat, hi: nat, k: nat)
    requires Sound(f, d, s, lo, hi) && k in d
    ensures 0 < d[k].size && d[k].End() <= OFF_MAX
  {
    BlockBounds(f, d, s, lo, hi, k);
  }

  method CompactStep(f: FreeList, s: seq<Byte>, merged: DataList, run: Run, offset: nat, block: Block, threshold: int,
                     ghost cur: DataList, ghost d: DataList, ghost rest: set<nat>, ghost lo: nat, ghost hi: nat)
    returns (r: Outcome, f': FreeList, s': seq<Byte>, merged': DataList, run': Run, ghost cur': DataList)
    requires Sound(f, cur, s, lo, hi) && Parts(cur, d, merged, run, rest)
    requires Tracked(cur, d, merged, run, rest, threshold)
    requires IsLeast(offset, rest) && offset in d && block == d[offset]
    ensures hi - lo <= USIZE_MAX ==> r == Done
    ensures r == Done ==> Tracked(cur', d, merged', run', rest - {offset}, threshold)
    ensures r == Done ==> |FreeBelow(f', hi)| == |FreeBelow(f, hi)|
    ensures var q := PassBlock(Pass(f, run), offset, block, threshold);
      if q.None? then r == Overflow else r == Done && q.value == Pass(f', run')
    ensures r == Done ==> Compacted(f, cur, s, f', cur', s', lo, hi) && Parts(cur', d, merged', run', rest - {offset})
  {
    hide Compacted, Sound, FitsBelow, Parts, MovedList, MoveOverflows, Target, Tracked, FreeBelow;
    SoundOrdered(f, cur, s, lo, hi);
    PartsFacts(cur, d, merged, run, rest, offset);
    f', s', merged', run', cur' := f, s, merged, run, cur;
    if block.location > threshold {
      assert run.block.End() <= OFF_MAX by { if run.block.size > 0 { BlockEnds(f, cur, s, lo, hi, run.offset); } }
      BlockEnds(f, cur, s, lo, hi, offset);
      var moved, b;
      r, moved, b, f', s', cur' := MoveBlock(f, s, block, run.block.End(), cur, offset, lo, hi);
      if r != Done {
        return;
      }
      if moved {
        assert b.size > 0;
        merged', run' := AppendRun(merged, run, offset, b);
        if run.block.size == 0 {
          PartsStart(cur, d, merged, run, rest, offset, b);
          TrackStart(cur, d, merged, run, rest, threshold, offset, b);
        } else if run.offset + run.block.size == offset && run.block.End() == b.location {
          PartsJoin(cur, d, merged, run, rest, offset, b);
          TrackJoin(cur, d, merged, run, rest, threshold, offset, b);
          StepJoin(f, cur, s, f', cur', s', run.offset, offset, lo, hi);
          cur' := Join(cur', run.offset, offset);
        } else {
          PartsSwitch(cur, d, merged, run, rest, offset, b);
          TrackStart(cur, d, merged, run, rest, threshold, offset, b);
        }
        return;
      }
    }
    r, merged' := Done, merged[offset := block];
    PartsKeep(cur, d, merged, run, rest, offset);
    TrackKeep(cur, d, merged, run, rest, threshold, offset);
    CompactedRefl(f, cur, s, lo, hi);
  }

  lemma StepJoin(f: FreeList, d: DataList, s: seq<Byte>, f1: FreeList, d1: DataList, s1: seq<Byte>, j: nat, k: nat,
                 lo: nat, hi: nat)
    requires Compacted(f, d, s, f1, d1, s1, lo, hi) && Contiguous(d1, j, k)
    ensures Compacted(f, d, s, f1, Join(d1, j, k), s1, lo, hi)
  {
    hide NotHigher, Content, Sound, Conserves, Framed;
    JoinCompacts(f1, d1, s1, j, k, lo, hi);
    CompactedTrans(f, d, s, f1, d1, s1, f1, Join(d1, j, k), s1, lo, hi);
  }

  /** What the file loses when the pending run starts at offset 0. */
  ghost predicate DropsFront(d: DataList, s: seq<Byte>, d': DataList, s': seq<Byte>, n: nat) {
    Content(d', s') == (imap x | x in Content(d, s) && n <= x :: Content(d, s)[x])
  }

  /** Compacts one file. The source stores the last run only when its file offset is not zero:
      `dropped` says that a run at offset 0 was lost. */
  method CompactFile(f: FreeList, d: DataList, s: seq<Byte>, threshold: int, ghost lo: nat, ghost hi: nat)
    returns (r: Outcome, f': FreeList, d': DataList, s': seq<Byte>, dropped: bool, ghost e: DataList)
    requires Sound(f, d, s, lo, hi)
    ensures hi - lo <= USIZE_MAX ==> r == Done
    ensures r == Done ==> Compacted(f, d, s, f', e, s', lo, hi) && Fused(d, e, {})
    ensures r == Done ==> forall k | k in d && d[k].location <= threshold :: Stayed(d, e, k) && Stayed(d, d', k)
    ensures r == Done ==> (dropped <==> 0 in e && forall k | k in e :: Stayed(d, e, k) <==> k != 0)
    ensures r == Done ==> d' == if dropped then e - {0} else e
    ensures r == Done ==> |FreeBelow(f', hi)| == |FreeBelow(f, hi)|
    ensures r == if Outline(f, d, threshold).None? then Overflow else Done
    ensures r == Done ==> f' == Outline(f, d, threshold).value.freeList
    ensures r == Done ==> (dropped <==> Loses(Outline(f, d, threshold).value.run))
    ensures r == Done && !dropped ==> Compacted(f, d, s, f', d', s', lo, hi)
    ensures r == Done && dropped ==>
              Sound(f', d', s', lo, hi) && Framed(f, d, s, s') && Content(d', s') != Content(d, s)
    ensures r == Done && dropped ==> 0 in d && d[0].location > threshold && FitsBelow(f, d[0], 0)
    ensures r == Done && dropped ==>
              exists n: nat {:trigger DropsFront(d, s, d', s', n)} :: n > 0 && DropsFront(d, s, d', s', n)
    ensures r == Done && dropped ==> !Conserves(f, d, f', d')
    ensures r == Done ==> forall p: nat :: Free(f', p) || Owned(d', p) ==> Free(f, p) || Owned(d, p)
  {
    hide Compacted, Sound, Content, Free, Owned, DropsFront, Conserves, Framed, FitsBelow, Outline, Fused, FreeBelow;
    var merged, run;
    ghost var cur;
    r, f', s', merged, run, cur := CompactBlocks(f, d, s, threshold, lo, hi);
    d', dropped, e := d, false, cur;
    if r != Done {
      return;
    }
    LastRun(cur, d, merged, run, threshold);
    CompactedConserves(f, d, s, f', cur, s', lo, hi);
    if run.offset != 0 {
      merged := merged[run.offset := run.block];
    }
    d' := merged;
    dropped := run.offset == 0 && run.block.size > 0;
    if !dropped {
      assert d' == cur;
    } else {
      assert d' == cur - {0};
      FrontDropped(f, d, s, f', cur, s', lo, hi);
      BlocksNotEmpty(f, d, s, lo, hi);
      FrontMoves(f, d, threshold);
    }
  }

  /** The last run starts at offset 0 exactly when its block is the only one that has moved. */
  lemma LastRun(cur: DataList, d: DataList, merged: DataList, run: Run, threshold: int)
    requires Parts(cur, d, merged, run, {}) && Tracked(cur, d, merged, run, {}, threshold)
    ensures forall k | k in d && d[k].location <= threshold :: Stayed(d, cur, k) && k in merged
    ensures run.offset == 0 && run.block.size > 0 <==> 0 in cur && forall k | k in cur :: Stayed(d, cur, k) <==> k != 0
    ensures run.offset == 0 && run.block.size > 0 ==> forall k | k in d && d[k].location <= threshold :: k != 0
  {
    hide Fused;
  }

  lemma BlocksNotEmpty(f: FreeList, d: DataList, s: seq<Byte>, lo: nat, hi: nat)
    requires Sound(f, d, s, lo, hi)
    ensures forall k | k in d :: d[k].size > 0
  {
  }

  /** The loop over the blocks of the file. */
  method CompactBlocks(f: FreeList, d: DataList, s: seq<Byte>, threshold: int, ghost lo: nat, ghost hi: nat)
    returns (r: Outcome, f': FreeList, s': seq<Byte>, merged: DataList, run: Run, ghost cur: DataList)
    requires Sound(f, d, s, lo, hi)
    ensures hi - lo <= USIZE_MAX ==> r == Done
    ensures if Outline(f, d, threshold).None? then r == Overflow
            else r == Done && Outline(f, d, threshold).value == Pass(f', run)
    ensures r == Done ==> Compacted(f, d, s, f', cur, s', lo, hi) && Parts(cur, d, merged, run, {})
    ensures r == Done ==> Tracked(cur, d, merged, run, {}, threshold) && |FreeBelow(f', hi)| == |FreeBelow(f, hi)|
  {
    hide *;
    merged, run := map[], Run(0, Block(0, 0));
    cur := d;
    r, f', s' := Done, f, s;
    CompactedRefl(f, d, s, lo, hi);
    PartsInit(d);
    TrackInit(d, threshold);
    OutlineIs(f, d, threshold);
    var rest := d.Keys;
    while rest != {}
      invariant rest <= d.Keys
      invariant Sound(f', cur, s', lo, hi) && Compacted(f, d, s, f', cur, s', lo, hi)
      invariant Parts(cur, d, merged, run, rest) && Tracked(cur, d, merged, run, rest, threshold)
      invariant |FreeBelow(f', hi)| == |FreeBelow(f, hi)|
      invariant PassOver(Pass(f', run), d, rest, threshold) == Outline(f, d, threshold)
    {
      var offset := Least(rest);
      assert offset in rest by { InLeast(rest); }
      ghost var f0, s0, cur0 := f', s', cur;
      PassNext(Pass(f', run), d, rest, threshold, offset);
      r, f', s', merged, run, cur :=
        CompactStep(f', s', merged, run, offset, d[offset], threshold, cur, d, rest, lo, hi);
      if r != Done {
        return;
      }
      CompactedTrans(f, d, s, f0, cur0, s0, f', cur, s', lo, hi);
      CompactedSound(f, d, s, f', cur, s', lo, hi);
      rest := rest - {offset};
    }
    PassDone(Pass(f', run), d, threshold);
    r := Done;
  }

  lemma OutlineIs(f: FreeList, d: DataList, threshold: int)
    ensures Outline(f, d, threshold) == PassOver(Pass(f, Run(0, Block(0, 0))), d, d.Keys, threshold)
  {
  }

  lemma PassDone(p: Pass, d: DataList, threshold: int)
    ensures PassOver(p, d, {}, threshold) == Some(p)
  {
  }

  lemma InLeast(s: set<nat>)
    requires s != {}
    ensures Least(s) in s
  {
  }

  lemma PartsInit(d: DataList)
    ensures Parts(d, d, map[], Run(0, Block(0, 0)), d.Keys)
  {
  }

  /** At first the hint is 0, which is never free: the block fits below if some extent there is large enough. */
  lemma FitsBelowIff(f: FreeList, b: Block)
    requires 0 !in f
    ensures FitsBelow(f, b, 0) <==> exists k :: k in f && k <= b.location && f[k] >= b.size
  {
  }

  /** A block that alone lies above the threshold, and that a free extent below it can hold, moves to the first such
      extent. */
  lemma OneOutline(f: FreeList, d: DataList, threshold: int, k: nat)
    requires 0 !in f && k in d && d[k].size > 0 && d[k].location > threshold
    requires forall j | j in d && j != k :: d[j].location <= threshold
    requires exists i :: i in f && i <= d[k].location && f[i] >= d[k].size
    ensures var place := Choose(f, d[k].size, None);
      && place.Some? && place.value <= d[k].location
      && var carved := Carved(f, Block(place.value, d[k].size));
         Outline(f, d, threshold) ==
           if Overflows(carved, d[k]) then None
           else Some(Pass(Coalesced(carved, d[k]), Run(k, Block(place.value, d[k].size))))
  {
    hide Outline, PassOver, Overflows, Coalesced, Carved, Extended;
    FitsBelowIff(f, d[k]);
    OutlineIs(f, d, threshold);
    OneMoves(Pass(f, Run(0, Block(0, 0))), d, d.Keys, threshold, k);
    ExtendedStart(k, Block(Choose(f, d[k].size, None).value, d[k].size));
  }

  /** One block: it stays at or below the threshold, and when the place for it is higher. That place is behind the
      pending run, if it fits there, and otherwise the first extent that holds it. A block that has moved joins the run
      if it follows it in the file and in the storage, and otherwise starts a run. */
  lemma BlockTurn(f: FreeList, run: Run, offset: nat, block: Block, threshold: int, q: Option<Pass>)
    requires q == PassBlock(Pass(f, run), offset, block, threshold)
    ensures block.location <= threshold ==> q == Some(Pass(f, run))
    ensures block.location > threshold ==>
      match Choose(f, block.size, Some(run.block.location + run.block.size))
      case None => q == Some(Pass(f, run))
      case Some(place) =>
        if place > block.location then q == if f[place] > USIZE_MAX then None else Some(Pass(f, run))
        else
          && (q.None? <==> Overflows(Carved(f, Block(place, block.size)), block))
          && (q.Some? ==>
               && q.value.freeList == Coalesced(Carved(f, Block(place, block.size)), block)
               && var joins := run.block.size > 0 && run.offset + run.block.size == offset
                               && run.block.location + run.block.size == place;
                  q.value.run == if joins then Run(run.offset, Block(run.block.location, run.block.size + block.size))
                                 else Run(offset, Block(place, block.size)))
  {
    hide Overflows, Coalesced, Carved;
  }

  lemma {:induction false} TwoMove(p: Pass, d: DataList, rest: set<nat>, threshold: int, i: nat, j: nat)
    requires rest <= d.Keys && i in rest && j in rest && i < j
    requires forall k | k in rest && k != i && k != j :: d[k].location <= threshold
    ensures PassOver(p, d, rest, threshold) ==
      match PassBlock(p, i, d[i], threshold) { case None => None case Some(q) => PassBlock(q, j, d[j], threshold) }
    decreases |rest|
  {
    hide MoveOverflows, FitsBelow, MovedList, Target, Extended;
    var k := Least(rest);
    PassNext(p, d, rest, threshold, k);
    if k != i {
      TwoMove(p, d, rest - {k}, threshold, i, j);
    } else {
      var q := PassBlock(p, i, d[i], threshold);
      if q.Some? { OneMoves(q.value, d, rest - {i}, threshold, j); }
    }
  }

  /** Giving a block back shortens no extent that does not border on it, and none that ends where it starts. */
  lemma CoalescedKeeps(f: FreeList, b: Block, q: nat)
    requires q in f && q != b.location && q != b.End()
    ensures q in Coalesced(f, b) && Coalesced(f, b)[q] >= f[q]
  {
  }

  /** The free extent behind the first of two blocks that move is the hint for the second. */
  lemma HintHolds(f: FreeList, block: Block, place: nat, size: nat)
    requires place in f && f[place] >= block.size + size && size > 0 && block.size > 0
    requires forall p: nat | block.Has(p) :: !Free(f, p)
    ensures var g := Coalesced(Carved(f, Block(place, block.size)), block);
      place + block.size in g && g[place + block.size] >= size
  {
    var q := place + block.size;
    assert Free(f, place) && Free(f, q);
    assert block.Has(block.location);
    hide Coalesced;
    CoalescedKeeps(Carved(f, Block(place, block.size)), block, q);
  }

  /** Two blocks that follow each other in the file and alone lie above the threshold become one block, if the first
      free extent that holds the first of them holds both, below them. */
  lemma MoveTogether(f: FreeList, d: DataList, threshold: int, i: nat, j: nat, place: nat)
    requires 0 !in f && i in d && j in d && d[i].size > 0 && d[j].size > 0 && i + d[i].size == j
    requires d[i].location > threshold && d[j].location > threshold
    requires forall k | k in d && k != i && k != j :: d[k].location <= threshold
    requires forall p: nat | d[i].Has(p) :: !Free(f, p)
    requires Choose(f, d[i].size, None) == Some(place) && f[place] >= d[i].size + d[j].size
    requires place <= d[i].location && place + d[i].size <= d[j].location
    ensures var pass := Outline(f, d, threshold);
      pass.Some? ==> pass.value.run == Run(i, Block(place, d[i].size + d[j].size))
  {
    hide Coalesced, Carved, Outline, PassOver, PassBlock, Choose, Free;
    OutlineIs(f, d, threshold);
    TwoMove(Pass(f, Run(0, Block(0, 0))), d, d.Keys, threshold, i, j);
    StartBlock(f, i, d[i], threshold, place);
    HintHolds(f, d[i], place, d[j].size);
    NextBlock(Coalesced(Carved(f, Block(place, d[i].size)), d[i]), i, Block(place, d[i].size), d[j], threshold);
  }

  lemma StartBlock(f: FreeList, i: nat, block: Block, threshold: int, place: nat)
    requires 0 !in f && block.location > threshold
    requires Choose(f, block.size, None) == Some(place) && place <= block.location
    ensures var q, target := PassBlock(Pass(f, Run(0, Block(0, 0))), i, block, threshold), Block(place, block.size);
      q.Some? ==> q.value == Pass(Coalesced(Carved(f, target), block), Run(i, target))
  {
    hide Overflows, Coalesced, Carved, Extended;
    ExtendedStart(i, Block(place, block.size));
  }

  lemma NextBlock(g: FreeList, i: nat, a: Block, block: Block, threshold: int)
    requires a.size > 0 && a.End() in g && g[a.End()] >= block.size
    requires block.location > threshold && a.End() <= block.location
    ensures var q := PassBlock(Pass(g, Run(i, a)), i + a.size, block, threshold);
      q.Some? ==> q.value.run == Run(i, Block(a.location, a.size + block.size))
  {
    hide Overflows, Coalesced, Carved, Extended;
    ExtendedOn(i, a, Block(a.End(), block.size));
  }

  lemma ExtendedOn(offset: nat, a: Block, b: Block)
    requires a.size > 0 && b.location == a.End()
    ensures Extended(Run(offset, a), offset + a.size, b) == Run(offset, Block(a.location, a.size + b.size))
  {
  }

  lemma CompactedSound(f: FreeList, d: DataList, s: seq<Byte>, f': FreeList, d': DataList, s': seq<Byte>, lo: nat,
                       hi: nat)
    requires Compacted(f, d, s, f', d', s', lo, hi)
    ensures Sound(f', d', s', lo, hi)
  {
  }

  lemma CompactedConserves(f: FreeList, d: DataList, s: seq<Byte>, f': FreeList, d': DataList, s': seq<Byte>, lo: nat,
                           hi: nat)
    requires Compacted(f, d, s, f', d', s', lo, hi)
    ensures forall p: nat :: Free(f', p) || Owned(d', p) <==> Free(f, p) || Owned(d, p)
    ensures forall p: nat :: Owned(d' - {0}, p) ==> Owned(d', p)
  {
  }

  lemma DroppedSound(f: FreeList, d: DataList, s: seq<Byte>, lo: nat, hi: nat, k: nat)
    requires Sound(f, d, s, lo, hi) && k in d
    ensures Sound(f, d - {k}, s, lo, hi)
    ensures d[k].Has(d[k].location) && Owned(d, d[k].location)
    ensures !Owned(d - {k}, d[k].location) && !Free(f, d[k].location)
  {
    hide Free, Canonical, Exclusive;
    RemoveBlock(d, k);
    assert d[k].Has(d[k].location);
  }

  lemma DroppedContent(d: DataList, s: seq<Byte>, k: nat)
    requires Ordered(d) && k in d
    ensures k in Content(d, s) && k !in Content(d - {k}, s)
    ensures forall x: nat :: x in Content(d - {k}, s) <==> x in Content(d, s) && !(k <= x < k + d[k].size)
    ensures forall x: nat :: x in Content(d - {k}, s) ==> Content(d - {k}, s)[x] == Content(d, s)[x]
  {
    RemovedContent(d, s, k);
    LocateIs(d, k, k);
  }

  /** Losing the block at offset 0 keeps the invariant but loses its bytes. */
  lemma FrontDropped(f: FreeList, d: DataList, s: seq<Byte>, f': FreeList, cur: DataList, s': seq<Byte>, lo: nat,
                     hi: nat)
    requires Compacted(f, d, s, f', cur, s', lo, hi) && 0 in cur
    ensures var d' := cur - {0};
            && Sound(f', d', s', lo, hi) && Framed(f, d, s, s') && !Conserves(f, d, f', d')
            && cur[0].size > 0 && DropsFront(d, s, d', s', cur[0].size)
            && Content(d', s') != Content(d, s)
  {
    hide Free, Owned, Canonical, NotHigher, Exclusive, Content;
    DroppedSound(f', cur, s', lo, hi, 0);
    DroppedContent(cur, s', 0);
  }

  lemma RemovedAt(d: DataList, k: nat, x: nat)
    requires Ordered(d) && k in d
    ensures Mapped(d - {k}, x) <==> Mapped(d, x) && !(k <= x < k + d[k].size)
    ensures Mapped(d - {k}, x) ==> Locate(d - {k}, x) == Locate(d, x)
  {
    var e: DataList := d - {k};
    assert Ordered(e);
    if Mapped(d, x) && !(k <= x < k + d[k].size) {
      var j :| Covers(d, j, x);
      assert Covers(e, j, x);
    }
    if Mapped(e, x) {
      var j :| Covers(e, j, x);
      assert Covers(d, j, x);
      LocateIs(e, j, x);
      LocateIs(d, j, x);
    }
  }

  lemma RemovedContent(d: DataList, s: seq<Byte>, k: nat)
    requires Ordered(d) && k in d
    ensures Content(d - {k}, s) == imap x | x in Content(d, s) && !(k <= x < k + d[k].size) :: Content(d, s)[x]
  {
    hide Ordered, Mapped;
    forall x: nat ensures Mapped(d - {k}, x) <==> Mapped(d, x) && !(k <= x < k + d[k].size)
                  ensures Mapped(d - {k}, x) ==> Locate(d - {k}, x) == Locate(d, x) {
      RemovedAt(d, k, x);
    }
  }

  // ---------------------------------------------------------------- wasted space

  function Total(f: FreeList): nat
    decreases |f|
  {
    if f == map[] then 0
    else
      var k := Greatest(f.Keys);
      assert (f - {k}).Keys == f.Keys - {k};
      f[k] + Total(f - {k})
  }

  /** Start of the last free extent. */
  function EndOfData(f: FreeList): nat
    requires f != map[]
  {
    Greatest(f.Keys)
  }

  /** Free bytes below the last free extent. */
  function WastedSpace(f: FreeList): nat
    requires f != map[]
  {
    Total(f - {EndOfData(f)})
  }

  /** The free bytes below `hi`. */
  ghost function FreeBelow(f: FreeList, hi: nat): set<nat> {
    set p: nat | p < hi && Free(f, p)
  }

  ghost function BytesOf(b: Block): set<nat> {
    set p: nat | p < b.End() && b.Has(p)
  }

  lemma {:induction false} BytesOfSize(b: Block)
    ensures |BytesOf(b)| == b.size
    decreases b.size
  {
    if b.size == 0 {
      assert BytesOf(b) == {};
    } else {
      var c := Block(b.location, b.size - 1);
      BytesOfSize(c);
      assert b.Has(c.End()) && forall p: nat :: b.Has(p) <==> c.Has(p) || p == c.End();
      assert BytesOf(b) == BytesOf(c) + {c.End()};
    }
  }

  /** Making a block of bytes free adds its size to the number of free bytes. */
  lemma MoreBytes(f: FreeList, b: Block, g: FreeList, hi: nat)
    requires b.End() <= hi && forall p: nat :: b.Has(p) ==> !Free(f, p)
    requires forall p: nat :: Free(g, p) <==> Free(f, p) || b.Has(p)
    ensures |FreeBelow(g, hi)| == |FreeBelow(f, hi)| + b.size
  {
    hide Free;
    BytesOfSize(b);
    var x, y, z := FreeBelow(f, hi), BytesOf(b), FreeBelow(g, hi);
    assert z == x + y;
    assert x !! y;
  }

  /** The sizes of the extents add up to the number of free bytes. */
  lemma {:induction false} TotalBytes(f: FreeList, hi: nat)
    requires Canonical(f) && Within(f, 0, hi)
    ensures Total(f) == |FreeBelow(f, hi)|
    decreases |f|
  {
    if f == map[] {
      assert FreeBelow(f, hi) == {};
    } else {
      var k := Greatest(f.Keys);
      assert (f - {k}).Keys == f.Keys - {k};
      RemoveExtent(f, k);
      TotalBytes(f - {k}, hi);
      MoreBytes(f - {k}, Block(k, f[k]), f, hi);
    }
  }

  /** The wasted space is the number of free bytes below the end of the data. */
  lemma WastedBytes(f: FreeList)
    requires Canonical(f) && f != map[]
    ensures WastedSpace(f) == |FreeBelow(f, EndOfData(f))|
  {
    var t := EndOfData(f);
    RemoveExtent(f, t);
    TotalBytes(f - {t}, t);
    hide Free, Canonical;
    assert FreeBelow(f - {t}, t) == FreeBelow(f, t);
  }

  /** The threshold of the compaction is where the data would end if no byte below it were free: the number of bytes of
      the region, and before it, that are not free. */
  lemma ThresholdIs(f: FreeList, hi: nat)
    requires Canonical(f) && f != map[] && Within(f, 0, hi) && EndOfData(f) + f[EndOfData(f)] == hi
    ensures EndOfData(f) - WastedSpace(f) == hi - |FreeBelow(f, hi)|
  {
    var t := EndOfData(f);
    assert (f - {t}).Keys == f.Keys - {t};
    TotalBytes(f, hi);
  }

  /** A move keeps the number of free bytes. */
  lemma MovedBytes(f: FreeList, b: Block, f1: FreeList, block: Block, f': FreeList, hi: nat)
    requires b.size == block.size && b.End() <= hi && block.End() <= hi
    requires forall p: nat :: b.Has(p) ==> Free(f, p)
    requires forall p: nat :: Free(f1, p) <==> Free(f, p) && !b.Has(p)
    requires forall p: nat :: block.Has(p) ==> !Free(f1, p)
    requires forall p: nat :: Free(f', p) <==> Free(f1, p) || block.Has(p)
    ensures |FreeBelow(f', hi)| == |FreeBelow(f, hi)|
  {
    hide Free;
    MoreBytes(f1, b, f, hi);
    MoreBytes(f1, block, f', hi);
  }

  lemma {:induction false} TotalBound(f: FreeList, lo: nat, hi: nat)
    requires Canonical(f) && Within(f, lo, hi) && lo <= hi
    ensures Total(f) <= hi - lo
    decreases |f|
  {
    if f != map[] {
      var k := Greatest(f.Keys);
      assert (f - {k}).Keys == f.Keys - {k};
      RemoveExtent(f, k);
      TotalBound(f - {k}, lo, k);
    }
  }

  /** The threshold of the compaction does not underflow. */
  lemma WastedBelowEnd(f: FreeList, lo: nat, hi: nat)
    requires Canonical(f) && Within(f, lo, hi) && f != map[]
    ensures lo + WastedSpace(f) <= EndOfData(f)
  {
    var k := EndOfData(f);
    RemoveExtent(f, k);
    TotalBound(f - {k}, lo, k);
  }
}
