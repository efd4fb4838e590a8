/**
 `Snapshot`: the object that folds a stream of calls into a compact snapshot file.
 */
module Snapshots {
  import opened Wrappers
  import opened OrderedKeys
  import opened FreeLists
  import opened Extents
  import opened EncodeWrite
  import opened FileTable
  import opened SnapshotSpec
  import T = Truncate
  import C = Compact

  /** Serialised size of the snapshot header: a tag, an offset, two times and a checksum. */
  const HEADER_SIZE: nat := 40

  datatype Header = Header(ftOffset: nat, checksum: nat)

  /** The serialisation of the header and of the file table, and the checksum of the body. */
  datatype Codec = Codec(
    encodeHeader: Header -> seq<Byte>,
    decodeHeader: seq<Byte> -> Option<Header>,
    encodeTable: Files -> seq<Byte>,
    decodeTable: seq<Byte> -> Option<Files>,
    checksum: seq<Byte> -> nat)
  {
    ghost predicate Lawful() {
      && (forall b :: checksum(b) < 0x1_0000_0000)
      && (forall h: Header :: h.ftOffset <= OFF_MAX && h.checksum < 0x1_0000_0000 ==>
            |encodeHeader(h)| == HEADER_SIZE && decodeHeader(encodeHeader(h)) == Some(h))
      && (forall t :: decodeTable(encodeTable(t)) == Some(t))
    }
  }

  /** What `compact` leads to: the free list after it, and the files that lose their front. */
  datatype Plan = Plan(freeList: FreeList, lost: set<Path>)

  function WithLost(plan: Option<Plan>, lost: set<Path>): Option<Plan> {
    match plan
    case None => None
    case Some(p) => Some(Plan(p.freeList, p.lost + lost))
  }

  /** The plan for the files of `order`, from the free list and the table before; `None` is an overflow. */
  function PlanFor(f: FreeList, files: Files, order: seq<Path>): Option<Plan>
    decreases |order|
  {
    if order == [] || f == map[] then Some(Plan(f, {}))
    else if order[0] !in files || files[order[0]].data.None? then PlanFor(f, files, order[1..])
    else
      var wastedSpace, endOfData := C.WastedSpace(f), C.EndOfData(f);
      if 20 * wastedSpace < endOfData then Some(Plan(f, {}))
      else
        match C.Outline(f, files[order[0]].data.value, endOfData - wastedSpace)
        case None => None
        case Some(pass) =>
          WithLost(PlanFor(pass.freeList, files, order[1..]), if C.Loses(pass.run) then {order[0]} else {})
  }

  lemma LostTogether(plan: Option<Plan>, a: set<Path>, b: set<Path>)
    ensures WithLost(plan, {}) == plan && WithLost(WithLost(plan, a), b) == WithLost(plan, b + a)
  {
    if plan.Some? {
      assert plan.value.lost + {} == plan.value.lost;
      assert plan.value.lost + a + b == plan.value.lost + (b + a);
    }
  }

  /** The plan from file `i` on, when `lost` were lost before. */
  lemma PlanStep(f: FreeList, files: Files, order: seq<Path>, i: nat, lost: set<Path>)
    requires i < |order| && f != map[] && order[i] in files
    ensures
      var plan, data := WithLost(PlanFor(f, files, order[i..]), lost), files[order[i]].data;
      if data.None? then plan == WithLost(PlanFor(f, files, order[i + 1..]), lost)
      else if 20 * C.WastedSpace(f) < C.EndOfData(f) then plan == Some(Plan(f, lost))
      else
        match C.Outline(f, data.value, C.EndOfData(f) - C.WastedSpace(f))
        case None => plan == None
        case Some(pass) =>
          var lost' := if C.Loses(pass.run) then lost + {order[i]} else lost;
          plan == WithLost(PlanFor(pass.freeList, files, order[i + 1..]), lost')
  {
    hide C.Outline, C.Loses, C.WastedSpace, C.EndOfData;
    assert order[i..][0] == order[i] && order[i..][1..] == order[i + 1..];
    assert {} + lost == lost == lost + {};
    if files[order[i]].data.Some? {
      var pass := C.Outline(f, files[order[i]].data.value, C.EndOfData(f) - C.WastedSpace(f));
      if pass.Some? {
        var front := if C.Loses(pass.value.run) then {order[i]} else {};
        LostTogether(PlanFor(pass.value.freeList, files, order[i + 1..]), front, lost);
      }
    }
  }

  lemma NothingLeft(f: FreeList, files: Files, order: seq<Path>, lost: set<Path>)
    ensures WithLost(PlanFor(f, files, order[|order|..]), lost) == Some(Plan(f, lost))
  {
    assert {} + lost == lost;
  }

  /** Only a file that has a block at offset 0 can lose its front. */
  lemma {:induction false} LostHasFront(f: FreeList, files: Files, order: seq<Path>, q: Path)
    requires forall r | r in files && files[r].data.Some? :: Ordered(files[r].data.value)
    ensures var plan := PlanFor(f, files, order);
            plan.Some? && q in plan.value.lost ==> q in order && 0 in DataOf(files, q)
    decreases |order|
  {
    hide C.Outline, C.Loses, C.WastedSpace, C.EndOfData, C.FitsBelow;
    if order != [] && f != map[] {
      LostHasFront(f, files, order[1..], q);
      if order[0] in files && files[order[0]].data.Some? {
        var d := files[order[0]].data.value;
        var threshold := C.EndOfData(f) - C.WastedSpace(f);
        C.FrontMoves(f, d, threshold);
        var pass := C.Outline(f, d, threshold);
        if pass.Some? { LostHasFront(pass.value.freeList, files, order[1..], q); }
      }
    }
  }

  /** The state of a snapshot at some time. */
  datatype Storage = Storage(freeList: FreeList, files: Files, serialised: seq<Byte>) {
    ghost predicate Sound(top: nat) {
      FilesSound(freeList, files, serialised, HEADER_SIZE, top) && Narrow(freeList) && AllOrdered(files)
    }
  }

  /** The plan for one file with blocks, when 5% or more are wasted. */
  lemma PlanOne(f: FreeList, files: Files, q: Path)
    requires f != map[] && q in files && files[q].data.Some? && 20 * C.WastedSpace(f) >= C.EndOfData(f)
    ensures var pass := C.Outline(f, files[q].data.value, C.EndOfData(f) - C.WastedSpace(f));
      PlanFor(f, files, [q]) ==
        if pass.None? then None
        else Some(Plan(pass.value.freeList, if C.Loses(pass.value.run) then {q} else {}))
  {
    hide C.Outline, C.WastedSpace, C.EndOfData, C.Loses;
    PlanStep(f, files, [q], 0, {});
    assert [q][0..] == [q] && [q][1..] == [];
    LostTogether(PlanFor(f, files, [q]), {}, {});
  }

  /** When 5% or more are wasted, a block that alone lies above the threshold moves to the first free extent below it
      that holds it, and its file loses it if it is at offset 0. */
  lemma WasteIsUsed(f: FreeList, files: Files, q: Path, k: nat)
    requires Canonical(f) && f != map[] && 0 !in f && 20 * |C.FreeBelow(f, C.EndOfData(f))| >= C.EndOfData(f)
    requires k in DataOf(files, q) && DataOf(files, q)[k].size > 0
    requires var d, end := DataOf(files, q), C.EndOfData(f) - |C.FreeBelow(f, C.EndOfData(f))|;
      d[k].location > end && forall j | j in d && j != k :: d[j].location <= end
    requires exists i :: i in f && i <= DataOf(files, q)[k].location && f[i] >= DataOf(files, q)[k].size
    ensures var block, plan := DataOf(files, q)[k], PlanFor(f, files, [q]);
      var place := Choose(f, block.size, None);
      && place.Some? && place.value <= block.location
      && (plan.None? <==> Overflows(Carved(f, Block(place.value, block.size)), block))
      && (plan.Some? ==>
           && plan.value.freeList == Coalesced(Carved(f, Block(place.value, block.size)), block)
           && plan.value.lost == if k == 0 then {q} else {})
  {
    hide C.Outline, C.WastedSpace, C.EndOfData, C.FreeBelow, Canonical, Overflows, Coalesced, Carved, PlanFor, Choose;
    C.WastedBytes(f);
    C.OneOutline(f, DataOf(files, q), C.EndOfData(f) - C.WastedSpace(f), k);
    PlanOne(f, files, q);
  }

  class Snapshot {
    var freeList: FreeList
    var files: Files
    var serialised: seq<Byte>
    /** End of the region that the free list manages. */
    ghost var top: nat

    ghost predicate Valid()
      reads this
    {
      FilesSound(freeList, files, serialised, HEADER_SIZE, top) && Narrow(freeList)
    }

    ghost function Contents(): Spec
      reads this
    {
      Views(files, serialised)
    }

    /** Free extents and file extents tile [HEADER_SIZE, top): nothing has leaked. */
    ghost predicate Tiled()
      reads this
    {
      Tiles(freeList, files, HEADER_SIZE, top)
    }

    /** The snapshot is new: it was not opened from a file. No 64-bit sum can overflow then. */
    ghost predicate Bounded()
      reads this
    {
      top == HEADER_SIZE + USIZE_MAX
    }

    ghost predicate AllPacked()
      reads this
    {
      forall q | q in files && files[q].data.Some? :: Packed(files[q].data.value)
    }

    /** Where the snapshot file ends, or its header. */
    ghost function Length(): nat
      reads this
    {
      Max(|serialised|, HEADER_SIZE)
    }

    constructor New(toFile: seq<Byte>)
      requires |toFile| <= OFF_MAX
      ensures Valid() && Tiled() && Bounded() && AllPacked()
      ensures Contents() == map[]
      ensures freeList == map[HEADER_SIZE := USIZE_MAX] && files == map[] && serialised == toFile
    {
      freeList := map[HEADER_SIZE := USIZE_MAX];
      files := map[];
      serialised := toFile;
      top := HEADER_SIZE + USIZE_MAX;
      new;
      NewFreeList();
    }

    static lemma NewFreeList()
      ensures Canonical(map[HEADER_SIZE := USIZE_MAX])
      ensures forall p: nat :: Free(map[HEADER_SIZE := USIZE_MAX], p) <==> HEADER_SIZE <= p < HEADER_SIZE + USIZE_MAX
    {
      var f := map[HEADER_SIZE := USIZE_MAX];
      assert HEADER_SIZE in f;
    }

    // -------------------------------------------------------------- write

    /** What a step on the extent map of `path` means for the object. */
    lemma Lifted(path: Path, f': FreeList, d': DataList, s': seq<Byte>)
      requires Valid()
      requires Replaced(freeList, DataOf(files, path), serialised, f', d', s', HEADER_SIZE, top)
      ensures var files' := files[path := File(Some(d'))];
              && FilesSound(f', files', s', HEADER_SIZE, top)
              && Views(files', s') == Contents()[path := Data(Content(d', s'))]
              && (Conserves(freeList, DataOf(files, path), f', d') ==>
                   (Tiles(f', files', HEADER_SIZE, top) <==> Tiled()))
              && (!Conserves(freeList, DataOf(files, path), f', d') ==> !Tiles(f', files', HEADER_SIZE, top))
    {
      hide FilesSound, Views, Tiles, Content, Sound, Framed, Free, Owned;
      LiftSound(freeList, files, serialised, f', d', s', HEADER_SIZE, top, path);
      LiftViews(freeList, files, serialised, f', d', s', HEADER_SIZE, top, path);
      if Conserves(freeList, DataOf(files, path), f', d') {
        LiftTiles(freeList, files, f', d', HEADER_SIZE, top, path);
      } else {
        LiftLeak(freeList, files, serialised, f', d', s', HEADER_SIZE, top, path);
      }
    }

    /** The extent map of `path` is `d'` now; that does not keep the extents in order. */
    static lemma Unsound(f: FreeList, files: Files, s: seq<Byte>, path: Path, d': DataList, hi: nat)
      requires !Ordered(d')
      ensures !FilesSound(f, files[path := File(Some(d'))], s, HEADER_SIZE, hi)
      ensures Views(files[path := File(Some(d'))], s) == Views(files, s)[path := Data(Content(d', s))]
    {
      hide Content;
      var files' := files[path := File(Some(d'))];
      assert files'[path].data.value == d';
    }

    /** An empty write that no block absorbs leaves the extents of the file out of order, and loses data when it
        lies between two large blocks; every other write is the overlay it stands for. */
    method Write(path: Path, offset: nat, buf: seq<Byte>) returns (r: Outcome)
      requires Valid()
      modifies this
      ensures top == old(top)
      ensures r == Panicked <==> path in old(files) && old(files)[path].data.None?
      ensures old(Bounded()) && |buf| <= OFF_MAX ==> r != Overflow
      ensures r != Panicked ==> r == WriteOutcome(old(freeList), old(DataOf(files, path)), offset, offset + |buf|)
      ensures Room(old(serialised), HEADER_SIZE, Reach(old(DataOf(files, path)), offset + |buf|)) ==>
                r == Done || r == Panicked || r == Overflow
      ensures r == Done ==>
                Grew(old(serialised), serialised, HEADER_SIZE, Reach(old(DataOf(files, path)), offset + |buf|))
      ensures r == Done ==> files == old(files)[path := File(Some(DataOf(files, path)))]
      ensures r == Done ==> (Valid() <==> Absorbed(old(DataOf(files, path)), offset, buf))
      ensures r == Done && Absorbed(old(DataOf(files, path)), offset, buf) ==>
                && (Tiled() <==> old(Tiled())) && (old(AllPacked()) ==> AllPacked())
                && Effect(old(Contents()), Call.Write(path, offset, buf)) == Some(Contents())
      ensures r == Done && !Absorbed(old(DataOf(files, path)), offset, buf) ==>
                && path in Contents() && Contents() == old(Contents())[path := Contents()[path]]
                && (Contents()[path] == Opened(old(Contents()), path) <==>
                     !BetweenLarge(old(DataOf(files, path)), offset))
      ensures r == Done && buf != [] ==>
                Rewritten(old(freeList), old(DataOf(files, path)), offset, offset + |buf|, DataOf(files, path))
      ensures r == Done && buf != [] && Clear(old(DataOf(files, path)), offset, offset + |buf|) ==>
                Placed(old(freeList), old(DataOf(files, path)), offset, |buf|, freeList, DataOf(files, path))
    {
      hide FilesSound, Views, Sound, Framed, Free, Owned, Tiles, Content, Overlay, Reach, Grew, Room, BetweenLarge,
           Touched, Placed, Clear, Narrow, WriteOutcome, Rewritten;
      if path in files && files[path].data.None? {
        return Panicked;
      }
      var d := DataOf(files, path);
      FileSound(freeList, files, serialised, HEADER_SIZE, top, path);
      OpenedView(files, serialised, path);
      var f', d', s';
      r, f', d', s' := EncodeWrite.EncodeWrite(freeList, d, serialised, offset, buf, HEADER_SIZE, top);
      if r != Done {
        return;
      }
      if Absorbed(d, offset, buf) {
        Lifted(path, f', d', s');
      } else {
        Unsound(freeList, files, serialised, path, d', top);
        EmptyOverlay(Content(d, serialised), offset);
      }
      EmptyOverlay(Content(d, serialised), offset);
      freeList, files, serialised := f', files[path := File(Some(d'))], s';
    }

    // -------------------------------------------------------------- truncate, unlink, rename

    method Truncate(path: Path, size: nat) returns (r: Outcome)
      requires Valid()
      modifies this
      ensures top == old(top) && serialised == old(serialised)
      ensures r == if TooWide(old(freeList), T.Beyond(old(DataOf(files, path)), size)) then Overflow else Done
      ensures old(Bounded()) ==> r == Done
      ensures r == Done ==> Valid() && (Tiled() <==> old(Tiled()))
      ensures r == Done ==> Effect(old(Contents()), Call.Truncate(path, size)) == Some(Contents())
      ensures r == Done ==> T.CutAt(old(DataOf(files, path)), DataOf(files, path), size)
      ensures r == Done ==>
                forall p: nat :: Free(freeList, p) <==>
                  old(Free(freeList, p)) || p in T.Beyond(old(DataOf(files, path)), size)
      ensures forall q | q != path :: DataOf(files, q) == old(DataOf(files, q))
    {
      hide FilesSound, Views, Sound, Framed, Free, Owned, Tiles, Content, Clip, TooWide, T.Beyond, Narrow;
      OpenedView(files, serialised, path);
      if path in files && files[path].data.None? {
        T.NothingBeyond(freeList, size);
        T.CutNone(map[], size);
        assert Contents()[path := NoData] == Contents();
        return Done;
      }
      var d := DataOf(files, path);
      FileSound(freeList, files, serialised, HEADER_SIZE, top, path);
      var f', d';
      r, f', d' := T.TruncateFile(freeList, d, serialised, size, HEADER_SIZE, top);
      if r != Done {
        return;
      }
      Lifted(path, f', d', serialised);
      freeList, files := f', files[path := File(Some(d'))];
    }

    /** Deallocates every block of the entry at `path`, which is left without blocks. */
    method FreeBlocks(path: Path) returns (r: Outcome)
      requires Valid() && path in files
      modifies this
      ensures top == old(top) && serialised == old(serialised)
      ensures r == if TooWide(old(freeList), T.Beyond(old(DataOf(files, path)), 0)) then Overflow else Done
      ensures old(Bounded()) ==> r == Done
      ensures r == Done ==>
                forall p: nat :: Free(freeList, p) <==>
                  old(Free(freeList, p)) || p in T.Beyond(old(DataOf(files, path)), 0)
      ensures r == Done ==> Valid() && Idle(files, path) && (Tiled() <==> old(Tiled()))
      ensures r == Done ==>
                files.Keys == old(files).Keys && forall q | q in files && q != path :: files[q] == old(files)[q]
      ensures r == Done ==> Contents() - {path} == old(Contents()) - {path}
    {
      hide FilesSound, Views, Tiles, Content, Disjoint, Sound, Framed, Free, Owned, Without, Idle, TooWide, T.Beyond,
           BytesAt, Checked, Narrow;
      if files[path].data.None? {
        T.NothingBeyond(freeList, 0);
        NoDataIdle(files, path);
        return Done;
      }
      var d := files[path].data.value;
      FileSound(freeList, files, serialised, HEADER_SIZE, top, path);
      SoundIsDisjoint(freeList, d, serialised, HEADER_SIZE, top);
      T.BeyondZero(d, KeysFrom(d, 0));
      var f', d';
      r, f', d' := ReleaseAll(freeList, d, KeysFrom(d, 0), HEADER_SIZE, top);
      if r != Done {
        return;
      }
      Released(freeList, d, serialised, f', d', HEADER_SIZE, top);
      Lifted(path, f', d', serialised);
      AllRemoved(d, KeysFrom(d, 0), d');
      EmptyIdle(files, path);
      CheckedNarrow(freeList, f');
      freeList, files := f', files[path := File(Some(d'))];
    }

    static lemma AllRemoved(d: DataList, keys: seq<nat>, d': DataList)
      requires Without(d, keys, d') && forall k | k in d :: k in keys
      ensures d' == map[]
    {
    }

    static lemma EmptyIdle(files: Files, path: Path)
      ensures Idle(files[path := File(Some(map[]))], path)
    {
      EmptyData([]);
    }

    static lemma NoDataIdle(files: Files, path: Path)
      requires path in files && files[path].data.None?
      ensures Idle(files, path)
    {
    }

    method Unlink(path: Path) returns (r: Outcome)
      requires Valid()
      modifies this
      ensures top == old(top) && serialised == old(serialised)
      ensures r == if TooWide(old(freeList), T.Beyond(old(DataOf(files, path)), 0)) then Overflow else Done
      ensures old(Bounded()) ==> r == Done
      ensures r == Done ==>
                forall p: nat :: Free(freeList, p) <==>
                  old(Free(freeList, p)) || p in T.Beyond(old(DataOf(files, path)), 0)
      ensures r == Done ==> Valid() && (Tiled() <==> old(Tiled())) && files == old(files) - {path}
      ensures r == Done ==> Effect(old(Contents()), Call.Unlink(path)) == Some(Contents())
      ensures r == Done && old(AllPacked()) ==> AllPacked()
    {
      hide FilesSound, ViewOf, Tiles, Idle, Packed, TooWide, T.Beyond, Free, Narrow;
      if path !in files {
        T.NothingBeyond(freeList, 0);
        assert Contents() - {path} == Contents();
        return Done;
      }
      r := FreeBlocks(path);
      if r != Done {
        return;
      }
      RemoveIdle(freeList, files, serialised, HEADER_SIZE, top, path);
      files := files - {path};
    }

    method Rename(from: Path, to: Path) returns (r: Outcome)
      requires Valid()
      modifies this
      ensures top == old(top) && serialised == old(serialised)
      ensures r == if from != to && TooWide(old(freeList), T.Beyond(old(DataOf(files, to)), 0)) then Overflow else Done
      ensures old(Bounded()) ==> r == Done
      ensures r == Done ==> Valid() && (Tiled() <==> old(Tiled()))
      ensures r == Done ==> Effect(old(Contents()), Call.Rename(from, to)) == Some(Contents())
      ensures r == Done ==>
                forall p: nat :: Free(freeList, p) <==>
                  old(Free(freeList, p)) || (from != to && p in T.Beyond(old(DataOf(files, to)), 0))
      ensures r == Done ==>
                files == (old(files) - {from})[to := if from in old(files) then old(files)[from] else File(Some(map[]))]
      ensures r == Done && old(AllPacked()) ==> AllPacked()
    {
      hide FilesSound, Views, Tiles, Idle, TooWide, T.Beyond, Free, Narrow, Packed, DataOf;
      ghost var m := Contents();
      OpenedData(files, from);
      Open(from);
      ghost var m1, table := Contents(), files;
      r := Done;
      if from != to {
        r := Vacate(to);
        if r != Done {
          return;
        }
      }
      ghost var m2 := Contents();
      assert from != to ==> from in m1 - {to} && m2 - {to} == m1 - {to};
      MoveEntry(freeList, files, serialised, HEADER_SIZE, top, from, to);
      RenamedViews(m, m2, from, to);
      RenamedOthers(table, files, from, to);
      assert (files - {from})[to := files[from]] == (table - {from})[to := table[from]];
      hide Contents;
      files := (files - {from})[to := files[from]];
    }

    /** Deallocates the blocks of the entry at `path`, if there is one. */
    method Vacate(path: Path) returns (r: Outcome)
      requires Valid()
      modifies this
      ensures top == old(top) && serialised == old(serialised)
      ensures r == if TooWide(old(freeList), T.Beyond(old(DataOf(files, path)), 0)) then Overflow else Done
      ensures old(Bounded()) ==> r == Done
      ensures r == Done ==>
                forall p: nat :: Free(freeList, p) <==>
                  old(Free(freeList, p)) || p in T.Beyond(old(DataOf(files, path)), 0)
      ensures r == Done ==> Valid() && Idle(files, path) && (Tiled() <==> old(Tiled()))
      ensures r == Done ==>
                files.Keys == old(files).Keys && forall q | q in files && q != path :: files[q] == old(files)[q]
      ensures r == Done ==> Contents() - {path} == old(Contents()) - {path}
    {
      hide FilesSound, Views, Tiles, Idle, TooWide, T.Beyond, Free, Narrow, DataOf;
      if path in files {
        r := FreeBlocks(path);
      } else {
        AbsentIdle(files, path);
        T.NothingBeyond(freeList, 0);
        r := Done;
      }
    }

    static lemma OpenedData(files: Files, path: Path)
      ensures path !in files ==> forall q :: DataOf(files[path := File(Some(map[]))], q) == DataOf(files, q)
    {
    }

    static lemma RenamedOthers(files: Files, files1: Files, from: Path, to: Path)
      requires from in files1 && files1.Keys == files.Keys && forall q | q in files && q != to :: files1[q] == files[q]
      ensures forall q | q != from && q != to :: DataOf((files1 - {from})[to := files1[from]], q) == DataOf(files, q)
      ensures from != to && (forall q | q in files && files[q].data.Some? :: Packed(files[q].data.value)) ==>
                forall q | q in files1 - {from} && q != to && files1[q].data.Some? :: Packed(files1[q].data.value)
    {
      hide Packed;
    }

    static lemma RenamedViews(m: Spec, m2: Spec, from: Path, to: Path)
      requires if from == to then m2 == m[from := Opened(m, from)] else m2 - {to} == m[from := Opened(m, from)] - {to}
      ensures from in m2 && (m2 - {from})[to := m2[from]] == (m - {from})[to := Opened(m, from)]
    {
      var m1 := m[from := Opened(m, from)];
      if from != to {
        assert from in m1 - {to} && (m1 - {to})[from] == m1[from];
        forall q | q != from && q != to ensures (q in m2 <==> q in m) && (q in m ==> m2[q] == m[q]) {
          assert q in m2 <==> q in m2 - {to};
        }
      }
    }

    static lemma AbsentIdle(files: Files, path: Path)
      requires path !in files
      ensures Idle(files, path) && DataOf(files, path) == map[]
    {
    }

    // -------------------------------------------------------------- calls that only touch the table

    /** mknod, mkdir and symlink insert an entry and assert that there was none. */
    method Insert(path: Path, data: Option<DataList>) returns (r: Outcome)
      requires Valid() && (data == None || data == Some(map[]))
      modifies this
      ensures top == old(top) && serialised == old(serialised)
      ensures r == if path in old(files) then Panicked else Done
      ensures r == Done ==> Valid() && (Tiled() <==> old(Tiled())) && (old(AllPacked()) ==> AllPacked())
      ensures r == Done ==> Contents() == old(Contents())[path := if data.None? then NoData else Data(imap[])]
      ensures freeList == old(freeList) && files == if r == Done then old(files)[path := File(data)] else old(files)
    {
      hide FilesSound, Views, Tiles, Idle, Narrow;
      if path in files {
        return Panicked;
      }
      AbsentIdle(files, path);
      PutIdle(freeList, files, serialised, HEADER_SIZE, top, path, data);
      files := files[path := File(data)];
      r := Done;
    }

    /** `get_or_open`, for calls that then change only metadata. */
    method Open(path: Path)
      requires Valid()
      modifies this
      ensures top == old(top) && serialised == old(serialised)
      ensures Valid() && (Tiled() <==> old(Tiled())) && (old(AllPacked()) ==> AllPacked())
      ensures Effect(old(Contents()), Metadata(path)) == Some(Contents())
      ensures freeList == old(freeList)
      ensures files == if path in old(files) then old(files) else old(files)[path := File(Some(map[]))]
    {
      hide FilesSound, Views, Tiles;
      OpenedView(files, serialised, path);
      if path !in files {
        var r := Insert(path, Some(map[]));
      } else {
        assert Contents()[path := Contents()[path]] == Contents();
      }
    }

    /** create replaces any entry without deallocating its blocks. */
    method Create(path: Path)
      requires Valid()
      modifies this
      ensures top == old(top) && serialised == old(serialised)
      ensures Valid() && (old(AllPacked()) ==> AllPacked())
      ensures Tiled() <==> old(Tiled()) && Empty(Opened(old(Contents()), path))
      ensures Effect(old(Contents()), Call.Create(path)) == Some(Contents())
      ensures freeList == old(freeList) && files == old(files)[path := File(Some(map[]))]
    {
      hide FilesSound, Tiles, Idle, Narrow;
      ForgetEntry(freeList, files, serialised, HEADER_SIZE, top, path);
      if path in files {
        IdleIffEmpty(freeList, files, serialised, HEADER_SIZE, top, path);
      } else {
        AbsentIdle(files, path);
      }
      files := files[path := File(Some(map[]))];
    }

    /** link copies the extent map of `from`, so the two entries share blocks. */
    method Link(from: Path, to: Path) returns (r: Outcome)
      requires Valid()
      modifies this
      ensures top == old(top) && serialised == old(serialised)
      ensures r == if Effect(old(Contents()), Call.Link(from, to)).None? then Panicked else Done
      ensures r == Done ==> Effect(old(Contents()), Call.Link(from, to)) == Some(Contents())
      ensures freeList == old(freeList)
      ensures files == if r == Done then old(files)[to := File(Some(old(DataOf(files, from))))] else old(files)
      ensures r == Done ==> (Valid() <==> old(DataOf(files, from)) == map[])
      ensures r == Done ==> (old(DataOf(files, from)) == map[] <==> Empty(Opened(old(Contents()), from)))
      ensures r == Done ==> (Tiled() <==> old(Tiled())) && (old(AllPacked()) ==> AllPacked())
    {
      hide FilesSound, Tiles, Idle, Narrow;
      if from in files {
        IdleIffEmpty(freeList, files, serialised, HEADER_SIZE, top, from);
        if files[from].data.None? {
          return Panicked;
        }
      }
      if to in files {
        return Panicked;
      }
      if from in files {
        SharedEntry(freeList, files, serialised, HEADER_SIZE, top, from, to);
        files := files[to := files[from]];
        r := Done;
      } else {
        r := Insert(to, Some(map[]));
      }
    }

    // -------------------------------------------------------------- merge_from

    /** The bytes that a call other than a write gives back. */
    static ghost function GivenBack(files: Files, call: Call): iset<nat> {
      match call
      case Truncate(path, size) => T.Beyond(DataOf(files, path), size)
      case Unlink(path) => T.Beyond(DataOf(files, path), 0)
      case Rename(from, to) => if from == to then iset{} else T.Beyond(DataOf(files, to), 0)
      case _ => iset{}
    }

    /** What a call that does not panic comes to, from the free list and the table before. */
    static ghost function CallOutcome(f: FreeList, files: Files, call: Call): Outcome
      requires AllOrdered(files)
    {
      if call.Write? then WriteOutcome(f, DataOf(files, call.path), call.offset, call.offset + |call.buf|)
      else if TooWide(f, GivenBack(files, call)) then Overflow
      else Done
    }

    static lemma NothingGivenBack(f: FreeList)
      ensures !TooWide(f, iset{})
    {
    }

    /** A call other than a write overflows exactly when it would leave everything free from the byte before the
        place where the snapshot was opened: when the end of the data would fall below where it was then. */
    lemma OverflowIff(call: Call)
      requires Valid() && !call.Write?
      ensures AllOrdered(files)
      ensures CallOutcome(freeList, files, call) == Overflow <==> TailFree(freeList, GivenBack(files, call), top)
    {
      hide FilesSound, TooWide, TailFree, Narrow, Free;
      SoundAllOrdered(freeList, files, serialised, HEADER_SIZE, top);
      var path := if call.Rename? then call.to else if call.Truncate? || call.Unlink? then call.path else "";
      FileSound(freeList, files, serialised, HEADER_SIZE, top, path);
      assert forall p: nat | p in GivenBack(files, call) :: Owned(DataOf(files, path), p);
      TooWideIff(freeList, DataOf(files, path), serialised, HEADER_SIZE, top, GivenBack(files, call));
    }

    /** The byte before the place where the snapshot was opened. */
    ghost function LastByte(): int
      reads this
    {
      top - USIZE_MAX - 1
    }

    /** File `q` holds that byte, and no call names it. */
    ghost predicate HoldsOpen(q: Path, calls: seq<Call>)
      reads this
    {
      LastByte() >= 0 && Owned(DataOf(files, q), LastByte()) && Unnamed(q, calls)
    }

    /** The blocks of files that no call names are the same. */
    static ghost predicate Untouched(files: Files, files': Files, calls: seq<Call>) {
      forall q | Unnamed(q, calls) :: DataOf(files', q) == DataOf(files, q)
    }

    static ghost predicate Unnamed(q: Path, calls: seq<Call>) {
      forall c | c in calls :: !Names(c, q)
    }

    static lemma UntouchedNone(files: Files, calls: seq<Call>)
      ensures Untouched(files, files, calls)
    {
    }

    static lemma UntouchedNext(files: Files, files1: Files, files2: Files, calls: seq<Call>, call: Call)
      requires Untouched(files, files1, calls) && call in calls
      requires forall q | !Names(call, q) :: DataOf(files2, q) == DataOf(files1, q)
      ensures Untouched(files, files2, calls)
    {
      hide DataOf, Names;
    }

    /** While file `q` holds the byte before the place where the snapshot was opened, no call on other paths
        overflows. */
    lemma HeldOpen(q: Path, call: Call)
      requires Valid() && LastByte() >= 0 && Owned(DataOf(files, q), LastByte()) && !Names(call, q)
      requires call.Write? ==> |call.buf| <= OFF_MAX
      ensures AllOrdered(files) && CallOutcome(freeList, files, call) != Overflow
    {
      var p: nat := LastByte();
      SoundAllOrdered(freeList, files, serialised, HEADER_SIZE, top);
      assert Owns(files, q, p) && !Free(freeList, p);
      assert forall r | r != q :: !Owned(DataOf(files, r), p) by { NotShared(q, p); }
      hide FilesSound, Free, Owned, Narrow, Owns, AllOrdered;
      if call.Write? {
        HeldWrite(call, p);
      } else {
        OverflowIff(call);
        assert p !in GivenBack(files, call) by { GivenBackOwned(files, call, p); }
      }
    }

    lemma HeldInRun(q: Path, before: Files, calls: seq<Call>, call: Call)
      requires Valid() && Untouched(before, files, calls) && Unnamed(q, calls) && call in calls
      requires LastByte() >= 0 && Owned(DataOf(before, q), LastByte()) && (call.Write? ==> |call.buf| <= OFF_MAX)
      ensures AllOrdered(files) && CallOutcome(freeList, files, call) != Overflow
    {
      hide FilesSound, Narrow, Owned, DataOf, Names, CallOutcome, AllOrdered;
      HeldOpen(q, call);
    }

    lemma NotShared(q: Path, p: nat)
      requires Valid() && Owns(files, q, p)
      ensures forall r | r != q :: !Owned(DataOf(files, r), p)
    {
      EmptyData(serialised);
      assert forall r | r != q && Owned(DataOf(files, r), p) :: Owns(files, r, p);
    }

    static lemma GivenBackOwned(files: Files, call: Call, p: nat)
      ensures p in GivenBack(files, call) ==> exists q :: Names(call, q) && Owned(DataOf(files, q), p)
    {
      if p in GivenBack(files, call) {
        var q := if call.Rename? then call.to else call.path;
        assert Names(call, q) && Owned(DataOf(files, q), p);
      }
    }

    lemma HeldWrite(call: Call, p: nat)
      requires Valid() && call.Write? && |call.buf| <= OFF_MAX && p == LastByte()
      requires !Free(freeList, p) && !Owned(DataOf(files, call.path), p)
      ensures AllOrdered(files) && CallOutcome(freeList, files, call) != Overflow
    {
      hide FilesSound, Free, Owned, WriteOutcome, Sound, Narrow, TooWide, GivenBack, AllOrdered, DataOf;
      SoundAllOrdered(freeList, files, serialised, HEADER_SIZE, top);
      FileSound(freeList, files, serialised, HEADER_SIZE, top, call.path);
      ByteHeld(freeList, DataOf(files, call.path), serialised, HEADER_SIZE, top, call.offset,
               call.offset + |call.buf|, p);
    }

    /** When all files end at or below `e`, so do the blocks that a write touches. */
    lemma WriteReach(call: Call, e: nat)
      requires Valid() && call.Write?
      ensures Fits(Contents(), Length(), call, e) ==>
                Room(serialised, HEADER_SIZE, Reach(DataOf(files, call.path), call.offset + |call.buf|))
      ensures Fits(Contents(), Length(), call, e) ==> Reach(DataOf(files, call.path), call.offset + |call.buf|) <= e
    {
      if Fits(Contents(), Length(), call, e) {
        var d := DataOf(files, call.path);
        hide Content, Reach;
        assert Ordered(d) by { EmptyData(serialised); }
        OpenedView(files, serialised, call.path);
        assert call.path in files ==> ViewBelow(Contents()[call.path], e);
        ReachBelow(d, serialised, call.offset + |call.buf|, e);
      }
    }

    /** One write of `merge_from`. */
    method ApplyWrite(call: Call) returns (r: Outcome)
      requires Valid() && Regular(Contents(), call) && call.Write?
      modifies this
      ensures top == old(top)
      ensures r == Panicked <==> Effect(old(Contents()), call) == None
      ensures AllOrdered(old(files)) && (r != Panicked ==> r == CallOutcome(old(freeList), old(files), call))
      ensures old(Bounded()) && |call.buf| <= OFF_MAX ==> r != Overflow
      ensures forall e: nat | Fits(old(Contents()), old(Length()), call, e) ::
                && (r == Done || r == Panicked || r == Overflow)
                && (r == Done ==> Length() <= old(Length()) + Cost(call, e))
      ensures r == Done ==> Valid() && Effect(old(Contents()), call) == Some(Contents())
      ensures r == Done ==> (Tiled() <==> old(Tiled())) && (old(AllPacked()) ==> AllPacked())
      ensures r == Done ==> forall q | q != call.path :: DataOf(files, q) == old(DataOf(files, q))
    {
      hide FilesSound, Tiles, ViewOf, Content, Overlay, Packed, Reach, BetweenLarge, Touched, Placed, Clear, Absorbs,
           Fits, Narrow, WriteOutcome, AllOrdered;
      var path := call.path;
      var d := DataOf(files, path);
      SoundAllOrdered(freeList, files, serialised, HEADER_SIZE, top);
      OpenedView(files, serialised, path);
      FileSound(freeList, files, serialised, HEADER_SIZE, top, path);
      SoundOrdered(freeList, d, serialised, HEADER_SIZE, top);
      forall e: nat ensures Fits(Contents(), Length(), call, e) ==>
          Room(serialised, HEADER_SIZE, Reach(d, call.offset + |call.buf|)) && Reach(d, call.offset + |call.buf|) <= e {
        WriteReach(call, e);
      }
      if Opened(Contents(), path).Data? { ContentAbsorbs(d, serialised, call.offset, call.buf); }
      r := Write(path, call.offset, call.buf);
    }

    /** One call of `merge_from` that only touches the table. */
    method ApplyEntry(call: Call) returns (r: Outcome)
      requires Valid() && Regular(Contents(), call)
      requires call.Mknod? || call.Mkdir? || call.Symlink? || call.Link? || call.Create? || call.Metadata?
      modifies this
      ensures top == old(top) && serialised == old(serialised) && freeList == old(freeList)
      ensures r == if Effect(old(Contents()), call) == None then Panicked else Done
      ensures r == Done ==> Valid() && Effect(old(Contents()), call) == Some(Contents())
      ensures r == Done ==> (Tiled() <==> old(Tiled()) && LeakFree(old(Contents()), call))
      ensures r == Done && old(AllPacked()) ==> AllPacked()
      ensures r == Done ==> forall q | !Names(call, q) :: DataOf(files, q) == old(DataOf(files, q))
    {
      hide FilesSound, Tiles, ViewOf, Packed, Narrow;
      match call
      case Mknod(path) => r := Insert(path, Some(map[]));
      case Mkdir(path) => r := Insert(path, None);
      case Symlink(path) => r := Insert(path, None);
      case Link(from, to) => r := Link(from, to);
      case Create(path) => Create(path); r := Done;
      case Metadata(path) => Open(path); r := Done;
    }

    method Apply(call: Call) returns (r: Outcome)
      requires Valid() && Regular(Contents(), call)
      modifies this
      ensures top == old(top)
      ensures r == Done ==> Valid() && Effect(old(Contents()), call) == Some(Contents())
      ensures r == Panicked <==> Effect(old(Contents()), call) == None
      ensures AllOrdered(old(files)) && (r != Panicked ==> r == CallOutcome(old(freeList), old(files), call))
      ensures old(Bounded()) && (call.Write? ==> |call.buf| <= OFF_MAX) ==> r != Overflow
      ensures forall e: nat | Fits(old(Contents()), old(Length()), call, e) ::
                && (r == Done || r == Panicked || r == Overflow)
                && (r == Done ==> Length() <= old(Length()) + Cost(call, e))
      ensures r == Done ==> (Tiled() <==> old(Tiled()) && LeakFree(old(Contents()), call))
      ensures r == Done && old(AllPacked()) && !call.Truncate? ==> AllPacked()
      ensures r == Done ==> forall q | !Names(call, q) :: DataOf(files, q) == old(DataOf(files, q))
    {
      hide FilesSound, Tiles, ViewOf, Clip, Overlay, Packed, TooWide, T.Beyond, Fits, Free, Content, Absorbs, Narrow,
           WriteOutcome, AllOrdered, T.CutAt;
      SoundAllOrdered(freeList, files, serialised, HEADER_SIZE, top);
      NothingGivenBack(freeList);
      match call
      case Rename(from, to) => r := Rename(from, to);
      case Unlink(path) => r := Unlink(path);
      case Truncate(path, size) => r := Truncate(path, size);
      case Write(_, _, _) => r := ApplyWrite(call);
      case Fsync => r := Done;
      case TruncatingWrite(_) => r := Panicked;
      case _ => r := ApplyEntry(call);
    }

    /** After any run the recorded contents are those the calls stand for. The run stops at call `n`, with the storage
        `last` before it, if that call panics, overflows or finds no room. */
    method MergeFrom(calls: seq<Call>) returns (r: Outcome, ghost n: nat, ghost last: Storage)
      requires Valid() && AllRegular(Contents(), calls)
      modifies this
      ensures top == old(top) && n <= |calls| && (r == Done <==> n == |calls|)
      ensures r == Done ==> Valid() && Run(old(Contents()), calls) == Some(Contents())
      ensures last.Sound(top) && Run(old(Contents()), calls[..n]) == Some(Views(last.files, last.serialised))
      ensures r != Done ==>
                && (r == Panicked <==> Effect(Views(last.files, last.serialised), calls[n]) == None)
                && (r != Panicked ==> r == CallOutcome(last.freeList, last.files, calls[n]))
      ensures r == Panicked ==> Run(old(Contents()), calls) == None
      ensures old(Bounded()) && (forall c | c in calls && c.Write? :: |c.buf| <= OFF_MAX) ==> r != Overflow
      ensures (exists q :: old(HoldsOpen(q, calls))) && (forall c | c in calls && c.Write? :: |c.buf| <= OFF_MAX) ==>
                r != Overflow
      ensures Enough(old(Contents()), old(Length()), calls) && r != Overflow ==>
                r == if Run(old(Contents()), calls).None? then Panicked else Done
      ensures r == Done ==> (Tiled() <==> old(Tiled()) && AllLeakFree(old(Contents()), calls))
      ensures r == Done && old(AllPacked()) && (forall c | c in calls :: !c.Truncate?) ==> AllPacked()
    {
      hide FilesSound, Tiles, Views, Effect, Regular, LeakFree, Packed, Enough, Fits, Narrow, CallOutcome, AllOrdered,
           DataOf, Names, Owned, Untouched, Unnamed;
      n, last := 0, Storage(freeList, files, serialised);
      UntouchedNone(files, calls);
      SoundAllOrdered(freeList, files, serialised, HEADER_SIZE, top);
      for i := 0 to |calls|
        invariant top == old(top) && Valid() && n == i
        invariant last == Storage(freeList, files, serialised) && last.Sound(top)
        invariant Run(Contents(), calls[i..]) == Run(old(Contents()), calls)
        invariant Run(old(Contents()), calls[..i]) == Some(Contents())
        invariant AllRegular(Contents(), calls[i..])
        invariant Enough(old(Contents()), old(Length()), calls) ==> Enough(Contents(), Length(), calls[i..])
        invariant Tiled() && AllLeakFree(Contents(), calls[i..]) <==>
                  old(Tiled()) && AllLeakFree(old(Contents()), calls)
        invariant old(AllPacked()) && (forall c | c in calls :: !c.Truncate?) ==> AllPacked()
        invariant Untouched(old(files), files, calls)
      {
        if q :| old(HoldsOpen(q, calls)) && (calls[i].Write? ==> |calls[i].buf| <= OFF_MAX) {
          HeldInRun(q, old(files), calls, calls[i]);
        }
        ghost var table := files;
        assert calls[i..][0] == calls[i] && calls[i..][1..] == calls[i + 1..];
        assert calls[..i + 1] == calls[..i] + [calls[i]];
        RunMore(old(Contents()), calls[..i], calls[i]);
        ghost var m, len := Contents(), Length();
        r := Apply(calls[i]);
        if Enough(m, len, calls[i..]) {
          var e := EnoughFits(m, len, calls[i..]);
          if r == Done { EnoughLeft(m, len, calls[i..], e, Length()); }
        }
        if r != Done {
          return;
        }
        UntouchedNext(old(files), table, files, calls, calls[i]);
        n, last := i + 1, Storage(freeList, files, serialised);
        SoundAllOrdered(freeList, files, serialised, HEADER_SIZE, top);
      }
      assert calls[..|calls|] == calls;
      r := Done;
    }

    // -------------------------------------------------------------- compact

    /** Less than 5% of the bytes up to the end of the data are free. */
    static ghost predicate Tidy(f: FreeList) {
      f != map[] && 20 * |C.FreeBelow(f, C.EndOfData(f))| < C.EndOfData(f)
    }

    /** Blocks that lie at or below the place where the data would end without free bytes are where they were. */
    static ghost predicate Settled(files: Files, files': Files, end: int) {
      forall q, k | k in DataOf(files, q) && DataOf(files, q)[k].location <= end ::
        C.Stayed(DataOf(files, q), DataOf(files', q), k)
    }

    static lemma SettledNone(files: Files, end: int)
      ensures Settled(files, files, end)
    {
    }

    static lemma SettledNext(files: Files, files1: Files, files2: Files, end: int, path: Path)
      requires Settled(files, files1, end) && path in files1 && files1[path].data.Some?
      requires files2.Keys == files1.Keys && forall q | q in files2 && q != path :: files2[q] == files1[q]
      requires forall k | k in DataOf(files1, path) && DataOf(files1, path)[k].location <= end ::
                 C.Stayed(DataOf(files1, path), DataOf(files2, path), k)
      ensures Settled(files, files2, end)
    {
      forall q, k: nat | k in DataOf(files, q) && DataOf(files, q)[k].location <= end
        ensures C.Stayed(DataOf(files, q), DataOf(files2, q), k) {
        assert C.Stayed(DataOf(files, q), DataOf(files1, q), k);
      }
    }

    /** Of the contents `m`, exactly those of the files in `lost` have changed. */
    static ghost predicate Kept(m: Spec, m': Spec, lost: set<Path>) {
      m'.Keys == m.Keys && lost <= m.Keys && forall q | q in m :: m'[q] == m[q] <==> q !in lost
    }

    static lemma KeptStep(m: Spec, m1: Spec, m2: Spec, lost: set<Path>, path: Path, dropped: bool)
      requires Kept(m, m1, lost) && path !in lost
      requires path in m1 && path in m2 && m2 == m1[path := m2[path]] && (m2[path] == m1[path] <==> !dropped)
      ensures Kept(m, m2, if dropped then lost + {path} else lost)
    {
    }

    static lemma KeptAll(m: Spec, m': Spec, lost: set<Path>)
      requires Kept(m, m', lost)
      ensures m' == m <==> lost == {}
    {
      if lost != {} {
        var q :| q in lost;
        assert m'[q] != m[q];
      }
    }

    /** No byte of a file has moved up. */
    static ghost predicate Lowered(files: Files, files': Files, lost: set<Path>) {
      forall q | q in files && q !in lost :: C.NotHigher(DataOf(files, q), DataOf(files', q))
    }

    static lemma LoweredStep(files: Files, files1: Files, files2: Files, lost: set<Path>, path: Path, dropped: bool)
      requires Lowered(files, files1, lost) && path in files && path in files1 && files1[path] == files[path]
      requires files2.Keys == files1.Keys && forall q | q in files2 && q != path :: files2[q] == files1[q]
      requires !dropped ==> C.NotHigher(DataOf(files1, path), DataOf(files2, path))
      ensures Lowered(files, files2, if dropped then lost + {path} else lost)
    {
      hide C.NotHigher;
    }

    static lemma LoweredRefl(files: Files)
      ensures Lowered(files, files, {})
    {
    }

    /** Compacts the files in the order in which the table lists them, and stops once less than 5% of
        the data is wasted. The files of `lost`, whose run at offset 0 is not stored, follow from the free list and
        the table before the call. */
    method Compact(order: seq<Path>) returns (r: Outcome, ghost lost: set<Path>)
      requires Valid()
      requires forall i | 0 <= i < |order| :: order[i] in files
      requires forall i, j | 0 <= i < j < |order| :: order[i] != order[j]
      modifies this
      ensures top == old(top) && (old(Bounded()) ==> r == Done)
      ensures r == if PlanFor(old(freeList), old(files), order).None? then Overflow else Done
      ensures r == Done ==> PlanFor(old(freeList), old(files), order) == Some(Plan(freeList, lost))
      ensures r == Done ==> Valid() && files.Keys == old(files).Keys
      ensures r == Done ==> Kept(old(Contents()), Contents(), lost) && (Contents() == old(Contents()) <==> lost == {})
      ensures r == Done ==> (Tiled() <==> old(Tiled()) && lost == {})
      ensures r == Done ==> Lowered(old(files), files, lost)
      ensures r == Done ==> |C.FreeBelow(freeList, top)| == old(|C.FreeBelow(freeList, top)|)
      ensures r == Done ==> Settled(old(files), files, old(top - |C.FreeBelow(freeList, top)|))
      ensures Tidy(old(freeList)) ==> r == Done && files == old(files) && freeList == old(freeList)
    {
      hide FilesSound, Views, Tiles, Content, C.Outline, C.Loses, C.WastedSpace, C.EndOfData, PlanFor, WithLost, Kept,
           Lowered, Narrow, Settled, C.FreeBelow, C.Stayed;
      r, lost := Done, {};
      SettledNone(files, top - |C.FreeBelow(freeList, top)|);
      LoweredRefl(files);
      assert Kept(Contents(), Contents(), {}) by { KeptRefl(Contents()); }
      assert order[0..] == order;
      LostTogether(PlanFor(freeList, files, order), {}, {});
      for i := 0 to |order|
        invariant r == Done && top == old(top) && Valid() && files.Keys == old(files).Keys
        invariant Tidy(old(freeList)) ==> files == old(files) && freeList == old(freeList)
        invariant |C.FreeBelow(freeList, top)| == old(|C.FreeBelow(freeList, top)|)
        invariant Settled(old(files), files, old(top - |C.FreeBelow(freeList, top)|))
        invariant WithLost(PlanFor(freeList, old(files), order[i..]), lost) == PlanFor(old(freeList), old(files), order)
        invariant forall j | i <= j < |order| :: order[j] !in lost && files[order[j]] == old(files)[order[j]]
        invariant Kept(old(Contents()), Contents(), lost) && Lowered(old(files), files, lost)
        invariant Tiled() <==> old(Tiled()) && lost == {}
      {
        var path := order[i];
        TailPresent();
        PlanStep(freeList, old(files), order, i, lost);
        if files[path].data.Some? {
          var wastedSpace, endOfData := C.WastedSpace(freeList), C.EndOfData(freeList);
          if 20 * wastedSpace < endOfData {
            break;
          }
          ghost var m, table := Contents(), files;
          var dropped;
          r, dropped := CompactEntry(path, endOfData - wastedSpace);
          if r != Done {
            return;
          }
          KeptStep(old(Contents()), m, Contents(), lost, path, dropped);
          LoweredStep(old(files), table, files, lost, path, dropped);
          SettledNext(old(files), table, files, old(top - |C.FreeBelow(freeList, top)|), path);
          if dropped { lost := lost + {path}; }
        }
      }
      KeptAll(old(Contents()), Contents(), lost);
      NothingLeft(freeList, old(files), order, lost);
    }

    static lemma KeptRefl(m: Spec)
      ensures Kept(m, m, {})
    {
    }

    /** The free list is never empty, and the threshold of the compaction, which does not underflow, is the place where
        the data would end without free bytes. */
    lemma TailPresent()
      requires Valid()
      ensures freeList != map[]
      ensures C.WastedSpace(freeList) == |C.FreeBelow(freeList, C.EndOfData(freeList))|
      ensures C.EndOfData(freeList) - C.WastedSpace(freeList) == top - |C.FreeBelow(freeList, top)|
      ensures HEADER_SIZE + C.WastedSpace(freeList) <= C.EndOfData(freeList)
    {
      FileSound(freeList, files, serialised, HEADER_SIZE, top, "");
      var k := TailExtent(freeList, DataOf(files, ""), serialised, HEADER_SIZE, top);
      WithinRegion(freeList, HEADER_SIZE, top);
      C.WastedBelowEnd(freeList, HEADER_SIZE, top);
      C.WastedBytes(freeList);
      C.ThresholdIs(freeList, top);
    }

    method CompactEntry(path: Path, threshold: int) returns (r: Outcome, dropped: bool)
      requires Valid() && path in files && files[path].data.Some?
      modifies this
      ensures top == old(top) && (old(Bounded()) ==> r == Done)
      ensures r == if C.Outline(old(freeList), old(DataOf(files, path)), threshold).None? then Overflow else Done
      ensures r == Done ==>
                var pass := C.Outline(old(freeList), old(DataOf(files, path)), threshold).value;
                freeList == pass.freeList && (dropped <==> C.Loses(pass.run))
      ensures r == Done ==>
                Valid() && files.Keys == old(files).Keys
                && forall q | q in files && q != path :: files[q] == old(files)[q]
      ensures r == Done ==>
                path in old(Contents()) && path in Contents() && Contents() == old(Contents())[path := Contents()[path]]
      ensures r == Done ==> (Contents()[path] == old(Contents())[path] <==> !dropped)
      ensures r == Done ==> (Tiled() <==> old(Tiled()) && !dropped)
      ensures r == Done && !dropped ==> C.NotHigher(old(DataOf(files, path)), DataOf(files, path))
      ensures r == Done ==> |C.FreeBelow(freeList, top)| == old(|C.FreeBelow(freeList, top)|)
      ensures r == Done ==>
                forall k | k in old(DataOf(files, path)) && old(DataOf(files, path))[k].location <= threshold ::
                  C.Stayed(old(DataOf(files, path)), DataOf(files, path), k)
    {
      hide FilesSound, Views, Tiles, C.NotHigher, Content, Sound, Framed, Free, Owned, C.Outline, C.Loses, C.FitsBelow,
           Narrow, C.FreeBelow, C.Fused, C.Stayed;
      var d := files[path].data.value;
      FileSound(freeList, files, serialised, HEADER_SIZE, top, path);
      OpenedView(files, serialised, path);
      var f', d', s';
      ghost var e;
      r, f', d', s', dropped, e := C.CompactFile(freeList, d, serialised, threshold, HEADER_SIZE, top);
      if r != Done {
        return;
      }
      Lifted(path, f', d', s');
      C.OutlineNarrow(freeList, d, threshold);
      freeList, files, serialised := f', files[path := File(Some(d'))], s';
    }

    // -------------------------------------------------------------- finalize and open

    /** Compacts, cuts the file after the data, appends the file table and rewrites the header. The
        result, opened again, is a sound snapshot with the same contents. */
    method Finalize(order: seq<Path>, codec: Codec) returns (r: Outcome, ghost lost: set<Path>)
      requires Valid()
      requires codec.Lawful()
      requires forall i | 0 <= i < |order| :: order[i] in files
      requires forall i, j | 0 <= i < j < |order| :: order[i] != order[j]
      modifies this
      ensures old(Bounded()) ==> r != Overflow
      ensures r == Overflow <==> PlanFor(old(freeList), old(files), order).None?
      ensures r != Overflow ==>
                PlanFor(old(freeList), old(files), order) == Some(Plan(freeList, lost)) && freeList != map[]
      ensures r != Overflow ==>
                r == if C.EndOfData(freeList) + |codec.encodeTable(files)| <= OFF_MAX then Done else TooLarge
      ensures r != Overflow ==> (Contents() == old(Contents()) <==> lost == {})
      ensures r == TooLarge ==> Valid()
      ensures Tidy(old(freeList)) ==> r != Overflow && files == old(files) && freeList == old(freeList)
      ensures r == Done ==> HEADER_SIZE <= |serialised| && codec.decodeHeader(serialised[..HEADER_SIZE]).Some?
      ensures r == Done ==>
                var header := codec.decodeHeader(serialised[..HEADER_SIZE]);
                header.value.checksum == codec.checksum(serialised[HEADER_SIZE..])
      ensures r == Done ==>
                var t := codec.decodeHeader(serialised[..HEADER_SIZE]).value.ftOffset;
                && t == C.EndOfData(freeList) <= |serialised| && codec.decodeTable(serialised[t..]) == Some(files)
                && (forall q, p: nat :: Owns(files, q, p) ==> HEADER_SIZE <= p < t)
                && FilesSound(map[t := USIZE_MAX], files, serialised, HEADER_SIZE, t + USIZE_MAX)
                && (Tiles(map[t := USIZE_MAX], files, HEADER_SIZE, t + USIZE_MAX) <==>
                     old(Tiled()) && lost == {} && freeList.Keys == {t})
                && (old(Tiled()) && lost == {} && HEADER_SIZE < t ==> InUse(files, t - 1))
    {
      hide FilesSound, Views, Owns, C.NotHigher, C.WastedSpace, PlanFor, Tiles, Narrow, InUse, Codec.Lawful, Tidy, Kept,
           Lowered;
      r, lost := Compact(order);
      if r != Done {
        return;
      }
      TailPresent();
      var endOfData := C.EndOfData(freeList);
      LastFreeAboveExtents(freeList, files, serialised, HEADER_SIZE, top, endOfData);
      var image := Image(serialised, endOfData, files, codec);
      if image.None? {
        r := TooLarge;
        return;
      }
      FinalImage(freeList, files, serialised, HEADER_SIZE, top, endOfData, image.value);
      ReopenedTiles(freeList, files, serialised, HEADER_SIZE, top, endOfData);
      if Tiled() && HEADER_SIZE < endOfData {
        LastByteInUse(freeList, files, serialised, HEADER_SIZE, top, endOfData);
      }
      serialised := image.value;
    }

    /** The file with its data cut at `t`, the table appended and the header rewritten; `None` when that is too
        large. */
    static method Image(s: seq<Byte>, t: nat, files: Files, codec: Codec) returns (r: Option<seq<Byte>>)
      requires codec.Lawful() && HEADER_SIZE <= t <= OFF_MAX
      ensures r.Some? <==> t + |codec.encodeTable(files)| <= OFF_MAX
      ensures r.Some? ==>
                && t <= |r.value| <= OFF_MAX && codec.decodeHeader(r.value[..HEADER_SIZE]).Some?
                && codec.decodeHeader(r.value[..HEADER_SIZE]).value ==
                     Header(t, codec.checksum(r.value[HEADER_SIZE..]))
                && codec.decodeTable(r.value[t..]) == Some(files)
                && forall p: nat | HEADER_SIZE <= p < t :: At(r.value, p) == At(s, p)
    {
      hide WriteAt, SetLen;
      var body := SetLen(s, t);
      var table := codec.encodeTable(files);
      var w := PWrite(body, t, table);
      if w.None? {
        return None;
      }
      body := w.value;
      var header := Header(t, codec.checksum(body[HEADER_SIZE..]));
      var head := codec.encodeHeader(header);
      var image := WriteAt(body, 0, head);
      ImageParts(body, head, image, t, table);
      r := Some(image);
    }

    static lemma ImageParts(body: seq<Byte>, head: seq<Byte>, image: seq<Byte>, t: nat, table: seq<Byte>)
      requires HEADER_SIZE <= t <= |body| && |head| == HEADER_SIZE && image == WriteAt(body, 0, head)
      requires |body| == t + |table| && forall p: nat | t <= p < t + |table| :: At(body, p) == table[p - t]
      ensures |image| == |body| && image[..HEADER_SIZE] == head && image[t..] == table
      ensures image[HEADER_SIZE..] == body[HEADER_SIZE..]
      ensures forall p: nat | HEADER_SIZE <= p :: At(image, p) == At(body, p)
    {
      assert forall p: nat | p < |image| :: image[p] == At(image, p);
      assert forall p: nat | HEADER_SIZE <= p < |image| :: image[p] == At(body, p) == body[p];
      assert forall p: nat | t <= p < t + |table| :: image[t..][p - t] == At(image, p);
    }

    /** `open`. The free list restarts after the data with the full 64-bit size. */
    static method OpenFile(fromFile: seq<Byte>, codec: Codec) returns (r: Option<Snapshot>)
      ensures r.Some? <==>
                && HEADER_SIZE <= |fromFile| && codec.decodeHeader(fromFile[..HEADER_SIZE]).Some?
                && codec.decodeHeader(fromFile[..HEADER_SIZE]).value.ftOffset <= |fromFile|
                && codec.decodeTable(fromFile[codec.decodeHeader(fromFile[..HEADER_SIZE]).value.ftOffset..]).Some?
      ensures r.Some? ==>
                var t := codec.decodeHeader(fromFile[..HEADER_SIZE]).value.ftOffset;
                && fresh(r.value) && r.value.freeList == map[t := USIZE_MAX] && r.value.serialised == fromFile
                && Some(r.value.files) == codec.decodeTable(fromFile[t..]) && r.value.top == t + USIZE_MAX
                && (r.value.Valid() <==>
                     HEADER_SIZE <= t && |fromFile| <= OFF_MAX && TableSound(r.value.files, HEADER_SIZE, t))
    {
      hide FilesSound, TableSound;
      if |fromFile| < HEADER_SIZE {
        return None;
      }
      var header := codec.decodeHeader(fromFile[..HEADER_SIZE]);
      if header.None? || header.value.ftOffset > |fromFile| {
        return None;
      }
      var table := codec.decodeTable(fromFile[header.value.ftOffset..]);
      if table.None? {
        return None;
      }
      var snapshot := new Snapshot.Restored(table.value, fromFile, header.value.ftOffset);
      ReopenedSound(table.value, fromFile, HEADER_SIZE, header.value.ftOffset);
      r := Some(snapshot);
    }

    constructor Restored(table: Files, fromFile: seq<Byte>, ftOffset: nat)
      ensures freeList == map[ftOffset := USIZE_MAX] && top == ftOffset + USIZE_MAX
      ensures files == table && serialised == fromFile
    {
      freeList, files, serialised, top := map[ftOffset := USIZE_MAX], table, fromFile, ftOffset + USIZE_MAX;
    }
  }

  /** Of a tiled snapshot with data some file cannot be unlinked once the snapshot was opened again: the one that
      ends where the table starts. */
  lemma UnlinkOverflows(f: FreeList, files: Files, s: seq<Byte>, hi: nat) returns (q: Path)
    requires FilesSound(f, files, s, HEADER_SIZE, hi) && Tiles(f, files, HEADER_SIZE, hi)
    requires f != map[] && HEADER_SIZE < C.EndOfData(f)
    ensures AllOrdered(files) && q in files
    ensures Snapshot.CallOutcome(map[C.EndOfData(f) := USIZE_MAX], files, Call.Unlink(q)) == Overflow
  {
    var t := C.EndOfData(f);
    LastFreeAboveExtents(f, files, s, HEADER_SIZE, hi, t);
    SoundAllOrdered(f, files, s, HEADER_SIZE, hi);
    LastByteInUse(f, files, s, HEADER_SIZE, hi, t);
    q :| Owns(files, q, t - 1);
    UnlinkWide(files, q, t);
  }

  lemma UnlinkWide(files: Files, q: Path, t: nat)
    requires 0 < t <= OFF_MAX && Owns(files, q, t - 1) && forall p: nat :: Owns(files, q, p) ==> p < t
    ensures TooWide(map[t := USIZE_MAX], T.Beyond(DataOf(files, q), 0))
  {
    var d := DataOf(files, q);
    var k :| k in d && d[k].Has(t - 1);
    assert T.HeldBeyond(d, 0, t - 1);
    forall p: nat | p in T.Beyond(d, 0) ensures p < t {
      assert Owns(files, q, p);
    }
    WideAfterOpen(t, T.Beyond(d, 0));
  }

  lemma WideUnlink(f: FreeList, files: Files, q: Path)
    requires AllOrdered(files)
    ensures Snapshot.CallOutcome(f, files, Call.Unlink(q)) == Overflow <==> TooWide(f, T.Beyond(DataOf(files, q), 0))
  {
    hide TooWide, T.Beyond;
  }

  /** What was recorded when a snapshot is closed is what a later `open` finds. Its free list starts again at the end
      of the data, so that free space below is lost, and if there was none and there is data, some file cannot be
      unlinked. */
  method FinalizeThenOpen(s: Snapshot, order: seq<Path>, codec: Codec)
    returns (r: Outcome, o: Option<Snapshot>, ghost lost: set<Path>)
    requires s.Valid() && codec.Lawful()
    requires forall i | 0 <= i < |order| :: order[i] in s.files
    requires forall i, j | 0 <= i < j < |order| :: order[i] != order[j]
    modifies s
    ensures old(s.Bounded()) ==> r == Done || r == TooLarge
    ensures r == Done ==> o.Some? && fresh(o.value) && o.value.Valid() && o.value.Contents() == s.Contents()
    ensures r == Done ==> PlanFor(old(s.freeList), old(s.files), order) == Some(Plan(s.freeList, lost))
    ensures r == Done ==> (o.value.Contents() == old(s.Contents()) <==> lost == {})
    ensures r == Done ==> s.freeList != map[] && o.value.files == s.files && o.value.serialised == s.serialised
    ensures r == Done ==>
              HEADER_SIZE <= |s.serialised|
              && codec.decodeHeader(s.serialised[..HEADER_SIZE]) ==
                   Some(Header(C.EndOfData(s.freeList), codec.checksum(s.serialised[HEADER_SIZE..])))
    ensures Snapshot.Tidy(old(s.freeList)) ==> s.files == old(s.files) && s.freeList == old(s.freeList)
    ensures Snapshot.Tidy(old(s.freeList)) ==>
              r == if C.EndOfData(s.freeList) + |codec.encodeTable(s.files)| <= OFF_MAX then Done else TooLarge
    ensures r == Done ==>
              var t := C.EndOfData(s.freeList);
              && o.value.freeList == map[t := USIZE_MAX] && o.value.top == t + USIZE_MAX
              && (o.value.Tiled() <==> old(s.Tiled()) && lost == {} && s.freeList.Keys == {t})
    ensures r == Done && old(s.Tiled()) && lost == {} && HEADER_SIZE < C.EndOfData(s.freeList) ==>
              AllOrdered(o.value.files)
              && exists q :: q in o.value.files &&
                   Snapshot.CallOutcome(o.value.freeList, o.value.files, Call.Unlink(q)) == Overflow
  {
    hide FilesSound, Views, PlanFor, Tiles, TableSound, Snapshot.CallOutcome, AllOrdered, Narrow, TooWide, T.Beyond;
    o := None;
    r, lost := s.Finalize(order, codec);
    if r == Done {
      ghost var t := C.EndOfData(s.freeList);
      ReopenedSound(s.files, s.serialised, HEADER_SIZE, t);
      SoundAllOrdered(map[t := USIZE_MAX], s.files, s.serialised, HEADER_SIZE, t + USIZE_MAX);
      if HEADER_SIZE < t && InUse(s.files, t - 1) {
        var q :| Owns(s.files, q, t - 1);
        UnlinkWide(s.files, q, t);
        WideUnlink(map[t := USIZE_MAX], s.files, q);
      }
      o := Snapshot.OpenFile(s.serialised, codec);
    }
  }
}
