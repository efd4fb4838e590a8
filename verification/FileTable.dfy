/**
 The file table of a snapshot: many extent maps that share one free list. The lemmas lift a step on
 the extent map of one file to the whole table.
 */
module FileTable {
  import opened Wrappers
  import opened FreeLists
  import opened Extents
  import opened EncodeWrite

  type Path = string

  /** Directories and symlinks have no extent map. */
  datatype File = File(data: Option<DataList>)

  type Files = map<Path, File>

  /** What a file means: no data at all, or a partial map from offsets to bytes. */
  datatype View = NoData | Data(content: imap<nat, Byte>)

  ghost function ViewOf(file: File, s: seq<Byte>): View {
    if file.data.None? then NoData else Data(Content(file.data.value, s))
  }

  ghost function Views(files: Files, s: seq<Byte>): map<Path, View> {
    map q | q in files :: ViewOf(files[q], s)
  }

  ghost predicate Owns(files: Files, q: Path, p: nat) {
    q in files && files[q].data.Some? && Owned(files[q].data.value, p)
  }

  ghost predicate InUse(files: Files, p: nat) {
    exists q :: Owns(files, q, p)
  }

  ghost predicate FilesSound(f: FreeList, files: Files, s: seq<Byte>, lo: nat, hi: nat) {
    && Canonical(f)
    && (forall q | q in files && files[q].data.Some? :: WellFormed(files[q].data.value))
    && (forall q, p: nat :: Owns(files, q, p) ==> !Free(f, p) && lo <= p < |s|)
    && (forall q, r, p: nat :: Owns(files, q, p) && Owns(files, r, p) ==> q == r)
    && (forall p: nat :: Free(f, p) ==> lo <= p < hi)
    && (forall p: nat :: lo <= p < hi && |s| <= p ==> Free(f, p))
    && |s| <= OFF_MAX && lo <= OFF_MAX && 2 * OFF_MAX < hi
  }

  /** Free extents and file extents together cover [lo, hi). */
  ghost predicate Tiles(f: FreeList, files: Files, lo: nat, hi: nat) {
    forall p: nat :: lo <= p < hi ==> Free(f, p) || InUse(files, p)
  }

  /** The extent map that a data operation on `q` starts from. */
  function DataOf(files: Files, q: Path): DataList {
    if q in files && files[q].data.Some? then files[q].data.value else map[]
  }

  ghost predicate AllOrdered(files: Files) {
    forall q | q in files && files[q].data.Some? :: Ordered(files[q].data.value)
  }

  lemma SoundAllOrdered(f: FreeList, files: Files, s: seq<Byte>, lo: nat, hi: nat)
    requires FilesSound(f, files, s, lo, hi)
    ensures AllOrdered(files)
  {
  }

  lemma SameKeys(files: Files, s: seq<Byte>)
    ensures Views(files, s).Keys == files.Keys
  {
  }

  lemma OpenedView(files: Files, s: seq<Byte>, q: Path)
    ensures q in files && files[q].data.Some? ==>
              q in Views(files, s) && Views(files, s)[q] == Data(Content(DataOf(files, q), s))
    ensures q in files && files[q].data.None? ==> q in Views(files, s) && Views(files, s)[q] == NoData
    ensures q !in files ==> q !in Views(files, s) && Content(DataOf(files, q), s) == imap[]
  {
    hide Content;
    EmptyData(s);
  }

  lemma EmptyData(s: seq<Byte>)
    ensures WellFormed(map[]) && Content(map[], s) == imap[]
    ensures forall p: nat :: !Owned(map[], p)
  {
  }

  lemma FileSound(f: FreeList, files: Files, s: seq<Byte>, lo: nat, hi: nat, q: Path)
    requires FilesSound(f, files, s, lo, hi)
    ensures Sound(f, DataOf(files, q), s, lo, hi)
  {
    hide Free, Owned, Canonical, WellFormed;
    EmptyData(s);
    assert forall p: nat :: Owned(DataOf(files, q), p) ==> Owns(files, q, p);
  }

  /** A file whose recorded bytes all lie below offset `e` reaches no further. */
  lemma ReachBelow(d: DataList, s: seq<Byte>, end: nat, e: nat)
    requires Ordered(d) && end <= e && forall x | x in Content(d, s) :: x < e
    ensures Reach(d, end) <= e
  {
    ReachIs(d, end);
    if Reach(d, end) != end {
      var k :| k in d && k + d[k].size == Reach(d, end);
      LocateIs(d, k, k + d[k].size - 1);
      assert k + d[k].size - 1 in Content(d, s);
    }
  }

  /** A step on one extent map that may lose bytes but takes none that belong to others. */
  ghost predicate Replaced(f: FreeList, d: DataList, s: seq<Byte>, f': FreeList, d': DataList, s': seq<Byte>, lo: nat,
                           hi: nat) {
    && Sound(f', d', s', lo, hi) && Framed(f, d, s, s')
    && forall p: nat :: Free(f', p) || Owned(d', p) ==> Free(f, p) || Owned(d, p)
  }

  /** After a step on the extent map of `q` the table holds `d'` for `q`. */
  lemma LiftSound(f: FreeList, files: Files, s: seq<Byte>, f': FreeList, d': DataList, s': seq<Byte>, lo: nat,
                  hi: nat, q: Path)
    requires FilesSound(f, files, s, lo, hi)
    requires Replaced(f, DataOf(files, q), s, f', d', s', lo, hi)
    ensures FilesSound(f', files[q := File(Some(d'))], s', lo, hi)
  {
    hide Free, Owned, Canonical, WellFormed;
    var d := DataOf(files, q);
    EmptyData(s);
    var files' := files[q := File(Some(d'))];
    assert forall p: nat :: Owned(d, p) ==> Owns(files, q, p);
    assert forall p: nat :: Owns(files', q, p) <==> Owned(d', p);
    assert forall r, p: nat | r != q :: Owns(files', r, p) <==> Owns(files, r, p);
  }

  lemma OtherContent(f: FreeList, files: Files, s: seq<Byte>, s': seq<Byte>, lo: nat, hi: nat, q: Path, r: Path)
    requires FilesSound(f, files, s, lo, hi)
    requires Framed(f, DataOf(files, q), s, s')
    requires r in files && r != q
    ensures ViewOf(files[r], s') == ViewOf(files[r], s)
  {
    if files[r].data.Some? {
      var e := files[r].data.value;
      forall x: nat | Mapped(e, x) ensures At(s', Locate(e, x)) == At(s, Locate(e, x)) {
        var k :| Covers(e, k, x) && Locate(e, x) == e[k].location + (x - k);
        var p := Locate(e, x);
        assert Owned(DataOf(files, q), p) ==> Owns(files, q, p);
        assert e[k].Has(p);
        assert Owns(files, r, p);
      }
      assert Content(e, s') == Content(e, s);
    }
  }

  lemma LiftViews(f: FreeList, files: Files, s: seq<Byte>, f': FreeList, d': DataList, s': seq<Byte>, lo: nat,
                  hi: nat, q: Path)
    requires FilesSound(f, files, s, lo, hi)
    requires Replaced(f, DataOf(files, q), s, f', d', s', lo, hi)
    ensures Views(files[q := File(Some(d'))], s') == Views(files, s)[q := Data(Content(d', s'))]
  {
    hide FilesSound, Sound, Framed, Content;
    var files' := files[q := File(Some(d'))];
    forall r | r in files && r != q ensures ViewOf(files[r], s') == ViewOf(files[r], s) {
      OtherContent(f, files, s, s', lo, hi, q, r);
    }
  }

  lemma LiftTiles(f: FreeList, files: Files, f': FreeList, d': DataList, lo: nat, hi: nat, q: Path)
    requires Conserves(f, DataOf(files, q), f', d')
    ensures Tiles(f', files[q := File(Some(d'))], lo, hi) <==> Tiles(f, files, lo, hi)
  {
    hide Free, Owned;
    EmptyData([]);
    var d := DataOf(files, q);
    var files' := files[q := File(Some(d'))];
    assert forall p: nat :: Owned(d, p) <==> Owns(files, q, p);
    assert forall p: nat :: Owns(files', q, p) <==> Owned(d', p);
    assert forall r, p: nat | r != q :: Owns(files', r, p) <==> Owns(files, r, p);
    forall p: nat ensures Free(f', p) || InUse(files', p) <==> Free(f, p) || InUse(files, p) {
      if InUse(files, p) {
        var r :| Owns(files, r, p);
        assert r != q ==> Owns(files', r, p);
      }
      if InUse(files', p) {
        var r :| Owns(files', r, p);
        assert r != q ==> Owns(files, r, p);
      }
    }
  }

  /** Bytes that are lost in a step leave a hole in the tiling. */
  lemma LiftLeak(f: FreeList, files: Files, s: seq<Byte>, f': FreeList, d': DataList, s': seq<Byte>, lo: nat, hi: nat,
                 q: Path)
    requires FilesSound(f, files, s, lo, hi)
    requires Replaced(f, DataOf(files, q), s, f', d', s', lo, hi)
    requires !Conserves(f, DataOf(files, q), f', d')
    ensures !Tiles(f', files[q := File(Some(d'))], lo, hi)
  {
    hide Free, Owned, Canonical, WellFormed;
    EmptyData(s);
    var d := DataOf(files, q);
    var files' := files[q := File(Some(d'))];
    assert forall p: nat :: Owned(d, p) <==> Owns(files, q, p);
    assert forall p: nat :: Owns(files', q, p) <==> Owned(d', p);
    assert forall r, p: nat | r != q :: Owns(files', r, p) <==> Owns(files, r, p);
    var p: nat :| (Free(f, p) || Owned(d, p)) && !Free(f', p) && !Owned(d', p);
    assert !InUse(files', p) && lo <= p < hi;
  }

  // ---------------------------------------------------------------- entries without blocks

  ghost predicate Idle(files: Files, q: Path) {
    forall p: nat :: !Owns(files, q, p)
  }

  /** Replacing an entry that owns nothing by one that owns nothing. */
  lemma PutIdle(f: FreeList, files: Files, s: seq<Byte>, lo: nat, hi: nat, q: Path, data: Option<DataList>)
    requires FilesSound(f, files, s, lo, hi) && Idle(files, q)
    requires data == None || data == Some(map[])
    ensures FilesSound(f, files[q := File(data)], s, lo, hi)
    ensures Views(files[q := File(data)], s) == Views(files, s)[q := if data.None? then NoData else Data(imap[])]
    ensures Tiles(f, files[q := File(data)], lo, hi) <==> Tiles(f, files, lo, hi)
  {
    hide Free, Owned, Canonical, WellFormed, Content;
    EmptyData(s);
    SameOwners(files, files[q := File(data)], f, lo, hi);
  }

  lemma RemoveIdle(f: FreeList, files: Files, s: seq<Byte>, lo: nat, hi: nat, q: Path)
    requires FilesSound(f, files, s, lo, hi) && Idle(files, q)
    ensures FilesSound(f, files - {q}, s, lo, hi)
    ensures Views(files - {q}, s) == Views(files, s) - {q}
    ensures Tiles(f, files - {q}, lo, hi) <==> Tiles(f, files, lo, hi)
  {
    hide Free, Owned, Canonical, WellFormed, Content;
    SameOwners(files, files - {q}, f, lo, hi);
  }

  lemma SameOwners(files: Files, files': Files, f: FreeList, lo: nat, hi: nat)
    requires forall q, p: nat :: Owns(files', q, p) <==> Owns(files, q, p)
    ensures Tiles(f, files', lo, hi) <==> Tiles(f, files, lo, hi)
  {
    hide Free, Owns;
    assert forall p: nat :: InUse(files', p) <==> InUse(files, p);
  }

  /** Renaming: `from`'s entry replaces an entry that owns nothing. */
  lemma MoveEntry(f: FreeList, files: Files, s: seq<Byte>, lo: nat, hi: nat, from: Path, to: Path)
    requires FilesSound(f, files, s, lo, hi) && from in files && (from == to || Idle(files, to))
    ensures var files' := (files - {from})[to := files[from]];
            && FilesSound(f, files', s, lo, hi)
            && Views(files', s) == (Views(files, s) - {from})[to := Views(files, s)[from]]
            && (Tiles(f, files', lo, hi) <==> Tiles(f, files, lo, hi))
  {
    hide Free, Owned, Canonical, WellFormed, Content;
    var files' := (files - {from})[to := files[from]];
    assert forall p: nat :: Owns(files', to, p) <==> Owns(files, from, p);
    assert forall q, p: nat | q != to :: Owns(files', q, p) <==> Owns(files, q, p) && q != from;
    forall p: nat ensures InUse(files', p) <==> InUse(files, p) {
      if InUse(files, p) {
        var q :| Owns(files, q, p);
        assert Owns(files', if q == from then to else q, p);
      }
      if InUse(files', p) {
        var q :| Owns(files', q, p);
        assert Owns(files, if q == to then from else q, p);
      }
    }
  }

  // ---------------------------------------------------------------- forgetting and sharing blocks

  /** An entry owns no byte exactly when nothing is recorded for it. */
  lemma IdleIffEmpty(f: FreeList, files: Files, s: seq<Byte>, lo: nat, hi: nat, q: Path)
    requires FilesSound(f, files, s, lo, hi) && q in files
    ensures Idle(files, q) <==> ViewOf(files[q], s) == NoData || ViewOf(files[q], s) == Data(imap[])
    ensures Idle(files, q) <==> DataOf(files, q) == map[]
  {
    EmptyData(s);
    if files[q].data.Some? && files[q].data.value != map[] {
      var d := files[q].data.value;
      assert d.Keys != {};
      var k :| k in d.Keys;
      LocateIs(d, k, k);
      assert k in Content(d, s);
      assert d[k].Has(d[k].location);
      assert Owns(files, q, d[k].location);
    }
  }

  /** Replacing an entry by an empty one without deallocating: what it owned is lost to the region. */
  lemma ForgetEntry(f: FreeList, files: Files, s: seq<Byte>, lo: nat, hi: nat, q: Path)
    requires FilesSound(f, files, s, lo, hi)
    ensures FilesSound(f, files[q := File(Some(map[]))], s, lo, hi)
    ensures Views(files[q := File(Some(map[]))], s) == Views(files, s)[q := Data(imap[])]
    ensures Tiles(f, files[q := File(Some(map[]))], lo, hi) <==> Tiles(f, files, lo, hi) && Idle(files, q)
  {
    hide Free, Owned, Canonical, WellFormed, Content;
    EmptyData(s);
    var files' := files[q := File(Some(map[]))];
    assert forall r, p: nat :: Owns(files', r, p) <==> Owns(files, r, p) && r != q;
    if Idle(files, q) {
      SameOwners(files, files', f, lo, hi);
    } else {
      var p: nat :| Owns(files, q, p);
      assert !Free(f, p) && lo <= p < hi && !InUse(files', p);
    }
  }

  /** Two entries with the same extent map keep the invariant only when that map is empty. */
  lemma SharedEntry(f: FreeList, files: Files, s: seq<Byte>, lo: nat, hi: nat, from: Path, to: Path)
    requires FilesSound(f, files, s, lo, hi) && from in files && files[from].data.Some? && to !in files
    ensures FilesSound(f, files[to := files[from]], s, lo, hi) <==> DataOf(files, from) == map[]
    ensures Views(files[to := files[from]], s) == Views(files, s)[to := Views(files, s)[from]]
    ensures Tiles(f, files[to := files[from]], lo, hi) <==> Tiles(f, files, lo, hi)
  {
    hide Free, Owned, Canonical, WellFormed, Content;
    var files' := files[to := files[from]];
    IdleIffEmpty(f, files, s, lo, hi, from);
    assert forall p: nat :: Owns(files', to, p) <==> Owns(files, from, p);
    assert forall r, p: nat | r != to :: Owns(files', r, p) <==> Owns(files, r, p);
    if DataOf(files, from) != map[] {
      var p: nat :| Owns(files, from, p);
      assert Owns(files', from, p) && Owns(files', to, p);
    }
    forall p: nat ensures InUse(files', p) <==> InUse(files, p) {
      if InUse(files, p) {
        var r :| Owns(files, r, p);
        assert Owns(files', r, p);
      }
    }
  }

  // ---------------------------------------------------------------- closing and reopening

  /** The last free extent starts at `t`: every extent of every file ends at or below `t`. */
  lemma LastFreeAboveExtents(f: FreeList, files: Files, s: seq<Byte>, lo: nat, hi: nat, t: nat)
    requires FilesSound(f, files, s, lo, hi)
    requires t in f && forall k | k in f :: k <= t
    ensures t + f[t] == hi && lo <= t <= OFF_MAX
    ensures forall q, p: nat :: Owns(files, q, p) ==> lo <= p < t
  {
    EmptyData(s);
    var k := TailExtent(f, map[], s, lo, hi);
    WithinRegion(f, lo, hi);
    assert k == t;
    assert forall p: nat | t <= p < hi :: Free(f, p);
  }

  /** Of a tiled snapshot with data the byte before the last free extent is in use. */
  lemma LastByteInUse(f: FreeList, files: Files, s: seq<Byte>, lo: nat, hi: nat, t: nat)
    requires FilesSound(f, files, s, lo, hi) && Tiles(f, files, lo, hi)
    requires t in f && (forall k | k in f :: k <= t) && lo < t
    ensures InUse(files, t - 1)
  {
    LastFreeAboveExtents(f, files, s, lo, hi, t);
    ExtentIsMaximal(f, t);
  }

  /** The extents of a table are in order, lie in [lo, t), and no byte belongs to two of them. */
  ghost predicate TableSound(files: Files, lo: nat, t: nat) {
    && (forall q | q in files && files[q].data.Some? :: WellFormed(files[q].data.value))
    && (forall q, p: nat :: Owns(files, q, p) ==> lo <= p < t)
    && (forall q, r, p: nat :: Owns(files, q, p) && Owns(files, r, p) ==> q == r)
  }

  lemma TailOnly(t: nat, size: nat)
    requires size > 0
    ensures Canonical(map[t := size])
    ensures forall p: nat :: Free(map[t := size], p) <==> t <= p < t + size
  {
    var f := map[t := size];
    assert t in f && f[t] == size;
  }

  /** With the free list that `open` makes, exactly the tables whose extents lie below the table are sound. */
  lemma ReopenedSound(files: Files, s: seq<Byte>, lo: nat, t: nat)
    requires t <= |s|
    ensures FilesSound(map[t := USIZE_MAX], files, s, lo, t + USIZE_MAX) <==>
      lo <= t && |s| <= OFF_MAX && TableSound(files, lo, t)
  {
    hide Owns, WellFormed, Free, Canonical;
    TailOnly(t, USIZE_MAX);
    if FilesSound(map[t := USIZE_MAX], files, s, lo, t + USIZE_MAX) {
      assert Free(map[t := USIZE_MAX], t);
      forall q, p: nat | Owns(files, q, p) ensures lo <= p < t {
        assert !Free(map[t := USIZE_MAX], p) && p < |s|;
      }
    }
  }

  /** Free space below the last free extent is lost when the file is opened again. */
  lemma ReopenedTiles(f: FreeList, files: Files, s: seq<Byte>, lo: nat, hi: nat, t: nat)
    requires FilesSound(f, files, s, lo, hi)
    requires t in f && forall k | k in f :: k <= t
    ensures Tiles(map[t := USIZE_MAX], files, lo, t + USIZE_MAX) <==> Tiles(f, files, lo, hi) && f.Keys == {t}
  {
    LastFreeAboveExtents(f, files, s, lo, hi, t);
    TailOnly(t, USIZE_MAX);
    var g := map[t := USIZE_MAX];
    if Tiles(g, files, lo, t + USIZE_MAX) {
      forall k | k in f ensures k == t {
        assert Free(f, k) && !InUse(files, k);
      }
      forall p: nat | lo <= p < hi ensures Free(f, p) || InUse(files, p) {
        if t <= p { assert t in f && t <= p < t + f[t]; }
      }
    }
    if Tiles(f, files, lo, hi) && f.Keys == {t} {
      forall p: nat | lo <= p < t ensures InUse(files, p) {
        assert !Free(f, p);
      }
    }
  }

  lemma SameViews(files: Files, s: seq<Byte>, s': seq<Byte>)
    requires forall q, p: nat :: Owns(files, q, p) ==> At(s', p) == At(s, p)
    ensures Views(files, s') == Views(files, s)
  {
    forall q | q in files ensures ViewOf(files[q], s') == ViewOf(files[q], s) {
      if files[q].data.Some? {
        var e := files[q].data.value;
        forall x: nat | Mapped(e, x) ensures At(s', Locate(e, x)) == At(s, Locate(e, x)) {
          var k :| Covers(e, k, x) && Locate(e, x) == e[k].location + (x - k);
          var p := Locate(e, x);
          assert e[k].Has(p);
          assert Owns(files, q, p);
        }
        assert Content(e, s') == Content(e, s);
      }
    }
  }

  /** A file image that keeps the bytes below the last free extent can be opened in place of `s`. */
  lemma FinalImage(f: FreeList, files: Files, s: seq<Byte>, lo: nat, hi: nat, t: nat, image: seq<Byte>)
    requires FilesSound(f, files, s, lo, hi)
    requires t in f && forall k | k in f :: k <= t
    requires t <= |image| <= OFF_MAX && forall p: nat | lo <= p < t :: At(image, p) == At(s, p)
    ensures FilesSound(map[t := USIZE_MAX], files, image, lo, t + USIZE_MAX)
    ensures Views(files, image) == Views(files, s)
    ensures forall q, p: nat :: Owns(files, q, p) ==> lo <= p < t
  {
    hide Owns, WellFormed, Views, Free;
    LastFreeAboveExtents(f, files, s, lo, hi, t);
    SameViews(files, s, image);
    assert TableSound(files, lo, t);
    ReopenedSound(files, image, lo, t);
  }
}
