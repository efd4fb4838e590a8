/**
 `Snapshot::encode_write`: overlaying one write on the extent map of a file, with the in-place,
 append, fresh-block and copy-and-defragment paths. All state is passed by value: `f` is the free
 list, `d` the extent map of the file and `s` the bytes of the snapshot file.
 */
module EncodeWrite {
  import opened Wrappers
  import opened OrderedKeys
  import opened FreeLists
  import opened Extents

  /** Largest offset a file can be written at (`off_t`). */
  const OFF_MAX: nat := 0x7FFF_FFFF_FFFF_FFFF
  const MERGE_LIMIT: nat := 1024 * 1024
  const BUF_SIZE: nat := 16 * 1024

  /** `NoSpace`: no free extent is large enough (a panic). `Overflow`: a 64-bit sum overflows.
      `TooLarge`: the operating system refuses a write beyond `OFF_MAX`. `Panicked`: a failed assertion. */
  datatype Outcome = Done | NoSpace | Overflow | TooLarge | Panicked

  // ---------------------------------------------------------------- invariant of one file

  /** [lo, hi) is the region that the free list and the extents share. Bytes at or past the end of
      the snapshot file are all free. */
  ghost predicate Sound(f: FreeList, d: DataList, s: seq<Byte>, lo: nat, hi: nat) {
    && Canonical(f) && WellFormed(d)
    && (forall p: nat :: Free(f, p) ==> !Owned(d, p) && lo <= p < hi)
    && (forall p: nat :: Owned(d, p) ==> lo <= p < |s|)
    && (forall p: nat :: lo <= p < hi && |s| <= p ==> Free(f, p))
    && |s| <= OFF_MAX && lo <= OFF_MAX && 2 * OFF_MAX < hi
  }

  /** No byte of the snapshot file is gained or lost. */
  ghost predicate Conserves(f: FreeList, d: DataList, f': FreeList, d': DataList) {
    forall p: nat :: Free(f, p) || Owned(d, p) <==> Free(f', p) || Owned(d', p)
  }

  /** Bytes that are neither free nor this file's are left alone. */
  ghost predicate Framed(f: FreeList, d: DataList, s: seq<Byte>, s': seq<Byte>) {
    |s| <= |s'| && forall p: nat :: !Free(f, p) && !Owned(d, p) ==> At(s', p) == At(s, p)
  }

  ghost predicate Stepped(f: FreeList, d: DataList, s: seq<Byte>,
                          f': FreeList, d': DataList, s': seq<Byte>, lo: nat, hi: nat) {
    Sound(f', d', s', lo, hi) && Conserves(f, d, f', d') && Framed(f, d, s, s')
  }

  /** Of two blocks that are adjacent in the file one is larger than the merge limit. */
  ghost predicate Packed(d: DataList) {
    forall j, k | j in d && k in d && j + d[j].size == k :: d[j].size > MERGE_LIMIT || d[k].size > MERGE_LIMIT
  }

  lemma WithinRegion(f: FreeList, lo: nat, hi: nat)
    requires Canonical(f)
    requires forall p: nat :: Free(f, p) ==> lo <= p < hi
    ensures Within(f, lo, hi)
  {
    forall k | k in f ensures lo <= k && k + f[k] <= hi {
      assert Free(f, k) && Free(f, k + f[k] - 1);
    }
  }

  lemma BlockBounds(f: FreeList, d: DataList, s: seq<Byte>, lo: nat, hi: nat, k: nat)
    requires Sound(f, d, s, lo, hi) && k in d
    ensures lo <= d[k].location && d[k].End() <= |s| && d[k].size > 0
  {
    assert d[k].Has(d[k].location) && d[k].Has(d[k].End() - 1);
    assert Owned(d, d[k].location) && Owned(d, d[k].End() - 1);
  }

  lemma SoundOrdered(f: FreeList, d: DataList, s: seq<Byte>, lo: nat, hi: nat)
    requires Sound(f, d, s, lo, hi)
    ensures Ordered(d)
  {
  }

  // ---------------------------------------------------------------- file primitives

  /** `write_all_at`. */
  method PWrite(s: seq<Byte>, offset: nat, buf: seq<Byte>) returns (r: Option<seq<Byte>>)
    ensures r.Some? <==> buf == [] || offset + |buf| <= OFF_MAX
    ensures r.Some? ==> r.value == WriteAt(s, offset, buf)
  {
    if buf != [] && offset + |buf| > OFF_MAX {
      return None;
    }
    r := Some(WriteAt(s, offset, buf));
  }

  /** `t` is `s` with [to, to + n) replaced by the bytes of `s` at [from, from + n). */
  ghost predicate Copied(s: seq<Byte>, t: seq<Byte>, from: nat, to: nat, n: nat) {
    && |t| == (if n == 0 || to + n <= |s| then |s| else to + n)
    && forall p: nat {:trigger At(t, p)} :: At(t, p) == if to <= p < to + n then At(s, from + (p - to)) else At(s, p)
  }

  lemma CopyChunk(s: seq<Byte>, t: seq<Byte>, from: nat, to: nat, n: nat, len: nat)
    requires Copied(s, t, from, to, n) && from + n + len <= |t| && 0 < len
    requires n == 0 || to <= from || from + n + len <= to
    ensures Copied(s, WriteAt(t, to + n, t[from + n .. from + n + len]), from, to, n + len)
  {
    var buf := t[from + n .. from + n + len];
    forall i | 0 <= i < len ensures buf[i] == At(s, from + n + i) {
      assert buf[i] == At(t, from + n + i);
    }
  }

  /** The first byte that a copy in chunks takes from what it has itself written, if the target lies above. */
  function Echo(from: nat, to: nat): nat {
    if to - from < 0x4000 then 0x4000 else to - from
  }

  /** The first `n` bytes of the target are those of the source. */
  ghost predicate FirstChunk(s: seq<Byte>, t: seq<Byte>, from: nat, to: nat, n: nat) {
    forall p: nat {:trigger At(t, p)} | to <= p < to + n :: At(t, p) == At(s, from + (p - to))
  }

  /** `n` bytes have been copied, in whole chunks. */
  ghost predicate ChunksCopied(s: seq<Byte>, t: seq<Byte>, from: nat, to: nat, n: nat) {
    && (to <= from || n <= Echo(from, to) ==> Copied(s, t, from, to, n))
    && FirstChunk(s, t, from, to, if n < BUF_SIZE then n else BUF_SIZE)
    && (from < to && n > Echo(from, to) ==>
         At(t, to + Echo(from, to)) == At(s, from + (Echo(from, to) - (to - from))))
  }

  lemma NoneCopied(s: seq<Byte>, from: nat, to: nat)
    ensures ChunksCopied(s, s, from, to, 0)
  {
  }

  lemma FirstStep(s: seq<Byte>, t: seq<Byte>, from: nat, to: nat, n: nat, len: nat)
    requires ChunksCopied(s, t, from, to, n) && from + n + len <= |t| && 0 < len <= BUF_SIZE
    requires n == 0 || n >= BUF_SIZE
    ensures var t' := WriteAt(t, to + n, t[from + n .. from + n + len]);
      FirstChunk(s, t', from, to, if n + len < BUF_SIZE then n + len else BUF_SIZE)
  {
    if n == 0 {
      CopyChunk(s, t, from, to, 0, len);
      hide At, WriteAt;
    } else {
      hide At, Copied;
    }
  }

  lemma EchoStep(s: seq<Byte>, t: seq<Byte>, from: nat, to: nat, n: nat, len: nat)
    requires ChunksCopied(s, t, from, to, n) && from + n + len <= |t| && 0 < len <= BUF_SIZE
    requires n % BUF_SIZE == 0 && from < to && n + len > Echo(from, to)
    ensures var t' := WriteAt(t, to + n, t[from + n .. from + n + len]);
      At(t', to + Echo(from, to)) == At(s, from + (Echo(from, to) - (to - from)))
  {
    hide Copied, At, WriteAt;
    var echo, buf := Echo(from, to), t[from + n .. from + n + len];
    assert n >= BUF_SIZE;
    if n <= echo {
      assert At(t, from + echo) == At(s, from + (from + echo - to));
      assert buf[echo - n] == At(t, from + echo) by { AtIs(t, from + echo); }
    }
    assert At(WriteAt(t, to + n, buf), to + echo) == if n <= echo then buf[echo - n] else At(t, to + echo);
  }

  lemma AtIs(t: seq<Byte>, p: nat)
    requires p < |t|
    ensures At(t, p) == t[p]
  {
  }

  lemma ChunksStep(s: seq<Byte>, t: seq<Byte>, from: nat, to: nat, n: nat, len: nat)
    requires ChunksCopied(s, t, from, to, n) && from + n + len <= |t| && 0 < len <= BUF_SIZE && n % BUF_SIZE == 0
    ensures ChunksCopied(s, WriteAt(t, to + n, t[from + n .. from + n + len]), from, to, n + len)
  {
    hide WriteAt, At, Copied, FirstChunk;
    FirstStep(s, t, from, to, n, len);
    if from < to && n + len > Echo(from, to) {
      EchoStep(s, t, from, to, n, len);
    } else {
      CopyChunk(s, t, from, to, n, len);
    }
  }

  /** `move_file_range`: a copy in chunks of 16 KiB. It is a faithful copy, whatever the bytes are, exactly when the
      target is not above the source, or does not overlap it, or there is one chunk only: otherwise the byte `Echo` of
      the copy is one that was copied before. `None` is a short read or a write past `OFF_MAX`. */
  method MoveFileRange(s: seq<Byte>, from: nat, to: nat, size: nat) returns (r: Option<seq<Byte>>)
    ensures from + size <= |s| && to + size <= OFF_MAX ==> r.Some?
    ensures r.Some? && size > 0 ==> to + size <= OFF_MAX
    ensures r.Some? && size > 0 && to <= from ==> from + size <= |s|
    ensures r.Some? && (to <= from || size <= Echo(from, to)) ==> Copied(s, r.value, from, to, size)
    ensures r.Some? && from < to && size > Echo(from, to) ==>
              At(r.value, to + Echo(from, to)) == At(s, from + (Echo(from, to) - (to - from)))
  {
    var t := s;
    var offset := 0;
    hide Copied, FirstChunk, At, WriteAt, Echo;
    NoneCopied(s, from, to);
    while offset < size
      invariant 0 <= offset <= size && (offset < size ==> offset % BUF_SIZE == 0)
      invariant |s| <= |t| && (to <= from ==> |t| == |s| && (offset > 0 ==> from + offset <= |s|))
      invariant offset > 0 ==> to + offset <= OFF_MAX
      invariant ChunksCopied(s, t, from, to, offset)
    {
      var len := if size - offset < BUF_SIZE then size - offset else BUF_SIZE;
      if |t| < from + offset + len {
        return None;
      }
      var w := PWrite(t, to + offset, t[from + offset .. from + offset + len]);
      if w.None? {
        return None;
      }
      ChunksStep(s, t, from, to, offset, len);
      t := w.value;
      offset := offset + len;
    }
    r := Some(t);
  }

  // ---------------------------------------------------------------- overlapping blocks

  /** Keys of the blocks that start below `bound` and end at or after `offset`, in ascending order,
      collected from the last one down. */
  function Overlaps(d: DataList, bound: nat, offset: nat): (keys: seq<nat>)
    requires Ordered(d)
    ensures Touching(d, bound, offset, keys)
    decreases bound
  {
    var last := LastBelow(d, bound);
    if last.None? || last.value + d[last.value].size < offset then
      if last.Some? then EarlierEnds(d, bound, offset, last.value); [] else []
    else
      var before := Overlaps(d, last.value, offset);
      AppendTouching(d, bound, offset, last.value, before);
      before + [last.value]
  }

  /** `keys` are exactly the blocks that start below `bound` and end at or after `offset`, ascending. */
  ghost predicate Touching(d: DataList, bound: nat, offset: nat, keys: seq<nat>) {
    && (forall i | 0 <= i < |keys| :: keys[i] in d && keys[i] < bound && keys[i] + d[keys[i]].size >= offset)
    && (forall k | k in d && k < bound && k + d[k].size >= offset :: k in keys)
    && (forall i, j | 0 <= i < j < |keys| :: keys[i] < keys[j])
  }

  lemma TouchingKeys(d: DataList, bound: nat, offset: nat, keys: seq<nat>)
    requires Touching(d, bound, offset, keys)
    ensures forall i | 0 <= i < |keys| :: keys[i] in d
  {
  }

  lemma EarlierEnds(d: DataList, bound: nat, offset: nat, last: nat)
    requires Ordered(d) && last in d && last + d[last].size < offset
    requires forall k | k in d && k < bound :: k <= last
    ensures forall k | k in d && k < bound :: k + d[k].size < offset
  {
  }

  lemma AppendTouching(d: DataList, bound: nat, offset: nat, last: nat, before: seq<nat>)
    requires last in d && last < bound && last + d[last].size >= offset
    requires forall k | k in d && k < bound :: k <= last
    requires Touching(d, last, offset, before)
    ensures Touching(d, bound, offset, before + [last])
  {
    var keys := before + [last];
    forall k | k in d && k < bound && k + d[k].size >= offset ensures k in keys {
      if k != last {
        assert k in before;
        var i :| 0 <= i < |before| && before[i] == k;
        assert keys[i] == k;
      } else {
        assert keys[|before|] == last;
      }
    }
  }

  // ---------------------------------------------------------------- content of the new block

  /** Block `b`, placed at `k`, holds byte `x` of the write, or else byte `x` of the old content. */
  ghost predicate HoldsAt(d: DataList, s: seq<Byte>, k: nat, b: Block, t: seq<Byte>,
                          offset: nat, buf: seq<Byte>, x: nat) {
    k <= x < k + b.size ==>
      if offset <= x < offset + |buf| then At(t, b.location + (x - k)) == buf[x - offset]
      else Mapped(d, x) && At(t, b.location + (x - k)) == At(s, Locate(d, x))
  }

  /** A new block that replaces the blocks in its range, contains the write and elsewhere repeats the
      old content, overlays the write. */
  lemma ReplacementOverlays(d: DataList, s: seq<Byte>, rest: DataList, k: nat, b: Block, t: seq<Byte>,
                            offset: nat, buf: seq<Byte>)
    requires Ordered(d) && Ordered(rest) && Vacant(rest, k, b) && Replaces(d, rest, k, b)
    requires SameBytes(rest, s, t)
    requires k <= offset && offset + |buf| <= k + b.size
    requires forall x: nat :: HoldsAt(d, s, k, b, t, offset, buf, x)
    ensures Content(rest[k := b], t) == Overlay(Content(d, s), offset, buf)
  {
    hide Ordered, Vacant, Replaces, SameBytes, HoldsAt, Content, Redirect, Overlay;
    ReplaceContent(d, s, rest, k, b, t);
    var l, r := Redirect(Content(d, s), k, b, t), Overlay(Content(d, s), offset, buf);
    forall x: nat ensures x in l <==> x in r
                  ensures x in l ==> l[x] == r[x] {
      RedirectByte(d, s, k, b, t, offset, buf, x);
    }
    assert l == r;
  }

  lemma RedirectByte(d: DataList, s: seq<Byte>, k: nat, b: Block, t: seq<Byte>, offset: nat, buf: seq<Byte>, x: nat)
    requires k <= offset && offset + |buf| <= k + b.size && HoldsAt(d, s, k, b, t, offset, buf, x)
    ensures var l, r := Redirect(Content(d, s), k, b, t), Overlay(Content(d, s), offset, buf);
      (x in l <==> x in r) && (x in l ==> l[x] == r[x])
  {
  }

  // ---------------------------------------------------------------- a write inside one block

  lemma InPlaceContent(d: DataList, s: seq<Byte>, first: nat, offset: nat, buf: seq<Byte>)
    requires WellFormed(d)
    requires first in d && first <= offset && offset + |buf| <= first + d[first].size
    ensures Content(d, WriteAt(s, d[first].location + (offset - first), buf)) == Overlay(Content(d, s), offset, buf)
  {
    hide Content, Overlay, Exclusive;
    var t := WriteAt(s, d[first].location + (offset - first), buf);
    RemoveBlock(d, first);
    var rest: DataList := d - {first};
    forall x: nat ensures HoldsAt(d, s, first, d[first], t, offset, buf, x) {
      if first <= x < first + d[first].size { LocateIs(d, first, x); }
    }
    ReplacementOverlays(d, s, rest, first, d[first], t, offset, buf);
    assert rest[first := d[first]] == d;
  }

  method WriteInPlace(f: FreeList, d: DataList, s: seq<Byte>, first: nat, offset: nat, buf: seq<Byte>,
                      ghost lo: nat, ghost hi: nat) returns (r: Outcome, s': seq<Byte>)
    requires Sound(f, d, s, lo, hi)
    requires first in d && first <= offset && offset + |buf| <= first + d[first].size
    ensures r == Done && Grew(s, s', lo, 0) && Stepped(f, d, s, f, d, s', lo, hi)
    ensures Content(d, s') == Overlay(Content(d, s), offset, buf)
  {
    hide Free, Canonical, WellFormed, Content, Overlay;
    BlockBounds(f, d, s, lo, hi, first);
    var w := PWrite(s, d[first].location + (offset - first), buf);
    r, s' := Done, w.value;
    InPlaceContent(d, s, first, offset, buf);
    assert forall p: nat :: d[first].Has(p) ==> Owned(d, p);
  }

  // ---------------------------------------------------------------- room for a block

  /** The free extent that reaches the end of the region starts at or below the end of the file. */
  lemma TailExtent(f: FreeList, d: DataList, s: seq<Byte>, lo: nat, hi: nat) returns (k: nat)
    requires Sound(f, d, s, lo, hi)
    ensures k in f && k + f[k] == hi && k <= Max(|s|, lo)
  {
    var p := Max(|s|, lo);
    assert Free(f, p);
    k :| k in f && k <= p < k + f[k];
    ExtentIsMaximal(f, k);
    assert Free(f, k + f[k] - 1);
  }

  /** `n` more bytes fit into the snapshot file. */
  predicate Room(s: seq<Byte>, lo: nat, n: nat) {
    Max(|s|, lo) + n <= OFF_MAX
  }

  /** Every free extent starts at or below the end of the file. */
  lemma ExtentStart(f: FreeList, d: DataList, s: seq<Byte>, lo: nat, hi: nat, k: nat)
    requires Sound(f, d, s, lo, hi) && k in f
    ensures k <= Max(|s|, lo) <= OFF_MAX
  {
    var t := TailExtent(f, d, s, lo, hi);
    WithinRegion(f, lo, hi);
  }

  /** The file has grown by at most `n` bytes. */
  ghost predicate Grew(s: seq<Byte>, s': seq<Byte>, lo: nat, n: nat) {
    |s'| <= Max(|s|, lo) + n
  }

  /** With room for `size` bytes a first-fit allocation succeeds and ends within `OFF_MAX`. */
  lemma RoomToAllocate(f: FreeList, d: DataList, s: seq<Byte>, lo: nat, hi: nat, size: nat, hint: Option<nat>)
    requires Sound(f, d, s, lo, hi) && Room(s, lo, size)
    requires hint.Some? ==> hint.value <= |s|
    ensures Choose(f, size, hint).Some? && Choose(f, size, hint).value + size <= OFF_MAX
  {
    var k := TailExtent(f, d, s, lo, hi);
    assert f[k] >= size;
  }

  // ---------------------------------------------------------------- a fresh block

  lemma FreshContent(d: DataList, s: seq<Byte>, b: Block, offset: nat, buf: seq<Byte>)
    requires WellFormed(d) && Vacant(d, offset, b) && b.size == |buf|
    requires forall p: nat :: b.Has(p) ==> !Owned(d, p)
    ensures Content(d[offset := b], WriteAt(s, b.location, buf)) == Overlay(Content(d, s), offset, buf)
  {
    var t := WriteAt(s, b.location, buf);
    forall x: nat ensures HoldsAt(d, s, offset, b, t, offset, buf, x) {
    }
    ReplacementOverlays(d, s, d, offset, b, t, offset, buf);
  }

  lemma FreshPacked(d: DataList, offset: nat, b: Block)
    requires Ordered(d) && Packed(d) && Vacant(d, offset, b)
    requires forall k | k in d && (k + d[k].size == offset || k == offset + b.size) :: d[k].size > MERGE_LIMIT
    ensures Packed(d[offset := b])
  {
  }

  /** Block `b` was free and is now in use; every other byte in use was in use before. */
  lemma Occupied(f: FreeList, d: DataList, s: seq<Byte>, f': FreeList, d': DataList, s': seq<Byte>, b: Block, lo: nat,
                 hi: nat)
    requires Sound(f, d, s, lo, hi) && Canonical(f') && WellFormed(d')
    requires forall p: nat :: b.Has(p) ==> Free(f, p)
    requires Conserves(f, d, f', d')
    requires forall p: nat :: Free(f', p) ==> !Owned(d', p)
    requires forall p: nat :: Owned(d', p) ==> Owned(d, p) || b.Has(p)
    requires b.End() <= |s'| <= OFF_MAX && |s| <= |s'| && (|s'| == |s| || |s'| == b.End())
    requires forall p: nat :: !b.Has(p) ==> At(s', p) == At(s, p) || Owned(d, p)
    ensures Stepped(f, d, s, f', d', s', lo, hi)
  {
    hide Free, Owned, Canonical, WellFormed;
  }

  /** Whether `size` bytes find a place in the first free extent that holds them. */
  function PlaceOutcome(f: FreeList, size: nat): (r: Outcome)
    ensures r == Done || r == NoSpace || r == TooLarge
  {
    match Choose(f, size, None)
    case None => NoSpace
    case Some(k) => if k + size > OFF_MAX then TooLarge else Done
  }

  lemma RoomToPlace(f: FreeList, d: DataList, s: seq<Byte>, lo: nat, hi: nat, size: nat)
    requires Sound(f, d, s, lo, hi) && Room(s, lo, size)
    ensures PlaceOutcome(f, size) == Done
  {
    RoomToAllocate(f, d, s, lo, hi, size, None);
  }

  /** A block of `n` bytes was put at `offset`, in the first free extent that holds it. */
  ghost predicate Placed(f: FreeList, d: DataList, offset: nat, n: nat, f': FreeList, d': DataList) {
    var chosen := Choose(f, n, None);
    chosen.Some? && var b := Block(chosen.value, n);
    d' == d[offset := b] && f' == Carved(f, b)
  }

  method WriteFresh(f: FreeList, d: DataList, s: seq<Byte>, offset: nat, buf: seq<Byte>, ghost lo: nat, ghost hi: nat)
    returns (r: Outcome, f': FreeList, d': DataList, s': seq<Byte>)
    requires Sound(f, d, s, lo, hi) && buf != []
    requires Vacant(d, offset, Block(0, |buf|))
    requires forall k | k in d && (k + d[k].size == offset || k == offset + |buf|) :: d[k].size > MERGE_LIMIT
    ensures r == PlaceOutcome(f, |buf|)
    ensures Room(s, lo, |buf|) ==> r == Done
    ensures r == Done ==> Placed(f, d, offset, |buf|, f', d') && Grew(s, s', lo, |buf|) && (Narrow(f) ==> Narrow(f'))
    ensures r == Done ==> Stepped(f, d, s, f', d', s', lo, hi)
    ensures r == Done ==> Content(d', s') == Overlay(Content(d, s), offset, buf)
    ensures r == Done && Packed(d) ==> Packed(d')
  {
    hide Free, Canonical, Content, Overlay, Narrow;
    if Room(s, lo, |buf|) { RoomToAllocate(f, d, s, lo, hi, |buf|, None); }
    var b;
    f', d', s' := f, d, s;
    b, f' := Allocate(f, |buf|, None);
    if b.None? {
      r := NoSpace;
      return;
    }
    var w := PWrite(s, b.value.location, buf);
    if w.None? {
      r := TooLarge;
      return;
    }
    ExtentStart(f, d, s, lo, hi, b.value.location);
    s' := w.value;
    d' := d[offset := b.value];
    r := Done;
    FreshContent(d, s, b.value, offset, buf);
    InsertBlock(d, offset, b.value);
    Occupied(f, d, s, f', d', s', b.value, lo, hi);
    if Narrow(f) { CarvedNarrow(f, b.value); }
    if Packed(d) { FreshPacked(d, offset, b.value); }
  }

  // ---------------------------------------------------------------- growing a block at its end

  /** `d` with the block at `first` grown by `n` bytes. */
  function Grow(d: DataList, first: nat, n: nat): DataList
    requires first in d
  {
    d[first := Block(d[first].location, d[first].size + n)]
  }

  /** No other block touches [offset, end]. */
  ghost predicate NoneElse(d: DataList, first: nat, offset: nat, end: nat) {
    forall k | k in d && k != first :: k + d[k].size < offset || end < k
  }

  lemma GrowOwned(d: DataList, first: nat, n: nat)
    requires WellFormed(d) && first in d && n > 0
    requires forall k | k in d && k > first :: first + d[first].size + n <= k
    requires forall p: nat :: Block(d[first].End(), n).Has(p) ==> !Owned(d, p)
    ensures WellFormed(Grow(d, first, n))
    ensures forall p: nat :: Owned(Grow(d, first, n), p) <==> Owned(d, p) || Block(d[first].End(), n).Has(p)
  {
    var b := Block(d[first].location, d[first].size + n);
    var rest: DataList := d - {first};
    RemoveBlock(d, first);
    assert Vacant(rest, first, b);
    assert forall p: nat :: b.Has(p) <==> d[first].Has(p) || Block(d[first].End(), n).Has(p);
    InsertBlock(rest, first, b);
    assert rest[first := b] == Grow(d, first, n);
  }

  lemma GrowContent(d: DataList, s: seq<Byte>, first: nat, n: nat, offset: nat, buf: seq<Byte>)
    requires WellFormed(d) && first in d && n > 0
    requires first <= offset <= first + d[first].size && offset + |buf| == first + d[first].size + n
    requires forall k | k in d && k > first :: first + d[first].size + n <= k
    requires forall p: nat :: Block(d[first].End(), n).Has(p) ==> !Owned(d, p)
    ensures Content(Grow(d, first, n), WriteAt(s, d[first].location + (offset - first), buf))
            == Overlay(Content(d, s), offset, buf)
  {
    hide Content, Overlay, Exclusive;
    var t := WriteAt(s, d[first].location + (offset - first), buf);
    var b := Block(d[first].location, d[first].size + n);
    var rest: DataList := d - {first};
    RemoveBlock(d, first);
    assert SameBytes(rest, s, t);
    forall x: nat ensures HoldsAt(d, s, first, b, t, offset, buf, x) {
      if first <= x < first + d[first].size { LocateIs(d, first, x); }
    }
    assert Vacant(rest, first, b);
    ReplacementOverlays(d, s, rest, first, b, t, offset, buf);
    assert rest[first := b] == Grow(d, first, n);
  }

  lemma GrowPacked(d: DataList, first: nat, n: nat)
    requires Packed(d) && first in d
    requires first + d[first].size + n !in d
    ensures Packed(Grow(d, first, n))
  {
  }

  /** The block at `first`, grown into free bytes behind it, absorbs the write. */
  lemma Grown(f: FreeList, d: DataList, s: seq<Byte>, first: nat, n: nat, offset: nat, buf: seq<Byte>, f': FreeList,
              lo: nat, hi: nat)
    requires Sound(f, d, s, lo, hi) && Canonical(f') && first in d && n > 0
    requires first <= offset <= first + d[first].size && offset + |buf| == first + d[first].size + n
    requires NoneElse(d, first, offset, offset + |buf|) && d[first].End() + n <= OFF_MAX && d[first].End() <= |s|
    requires var b := Block(d[first].End(), n);
      (forall p: nat :: b.Has(p) ==> Free(f, p)) && forall p: nat :: Free(f', p) <==> Free(f, p) && !b.Has(p)
    ensures var d', s' := Grow(d, first, n), WriteAt(s, d[first].location + (offset - first), buf);
      && Stepped(f, d, s, f', d', s', lo, hi) && Content(d', s') == Overlay(Content(d, s), offset, buf)
      && (Packed(d) ==> Packed(d'))
  {
    hide Free, Canonical, Content, Overlay;
    var b := Block(d[first].End(), n);
    var d', s' := Grow(d, first, n), WriteAt(s, d[first].location + (offset - first), buf);
    GrowContent(d, s, first, n, offset, buf);
    GrowOwned(d, first, n);
    Occupied(f, d, s, f', d', s', b, lo, hi);
    if Packed(d) { GrowPacked(d, first, n); }
  }

  /** The extent behind block `b` holds `n` more bytes. */
  predicate Appends(f: FreeList, b: Block, n: nat) {
    Choose(f, n, Some(b.End())) == Some(b.End())
  }

  /** Whether `n` bytes can be allocated, with a hint at the end of block `b`, and either kept there or given back. */
  function AppendOutcome(f: FreeList, b: Block, n: nat): (r: Outcome)
    ensures r != Panicked
  {
    match Choose(f, n, Some(b.End()))
    case None => NoSpace
    case Some(k) =>
      if k == b.End() then if k + n > OFF_MAX then TooLarge else Done
      else if k + n > USIZE_MAX || f[k] > USIZE_MAX then Overflow
      else Done
  }

  /** When all extents fit in 64 bits, giving back what was just allocated never overflows. */
  lemma AppendNeverOverflows(f: FreeList, d: DataList, s: seq<Byte>, lo: nat, hi: nat, b: Block, n: nat)
    requires Sound(f, d, s, lo, hi) && Narrow(f) && n <= OFF_MAX
    ensures AppendOutcome(f, b, n) != Overflow
  {
    var chosen := Choose(f, n, Some(b.End()));
    if chosen.Some? { ExtentStart(f, d, s, lo, hi, chosen.value); }
  }

  /** The second branch of the source: `grown` says that the block at `first` was extended; otherwise
      the speculative allocation was given back. */
  method TryAppend(f: FreeList, d: DataList, s: seq<Byte>, first: nat, offset: nat, buf: seq<Byte>,
                   ghost lo: nat, ghost hi: nat)
    returns (r: Outcome, grown: bool, f': FreeList, d': DataList, s': seq<Byte>)
    requires Sound(f, d, s, lo, hi)
    requires first in d && first < offset <= first + d[first].size < offset + |buf|
    requires NoneElse(d, first, offset, offset + |buf|)
    ensures r == AppendOutcome(f, d[first], offset + |buf| - (first + d[first].size))
    ensures hi - lo <= USIZE_MAX && |buf| <= OFF_MAX ==> r != Overflow
    ensures Room(s, lo, |buf|) ==> r == Done || r == Overflow
    ensures r == Done ==> Grew(s, s', lo, |buf|) && (Narrow(f) ==> Narrow(f'))
    ensures r == Done ==> (grown <==> Appends(f, d[first], offset + |buf| - (first + d[first].size)))
    ensures r == Done && !grown ==> f' == f && d' == d && s' == s
    ensures r == Done && grown ==> d' == Grow(d, first, offset + |buf| - (first + d[first].size))
    ensures r == Done && grown ==> Stepped(f, d, s, f', d', s', lo, hi)
    ensures r == Done && grown ==> Content(d', s') == Overlay(Content(d, s), offset, buf)
    ensures r == Done && Packed(d) ==> Packed(d')
  {
    hide Free, Owned, Canonical, Content, Overlay, Packed, NoneElse, WellFormed, Narrow;
    BlockBounds(f, d, s, lo, hi, first);
    var overlapSize := first + d[first].size - offset;
    var n := |buf| - overlapSize;
    if Room(s, lo, |buf|) { RoomToAllocate(f, d, s, lo, hi, n, Some(d[first].End())); }
    grown, d', s' := false, d, s;
    var b;
    b, f' := Allocate(f, n, Some(d[first].End()));
    if b.None? {
      r := NoSpace;
      return;
    }
    ExtentStart(f, d, s, lo, hi, b.value.location);
    if b.value.location == d[first].End() {
      var w := PWrite(s, b.value.location - overlapSize, buf);
      if w.None? {
        r := TooLarge;
        return;
      }
      s' := w.value;
      d' := Grow(d, first, n);
      grown := true;
      r := Done;
      Grown(f, d, s, first, n, offset, buf, f', lo, hi);
      if Narrow(f) { CarvedNarrow(f, b.value); }
    } else {
      ExtentFits(f, lo, hi, b.value.location);
      r, f' := GiveBack(f, f', b.value);
    }
  }

  /** Giving back a block that was just allocated restores the free list, unless the extent it was carved
      from does not fit in 64 bits. */
  method GiveBack(f: FreeList, f1: FreeList, b: Block) returns (r: Outcome, f': FreeList)
    requires Canonical(f) && b.size > 0
    requires b.location in f && f[b.location] >= b.size && f1 == Carved(f, b)
    ensures r == if b.End() > USIZE_MAX || f[b.location] > USIZE_MAX then Overflow else Done
    ensures r == Done ==> f' == f
  {
    hide Free, Canonical, Carved;
    CarvedFrees(f, b);
    CarvedJoins(f, b);
    var g := Deallocate(f1, b);
    if g.None? {
      return Overflow, f1;
    }
    CanonicalUnique(f, g.value);
    return Done, g.value;
  }

  lemma ExtentFits(f: FreeList, lo: nat, hi: nat, k: nat)
    requires Canonical(f) && k in f && forall p: nat :: Free(f, p) ==> lo <= p < hi
    ensures f[k] <= hi - lo
  {
    WithinRegion(f, lo, hi);
  }

  // ---------------------------------------------------------------- releasing blocks

  /** The free list and the extents are disjoint and lie in [lo, hi); the extents end within `OFF_MAX`. */
  ghost predicate Disjoint(f: FreeList, d: DataList, lo: nat, hi: nat) {
    && Canonical(f) && WellFormed(d)
    && (forall p: nat :: Free(f, p) ==> !Owned(d, p) && lo <= p < hi)
    && (forall p: nat :: Owned(d, p) ==> lo <= p < OFF_MAX && p < hi)
  }

  lemma SoundIsDisjoint(f: FreeList, d: DataList, s: seq<Byte>, lo: nat, hi: nat)
    requires Sound(f, d, s, lo, hi)
    ensures Disjoint(f, d, lo, hi)
  {
    hide Free, Owned, Canonical, WellFormed;
  }

  /** Blocks were only released. */
  lemma Released(f: FreeList, d: DataList, s: seq<Byte>, f': FreeList, d': DataList, lo: nat, hi: nat)
    requires Sound(f, d, s, lo, hi) && Disjoint(f', d', lo, hi) && Conserves(f, d, f', d')
    requires forall p: nat :: Owned(d', p) ==> Owned(d, p)
    ensures Stepped(f, d, s, f', d', s, lo, hi)
  {
    hide Free, Owned, Canonical, WellFormed;
  }

  ghost predicate Without(d: DataList, keys: seq<nat>, d': DataList) {
    && (forall k | k in d' :: k in d && d[k] == d'[k] && k !in keys)
    && (forall k | k in d && k !in keys :: k in d')
  }

  /** The bytes of `b` changed from in use to free. */
  lemma Freed(f: FreeList, d: DataList, f': FreeList, d': DataList, b: Block, lo: nat, hi: nat)
    requires Disjoint(f, d, lo, hi) && Canonical(f') && WellFormed(d')
    requires forall p: nat :: b.Has(p) ==> Owned(d, p)
    requires forall p: nat :: Free(f', p) <==> Free(f, p) || b.Has(p)
    requires forall p: nat :: Owned(d', p) <==> Owned(d, p) && !b.Has(p)
    ensures Disjoint(f', d', lo, hi) && Conserves(f, d, f', d')
  {
    hide Free, Owned, Canonical, WellFormed;
  }

  /** A block of bytes in use can be deallocated without overflow when the region fits in 64 bits. */
  method DeallocateOwned(f: FreeList, b: Block, ghost d: DataList, ghost lo: nat, ghost hi: nat)
    returns (r: Option<FreeList>)
    requires Disjoint(f, d, lo, hi) && b.size > 0
    requires forall p: nat :: b.Has(p) ==> Owned(d, p)
    ensures b.End() <= OFF_MAX && (r.None? <==> Overflows(f, b))
    ensures hi - lo <= USIZE_MAX ==> r.Some?
    ensures r.Some? ==> Canonical(r.value) && Checked(f, r.value)
    ensures r.Some? ==> forall p: nat :: Free(r.value, p) <==> Free(f, p) || b.Has(p)
  {
    hide Free, Owned, Canonical, WellFormed, Checked;
    WithinRegion(f, lo, hi);
    assert b.Has(b.location) && b.Has(b.End() - 1);
    assert Owned(d, b.location) && Owned(d, b.End() - 1);
    if hi - lo <= USIZE_MAX { NoOverflow(f, b, lo, hi); }
    r := Deallocate(f, b);
    if r.Some? { CoalescedChecked(f, b); }
  }

  /** Removes and deallocates one block. */
  method Release(f: FreeList, d: DataList, k: nat, ghost lo: nat, ghost hi: nat)
    returns (r: Outcome, f': FreeList, d': DataList)
    requires Disjoint(f, d, lo, hi) && k in d
    ensures r == if Overflows(f, d[k]) then Overflow else Done
    ensures d[k].size > 0 && d[k].End() <= OFF_MAX && (hi - lo <= USIZE_MAX ==> r == Done)
    ensures d' == d - {k}
    ensures r == Done ==> Disjoint(f', d', lo, hi) && Conserves(f, d, f', d') && Checked(f, f')
    ensures r == Done ==> forall p: nat :: Free(f', p) <==> Free(f, p) || d[k].Has(p)
    ensures forall p: nat :: Owned(d', p) ==> Owned(d, p)
  {
    hide Free, Owned, Canonical, Exclusive, Overflows, Checked;
    d' := d - {k};
    RemoveBlock(d, k);
    var g := DeallocateOwned(f, d[k], d, lo, hi);
    if g.None? {
      return Overflow, f, d';
    }
    r, f' := Done, g.value;
    Freed(f, d, f', d', d[k], lo, hi);
  }

  /** A block at one of `keys` holds byte `p` of the snapshot file. */
  ghost predicate HeldAt(d: DataList, keys: seq<nat>, p: nat) {
    exists k :: k in keys && k in d && d[k].Has(p)
  }

  /** The bytes of the blocks at `keys`. */
  ghost function BytesAt(d: DataList, keys: seq<nat>): iset<nat> {
    iset p: nat | HeldAt(d, keys, p)
  }

  lemma BytesAtNone(d: DataList)
    ensures BytesAt(d, []) == iset{}
  {
  }

  lemma BytesAtMore(d: DataList, keys: seq<nat>, k: nat)
    requires k in d
    ensures BytesAt(d, keys + [k]) == BytesAt(d, keys) + Bytes(d[k])
  {
    assert k in keys + [k];
    assert forall j :: j in keys + [k] <==> j in keys || j == k;
  }

  lemma BytesAtOwned(f: FreeList, d: DataList, keys: seq<nat>, lo: nat, hi: nat)
    requires Disjoint(f, d, lo, hi)
    ensures forall p: nat :: p in BytesAt(d, keys) ==> !Free(f, p)
  {
    hide Free;
    assert forall p: nat :: p in BytesAt(d, keys) ==> Owned(d, p);
  }

  /** The step that overflowed makes a stretch of all the bytes that were to be released. */
  lemma ReleaseOverflow(f: FreeList, f': FreeList, d: DataList, keys: seq<nat>, i: nat)
    requires i < |keys| && keys[i] in d && Overflows(f', d[keys[i]])
    requires d[keys[i]].size > 0 && d[keys[i]].End() <= OFF_MAX
    requires forall p: nat :: Free(f', p) <==> Free(f, p) || p in BytesAt(d, keys[..i])
    ensures TooWide(f, BytesAt(d, keys))
  {
    hide Free, Overflows, Stretch, TooWide;
    var b := d[keys[i]];
    OverflowStretch(f', b);
    assert Bytes(b) <= BytesAt(d, keys) && BytesAt(d, keys[..i]) <= BytesAt(d, keys);
    WiderStretch(f, BytesAt(d, keys), f', Bytes(b), Joined(f', b).location, Joined(f', b).End());
  }

  /** Releases blocks one by one. A sum overflows exactly when all of them together, with what is free already,
      make an extent that is too large. */
  method ReleaseAll(f: FreeList, d: DataList, keys: seq<nat>, ghost lo: nat, ghost hi: nat)
    returns (r: Outcome, f': FreeList, d': DataList)
    requires Disjoint(f, d, lo, hi)
    requires forall i | 0 <= i < |keys| :: keys[i] in d
    requires forall i, j | 0 <= i < j < |keys| :: keys[i] < keys[j]
    ensures r == Done || r == Overflow
    ensures r == Overflow <==> TooWide(f, BytesAt(d, keys))
    ensures hi - lo <= USIZE_MAX ==> r == Done
    ensures r == Done ==> Disjoint(f', d', lo, hi) && Conserves(f, d, f', d') && Without(d, keys, d') && Checked(f, f')
    ensures r == Done ==> forall p: nat :: Free(f', p) <==> Free(f, p) || p in BytesAt(d, keys)
    ensures forall p: nat :: Owned(d', p) ==> Owned(d, p)
  {
    hide Disjoint, Free, Owned, Overflows, TooWide, BytesAt, Checked, Conserves;
    r, f', d' := Done, f, d;
    BytesAtNone(d);
    ReleaseNone(f, d);
    for i := 0 to |keys|
      invariant Disjoint(f', d', lo, hi) && Conserves(f, d, f', d') && Checked(f, f')
      invariant Without(d, keys[..i], d')
      invariant forall p: nat :: Free(f', p) <==> Free(f, p) || p in BytesAt(d, keys[..i])
      invariant forall p: nat :: Owned(d', p) ==> Owned(d, p)
    {
      assert keys[i] !in keys[..i];
      ghost var f0, d0 := f', d';
      r, f', d' := Release(f', d', keys[i], lo, hi);
      assert d0[keys[i]] == d[keys[i]];
      if r != Done {
        ReleaseOverflow(f, f0, d, keys, i);
        return;
      }
      assert keys[..i + 1] == keys[..i] + [keys[i]];
      BytesAtMore(d, keys[..i], keys[i]);
      CheckedTrans(f, f0, f');
      ConservesTrans(f, d, f0, d0, f', d');
    }
    assert keys[..|keys|] == keys;
    r := Done;
    DisjointCanonical(f', d', lo, hi);
    BytesAtOwned(f, d, keys, lo, hi);
    CheckedNotWide(f, BytesAt(d, keys), f');
  }

  lemma ReleaseNone(f: FreeList, d: DataList)
    ensures Conserves(f, d, f, d) && Checked(f, f)
  {
  }

  lemma ConservesTrans(f: FreeList, d: DataList, f1: FreeList, d1: DataList, f2: FreeList, d2: DataList)
    requires Conserves(f, d, f1, d1) && Conserves(f1, d1, f2, d2)
    ensures Conserves(f, d, f2, d2)
  {
    hide Free, Owned;
  }

  lemma DisjointCanonical(f: FreeList, d: DataList, lo: nat, hi: nat)
    requires Disjoint(f, d, lo, hi)
    ensures Canonical(f) && WellFormed(d)
  {
  }

  // ---------------------------------------------------------------- copying overlaps into one block

  /** Block `b` of `t` is `fe` bytes from `first`, then `buf`, then `le` bytes from `last`. */
  ghost predicate Spliced(s: seq<Byte>, t: seq<Byte>, b: Block, from: nat, fe: nat, buf: seq<Byte>, tail: nat,
                          le: nat) {
    && (forall p: nat {:trigger At(t, p)} :: At(t, p) ==
          if b.location <= p < b.location + fe then At(s, from + (p - b.location))
          else if b.location + fe <= p < b.location + fe + |buf| then buf[p - b.location - fe]
          else if b.location + fe + |buf| <= p < b.End() then At(s, tail + (p - b.location - fe - |buf|))
          else At(s, p))
    && |t| == if b.End() <= |s| then |s| else b.End()
  }

  method Splice(s: seq<Byte>, b: Block, from: nat, fe: nat, buf: seq<Byte>, tail: nat, le: nat)
    returns (r: Option<seq<Byte>>)
    requires b.size == fe + |buf| + le && b.size > 0
    requires from + fe <= |s| && tail + le <= |s|
    requires from + fe <= b.location || b.End() <= from
    requires tail + le <= b.location || b.End() <= tail
    ensures r.Some? <==> b.End() <= OFF_MAX
    ensures r.Some? ==> Spliced(s, r.value, b, from, fe, buf, tail, le)
  {
    hide Copied, Spliced;
    var t1 := s;
    if fe != 0 {
      var m := MoveFileRange(s, from, b.location, fe);
      if m.None? { return None; }
      t1 := m.value;
    }
    assert Copied(s, t1, from, b.location, fe) && |s| <= |t1| by {
      CopiedNothing(s, from, b.location);
      CopiedGrows(s, t1, from, b.location, fe);
    }
    var w := PWrite(t1, b.location + fe, buf);
    if w.None? { return None; }
    var t2 := w.value;
    var t3 := t2;
    if le != 0 {
      var m := MoveFileRange(t2, tail, b.location + fe + |buf|, le);
      if m.None? { return None; }
      t3 := m.value;
    }
    assert Copied(t2, t3, tail, b.location + fe + |buf|, le) by { CopiedNothing(t2, tail, b.location + fe + |buf|); }
    SpliceOfCopies(s, t1, t2, t3, b, from, fe, buf, tail, le);
    r := Some(t3);
  }

  lemma CopiedNothing(s: seq<Byte>, from: nat, to: nat)
    ensures Copied(s, s, from, to, 0)
  {
  }

  lemma CopiedGrows(s: seq<Byte>, t: seq<Byte>, from: nat, to: nat, n: nat)
    ensures Copied(s, t, from, to, n) ==> |s| <= |t|
  {
  }

  lemma SpliceOfCopies(s: seq<Byte>, t1: seq<Byte>, t2: seq<Byte>, t3: seq<Byte>, b: Block, from: nat, fe: nat,
                       buf: seq<Byte>, tail: nat, le: nat)
    requires b.size == fe + |buf| + le && b.size > 0
    requires tail + le <= b.location || b.End() <= tail
    requires Copied(s, t1, from, b.location, fe)
    requires t2 == WriteAt(t1, b.location + fe, buf)
    requires Copied(t2, t3, tail, b.location + fe + |buf|, le)
    ensures Spliced(s, t3, b, from, fe, buf, tail, le)
  {
    var mid := b.location + fe + |buf|;
    forall p: nat | mid <= p < b.End() ensures At(t3, p) == At(s, tail + (p - mid)) {
      assert At(t2, tail + (p - mid)) == At(t1, tail + (p - mid));
    }
  }

  // ---------------------------------------------------------------- copy and defragment

  /** `keys` are the blocks to merge: ascending, each touching [offset, end]. A block left out does not
      overlap the write, and if it touches it, it is larger than the merge limit. */
  ghost predicate Gathered(d: DataList, offset: nat, end: nat, keys: seq<nat>) {
    keys != [] && Ascending(d, offset, end, keys) && LeftOutLarge(d, offset, end, keys)
  }

  /** The range of the merged block. */
  function MergeStart(keys: seq<nat>, offset: nat): nat
    requires keys != []
  {
    Min(keys[0], offset)
  }

  function MergeEnd(d: DataList, keys: seq<nat>, end: nat): nat
    requires keys != [] && keys[|keys| - 1] in d
  {
    Max(keys[|keys| - 1] + d[keys[|keys| - 1]].size, end)
  }

  function MergeSize(d: DataList, offset: nat, end: nat, keys: seq<nat>): nat
    requires keys != [] && keys[|keys| - 1] in d && offset <= end
  {
    MergeEnd(d, keys, end) - MergeStart(keys, offset)
  }

  lemma GatheredRange(d: DataList, offset: nat, end: nat, keys: seq<nat>, k: nat)
    requires Ordered(d) && Gathered(d, offset, end, keys) && offset <= end && k in d
    ensures k in keys ==> MergeStart(keys, offset) <= k && k + d[k].size <= MergeEnd(d, keys, end)
    ensures k !in keys ==> k + d[k].size <= MergeStart(keys, offset) || MergeEnd(d, keys, end) <= k
  {
    var first, last := keys[0], keys[|keys| - 1];
    if k in keys {
      var i :| 0 <= i < |keys| && keys[i] == k;
      assert first <= k <= last;
      assert k < last ==> k + d[k].size <= last;
    } else {
      assert k != first && k != last;
    }
  }

  lemma MergedVacant(d: DataList, d': DataList, b: Block, offset: nat, end: nat, keys: seq<nat>)
    requires Ordered(d) && offset <= end && Gathered(d, offset, end, keys) && Without(d, keys, d')
    requires b.size == MergeEnd(d, keys, end) - MergeStart(keys, offset)
    ensures Vacant(d', MergeStart(keys, offset), b) && Replaces(d, d', MergeStart(keys, offset), b)
  {
    forall j | j in d ensures j in keys ==> MergeStart(keys, offset) <= j && j + d[j].size <= MergeEnd(d, keys, end)
                      ensures j !in keys ==> j + d[j].size <= MergeStart(keys, offset) || MergeEnd(d, keys, end) <= j {
      GatheredRange(d, offset, end, keys, j);
    }
  }

  /** The merged block holds the write and, around it, what the outermost blocks held. */
  ghost predicate MergedBlock(d: DataList, s: seq<Byte>, b: Block, t: seq<Byte>, offset: nat, buf: seq<Byte>,
                              keys: seq<nat>)
    requires Ordered(d) && Gathered(d, offset, offset + |buf|, keys)
  {
    var fe := offset - MergeStart(keys, offset);
    var le := MergeEnd(d, keys, offset + |buf|) - (offset + |buf|);
    var first, last := keys[0], keys[|keys| - 1];
    b.size == fe + |buf| + le && Spliced(s, t, b, d[first].location, fe, buf, d[last].End() - le, le)
  }

  lemma MergedHolds(d: DataList, s: seq<Byte>, b: Block, t: seq<Byte>, offset: nat, buf: seq<Byte>, keys: seq<nat>,
                    x: nat)
    requires Ordered(d) && Gathered(d, offset, offset + |buf|, keys)
    requires MergedBlock(d, s, b, t, offset, buf, keys)
    ensures HoldsAt(d, s, MergeStart(keys, offset), b, t, offset, buf, x)
  {
    var k, end := MergeStart(keys, offset), offset + |buf|;
    var first, last := keys[0], keys[|keys| - 1];
    if k <= x < offset { LocateIs(d, first, x); }
    if end <= x < k + b.size { LocateIs(d, last, x); }
    assert k <= x ==> At(t, b.location + (x - k)) == At(t, b.location + (x - k));
  }

  lemma MergedContent(d: DataList, s: seq<Byte>, d': DataList, b: Block, t: seq<Byte>, offset: nat, buf: seq<Byte>,
                      keys: seq<nat>)
    requires WellFormed(d) && WellFormed(d')
    requires Gathered(d, offset, offset + |buf|, keys) && Without(d, keys, d')
    requires MergedBlock(d, s, b, t, offset, buf, keys)
    requires SameBytes(d', s, t)
    ensures Content(d'[MergeStart(keys, offset) := b], t) == Overlay(Content(d, s), offset, buf)
  {
    MergedVacant(d, d', b, offset, offset + |buf|, keys);
    forall x: nat ensures HoldsAt(d, s, MergeStart(keys, offset), b, t, offset, buf, x) {
      MergedHolds(d, s, b, t, offset, buf, keys, x);
    }
    ReplacementOverlays(d, s, d', MergeStart(keys, offset), b, t, offset, buf);
  }

  /** A block that is left out and touches the merged range is large, or the merged block is. */
  lemma NeighbourLarge(d: DataList, offset: nat, end: nat, keys: seq<nat>, j: nat, n: nat)
    requires Ordered(d) && Packed(d) && offset <= end && Gathered(d, offset, end, keys)
    requires j in d && j !in keys && n == MergeEnd(d, keys, end) - MergeStart(keys, offset)
    ensures j + d[j].size == MergeStart(keys, offset) || j == MergeEnd(d, keys, end) ==>
              d[j].size > MERGE_LIMIT || n > MERGE_LIMIT
  {
    var first, last := keys[0], keys[|keys| - 1];
    GatheredRange(d, offset, end, keys, first);
    GatheredRange(d, offset, end, keys, last);
    assert n >= d[first].size && n >= d[last].size;
  }

  lemma MergedPacked(d: DataList, d': DataList, b: Block, offset: nat, end: nat, keys: seq<nat>)
    requires Ordered(d) && Packed(d) && offset <= end
    requires Gathered(d, offset, end, keys) && Without(d, keys, d')
    requires b.size == MergeEnd(d, keys, end) - MergeStart(keys, offset)
    ensures Packed(d'[MergeStart(keys, offset) := b])
  {
    hide LeftOutLarge, Ordered;
    forall j | j in d'
      ensures j + d[j].size == MergeStart(keys, offset) || j == MergeEnd(d, keys, end) ==>
                d[j].size > MERGE_LIMIT || b.size > MERGE_LIMIT {
      NeighbourLarge(d, offset, end, keys, j, b.size);
    }
  }

  lemma IntervalsApart(b: Block, c: Block)
    requires b.size > 0 && c.size > 0
    requires forall p: nat :: b.Has(p) ==> !c.Has(p)
    ensures b.End() <= c.location || c.End() <= b.location
  {
    var p := Max(b.location, c.location);
    assert b.Has(p) || !b.Has(p);
  }

  /** How much of the outermost overlaps lies outside the write. */
  lemma OuterParts(f: FreeList, d: DataList, s: seq<Byte>, offset: nat, end: nat, keys: seq<nat>, lo: nat, hi: nat)
    requires Sound(f, d, s, lo, hi) && Gathered(d, offset, end, keys) && offset <= end
    ensures keys != [] && keys[0] in d && keys[|keys| - 1] in d && Canonical(f) && |s| <= OFF_MAX
    ensures var first, last := d[keys[0]], d[keys[|keys| - 1]];
      var fe, le := offset - MergeStart(keys, offset), MergeEnd(d, keys, end) - end;
      && fe == (if offset > keys[0] then offset - keys[0] else 0)
      && le == (if keys[|keys| - 1] + last.size > end then keys[|keys| - 1] + last.size - end else 0)
      && fe <= first.size && le <= last.size && first.End() <= |s| && last.End() <= |s|
      && first.size > 0 && last.size > 0 && fe + (end - offset) + le > 0
  {
    BlockBounds(f, d, s, lo, hi, keys[0]);
    BlockBounds(f, d, s, lo, hi, keys[|keys| - 1]);
  }

  /** A block of free bytes does not meet a block of the file. */
  lemma FreeApart(f: FreeList, d: DataList, s: seq<Byte>, lo: nat, hi: nat, b: Block, k: nat)
    requires Sound(f, d, s, lo, hi) && k in d && b.size > 0 && forall p: nat :: b.Has(p) ==> Free(f, p)
    ensures b.End() <= d[k].location || d[k].End() <= b.location
  {
    hide Free;
    OwnedByBlock(d, k);
    IntervalsApart(b, d[k]);
  }

  /** Allocates the merged block and copies the write and the outer parts of the overlaps into it. */
  method CopyOverlaps(f: FreeList, d: DataList, s: seq<Byte>, offset: nat, buf: seq<Byte>, keys: seq<nat>,
                      ghost lo: nat, ghost hi: nat)
    returns (r: Outcome, b: Block, f': FreeList, s': seq<Byte>)
    requires Sound(f, d, s, lo, hi)
    requires Gathered(d, offset, offset + |buf|, keys)
    ensures r == PlaceOutcome(f, MergeSize(d, offset, offset + |buf|, keys))
    ensures r == Done ==>
              b == Block(Choose(f, MergeSize(d, offset, offset + |buf|, keys), None).value,
                         MergeSize(d, offset, offset + |buf|, keys))
    ensures r == Done ==> f' == Carved(f, b) && b.location <= Max(|s|, lo)
    ensures r == Done ==> MergedBlock(d, s, b, s', offset, buf, keys)
    ensures r == Done ==> Canonical(f') && b.size > 0
    ensures r == Done ==> forall p: nat :: b.Has(p) ==> Free(f, p)
    ensures r == Done ==> forall p: nat :: Free(f', p) <==> Free(f, p) && !b.Has(p)
    ensures r == Done ==> b.End() <= |s'| <= OFF_MAX && |s| <= |s'| && (|s'| == |s| || |s'| == b.End())
    ensures r == Done ==> forall p: nat :: !b.Has(p) ==> At(s', p) == At(s, p)
  {
    hide Free, Owned, Canonical, Spliced, WellFormed, MergeStart, MergeEnd, Sound, Gathered, Room, MergedBlock;
    OuterParts(f, d, s, offset, offset + |buf|, keys, lo, hi);
    var first, last, end := keys[0], keys[|keys| - 1], offset + |buf|;
    var firstExclusive := if offset > first then offset - first else 0;
    var lastExclusive := if last + d[last].size > end then last + d[last].size - end else 0;
    var needSpace := firstExclusive + |buf| + lastExclusive;
    assert needSpace == MergeSize(d, offset, end, keys);
    s', b := s, Block(0, 0);
    var a;
    a, f' := Allocate(f, needSpace, None);
    if a.None? {
      r := NoSpace;
      return;
    }
    b := a.value;
    ExtentStart(f, d, s, lo, hi, b.location);
    FreeApart(f, d, s, lo, hi, b, first);
    FreeApart(f, d, s, lo, hi, b, last);
    var t := Splice(s, b, d[first].location, firstExclusive, buf, d[last].End() - lastExclusive, lastExclusive);
    if t.None? {
      r := TooLarge;
      return;
    }
    r, s' := Done, t.value;
    MergedBlockIs(f, d, s, b, s', offset, buf, keys, lo, hi);
    SplicedFrame(s, s', b, d[first].location, firstExclusive, buf, d[last].End() - lastExclusive, lastExclusive);
  }

  lemma MergedBlockIs(f: FreeList, d: DataList, s: seq<Byte>, b: Block, t: seq<Byte>, offset: nat, buf: seq<Byte>,
                      keys: seq<nat>, lo: nat, hi: nat)
    requires Sound(f, d, s, lo, hi) && Gathered(d, offset, offset + |buf|, keys)
    requires var fe := offset - MergeStart(keys, offset);
      var le := MergeEnd(d, keys, offset + |buf|) - (offset + |buf|);
      && le <= d[keys[|keys| - 1]].size && b.size == fe + |buf| + le
      && Spliced(s, t, b, d[keys[0]].location, fe, buf, d[keys[|keys| - 1]].End() - le, le)
    ensures MergedBlock(d, s, b, t, offset, buf, keys)
  {
    hide Spliced;
  }

  lemma SplicedFrame(s: seq<Byte>, t: seq<Byte>, b: Block, from: nat, fe: nat, buf: seq<Byte>, tail: nat, le: nat)
    requires b.size == fe + |buf| + le && Spliced(s, t, b, from, fe, buf, tail, le)
    ensures forall p: nat :: !b.Has(p) ==> At(t, p) == At(s, p)
    ensures |t| == Max(|s|, b.End())
  {
  }

  /** Whether the blocks at `keys` can be merged with the write: there must be a place for the merged block, and
      then giving them back must not make too large an extent. */
  ghost function MergeOutcome(f: FreeList, d: DataList, offset: nat, end: nat, keys: seq<nat>): Outcome
    requires keys != [] && keys[|keys| - 1] in d && offset <= end
  {
    var size := MergeSize(d, offset, end, keys);
    var placed := PlaceOutcome(f, size);
    if placed != Done then placed
    else if TooWide(Carved(f, Block(Choose(f, size, None).value, size)), BytesAt(d, keys)) then Overflow
    else Done
  }

  method Defragment(f: FreeList, d: DataList, s: seq<Byte>, offset: nat, buf: seq<Byte>, keys: seq<nat>,
                    ghost lo: nat, ghost hi: nat)
    returns (r: Outcome, f': FreeList, d': DataList, s': seq<Byte>)
    requires Sound(f, d, s, lo, hi)
    requires Gathered(d, offset, offset + |buf|, keys)
    ensures r == MergeOutcome(f, d, offset, offset + |buf|, keys)
    ensures hi - lo <= USIZE_MAX ==> r != Overflow
    ensures Room(s, lo, MergeSize(d, offset, offset + |buf|, keys)) ==> r == Done || r == Overflow
    ensures r == Done ==> MergedInto(f, d, offset, offset + |buf|, keys, d')
    ensures r == Done ==> Grew(s, s', lo, MergeSize(d, offset, offset + |buf|, keys)) && (Narrow(f) ==> Narrow(f'))
    ensures r == Done ==> Stepped(f, d, s, f', d', s', lo, hi)
    ensures r == Done ==> Content(d', s') == Overlay(Content(d, s), offset, buf)
    ensures r == Done && Packed(d) ==> Packed(d')
  {
    hide Free, Owned, Canonical, Content, Overlay, Spliced, Packed, Without, Narrow, Checked, TooWide, BytesAt, Choose,
         Carved, Stepped, Conserves;
    if Room(s, lo, MergeSize(d, offset, offset + |buf|, keys)) {
      RoomToPlace(f, d, s, lo, hi, MergeSize(d, offset, offset + |buf|, keys));
    }
    d' := d;
    var b;
    r, b, f', s' := CopyOverlaps(f, d, s, offset, buf, keys, lo, hi);
    if r != Done {
      return;
    }
    ghost var f1 := f';
    r, f', d' := ReleaseAll(f', d, keys, lo, hi);
    if r != Done {
      return;
    }
    if Narrow(f) {
      CarvedNarrow(f, b);
      CheckedNarrow(f1, f');
    }
    Defragmented(f, d, s, f1, f', d', s', b, offset, buf, keys, lo, hi);
    MergedIntoIs(f, d, offset, offset + |buf|, keys, d', b);
    d' := d'[Min(keys[0], offset) := b];
  }

  /** The blocks at `keys` have become one block, in the first free extent that holds it; the others are as before. */
  ghost predicate MergedInto(f: FreeList, d: DataList, offset: nat, end: nat, keys: seq<nat>, d': DataList)
    requires keys != [] && keys[|keys| - 1] in d && offset <= end
  {
    && MergeStart(keys, offset) in d'
    && (forall k | k != MergeStart(keys, offset) :: k in d' <==> k in d && k !in keys)
    && (forall k | k in d' && k != MergeStart(keys, offset) :: d'[k] == d[k])
    && d'[MergeStart(keys, offset)].size == MergeSize(d, offset, end, keys)
    && Some(d'[MergeStart(keys, offset)].location) == Choose(f, MergeSize(d, offset, end, keys), None)
  }

  lemma MergedIntoIs(f: FreeList, d: DataList, offset: nat, end: nat, keys: seq<nat>, d1: DataList, b: Block)
    requires keys != [] && keys[|keys| - 1] in d && offset <= end && Without(d, keys, d1)
    requires b.size == MergeSize(d, offset, end, keys) && Some(b.location) == Choose(f, b.size, None)
    ensures MergedInto(f, d, offset, end, keys, d1[MergeStart(keys, offset) := b])
  {
    hide Choose;
  }

  /** The blocks at `keys` were given back after `b` was filled: with `b` in their place the file is overlaid. */
  lemma Defragmented(f: FreeList, d: DataList, s: seq<Byte>, f1: FreeList, f': FreeList, d1: DataList, s': seq<Byte>,
                     b: Block, offset: nat, buf: seq<Byte>, keys: seq<nat>, lo: nat, hi: nat)
    requires Sound(f, d, s, lo, hi) && Gathered(d, offset, offset + |buf|, keys)
    requires MergedBlock(d, s, b, s', offset, buf, keys) && b.size > 0
    requires forall p: nat :: b.Has(p) ==> Free(f, p)
    requires forall p: nat :: Free(f1, p) <==> Free(f, p) && !b.Has(p)
    requires b.End() <= |s'| <= OFF_MAX && |s| <= |s'| && (|s'| == |s| || |s'| == b.End())
    requires forall p: nat :: !b.Has(p) ==> At(s', p) == At(s, p)
    requires Disjoint(f', d1, lo, hi) && Conserves(f1, d, f', d1) && Without(d, keys, d1)
    requires forall p: nat :: Owned(d1, p) ==> Owned(d, p)
    ensures var d' := d1[MergeStart(keys, offset) := b];
      && Stepped(f, d, s, f', d', s', lo, hi) && Content(d', s') == Overlay(Content(d, s), offset, buf)
      && (Packed(d) ==> Packed(d'))
  {
    hide Free, Owned, Canonical, Content, Overlay, Packed, Without;
    var d' := d1[MergeStart(keys, offset) := b];
    assert SameBytes(d1, s, s');
    MergedContent(d, s, d1, b, s', offset, buf, keys);
    MergedVacant(d, d1, b, offset, offset + |buf|, keys);
    if Packed(d) { MergedPacked(d, d1, b, offset, offset + |buf|, keys); }
    InsertBlock(d1, MergeStart(keys, offset), b);
    Occupied(f, d, s, f', d', s', b, lo, hi);
  }

  lemma OwnedByBlock(d: DataList, k: nat)
    requires k in d
    ensures forall p: nat :: d[k].Has(p) ==> Owned(d, p)
  {
  }

  // ---------------------------------------------------------------- encode_write

  /** Blocks above the merge limit that only touch the write are left as they are. */
  function Mergeable(d: DataList, keys: seq<nat>, offset: nat, end: nat): seq<nat>
    requires forall i | 0 <= i < |keys| :: keys[i] in d
  {
    var a :=
      if keys != [] && d[keys[0]].size > MERGE_LIMIT && keys[0] + d[keys[0]].size == offset then keys[1..] else keys;
    if a != [] && d[a[|a| - 1]].size > MERGE_LIMIT && a[|a| - 1] == end then a[..|a| - 1] else a
  }

  /** Blocks left out of `keys` do not overlap [offset, end), and are large when they touch it. */
  ghost predicate LeftOutLarge(d: DataList, offset: nat, end: nat, keys: seq<nat>) {
    && (forall k | k in d && k !in keys :: k + d[k].size <= offset || end <= k)
    && (forall k | k in d && k !in keys && (k + d[k].size == offset || k == end) :: d[k].size > MERGE_LIMIT)
  }

  lemma MergeableLeavesLarge(d: DataList, keys: seq<nat>, offset: nat, end: nat)
    requires Touching(d, end + 1, offset, keys) && offset <= end
    ensures LeftOutLarge(d, offset, end, Mergeable(d, keys, offset, end))
  {
    hide Mergeable;
    forall k | k in d && k !in Mergeable(d, keys, offset, end)
      ensures k + d[k].size <= offset || end <= k
      ensures k + d[k].size == offset || k == end ==> d[k].size > MERGE_LIMIT
    {
      if k in keys {
        var i :| 0 <= i < |keys| && keys[i] == k;
        DroppedIsLarge(d, keys, offset, end, i);
      }
    }
  }

  /** `keys` are blocks in ascending order that touch [offset, end]. */
  ghost predicate Ascending(d: DataList, offset: nat, end: nat, keys: seq<nat>) {
    && (forall i | 0 <= i < |keys| :: keys[i] in d && keys[i] <= end && keys[i] + d[keys[i]].size >= offset)
    && (forall i, j | 0 <= i < j < |keys| :: keys[i] < keys[j])
  }

  lemma SliceAscending(d: DataList, offset: nat, end: nat, keys: seq<nat>, i: nat, j: nat)
    requires Ascending(d, offset, end, keys) && i <= j <= |keys|
    ensures Ascending(d, offset, end, keys[i..j])
  {
    assert forall n | 0 <= n < j - i :: keys[i..j][n] == keys[i + n];
  }

  lemma MergeableAscending(d: DataList, keys: seq<nat>, offset: nat, end: nat)
    requires Ascending(d, offset, end, keys)
    ensures Ascending(d, offset, end, Mergeable(d, keys, offset, end))
  {
    hide Ascending;
    assert forall i | 0 <= i < |keys| :: keys[i] in d by { AscendingKeys(d, offset, end, keys); }
    if keys != [] {
      SliceAscending(d, offset, end, keys, 1, |keys|);
      assert keys[1..] == keys[1..|keys|];
    }
    var a :=
      if keys != [] && d[keys[0]].size > MERGE_LIMIT && keys[0] + d[keys[0]].size == offset then keys[1..] else keys;
    if a != [] {
      SliceAscending(d, offset, end, a, 0, |a| - 1);
      assert a[..|a| - 1] == a[0..|a| - 1];
    }
  }

  lemma AscendingKeys(d: DataList, offset: nat, end: nat, keys: seq<nat>)
    ensures Ascending(d, offset, end, keys) ==> forall i | 0 <= i < |keys| :: keys[i] in d
  {
  }

  lemma MergeableGathered(d: DataList, keys: seq<nat>, offset: nat, end: nat)
    requires Touching(d, end + 1, offset, keys) && offset <= end
    requires Mergeable(d, keys, offset, end) != []
    ensures Gathered(d, offset, end, Mergeable(d, keys, offset, end))
  {
    hide Mergeable;
    MergeableLeavesLarge(d, keys, offset, end);
    MergeableAscending(d, keys, offset, end);
  }

  /** Only a large block at either end of the overlaps is dropped. */
  lemma DroppedIsLarge(d: DataList, keys: seq<nat>, offset: nat, end: nat, i: nat)
    requires forall i | 0 <= i < |keys| :: keys[i] in d
    requires i < |keys|
    ensures keys[i] in Mergeable(d, keys, offset, end)
         || (d[keys[i]].size > MERGE_LIMIT && (keys[i] + d[keys[i]].size == offset || keys[i] == end))
  {
    var m := Mergeable(d, keys, offset, end);
    var front := d[keys[0]].size > MERGE_LIMIT && keys[0] + d[keys[0]].size == offset;
    var a := if front then keys[1..] else keys;
    if !front || i > 0 {
      var j := if front then i - 1 else i;
      assert a[j] == keys[i];
      if j < |m| { assert m[j] == keys[i]; }
    }
  }

  /** Where the write and every block of the file end. */
  function Reach(d: DataList, end: nat): (e: nat)
    ensures end <= e
  {
    if d.Keys == {} then end
    else
      var last := Greatest(d.Keys);
      Max(last + d[last].size, end)
  }

  lemma ReachIs(d: DataList, end: nat)
    requires Ordered(d)
    ensures forall k | k in d :: k + d[k].size <= Reach(d, end)
    ensures Reach(d, end) == end || exists k :: k in d && k + d[k].size == Reach(d, end)
  {
  }

  /** A block larger than the merge limit ends at `offset` and another starts there. */
  ghost predicate BetweenLarge(d: DataList, offset: nat) {
    && (offset in d && d[offset].size > MERGE_LIMIT)
    && (exists k :: k in d && k + d[k].size == offset && d[k].size > MERGE_LIMIT)
  }

  /** Some block covers `offset`, or ends there. */
  ghost predicate Touched(d: DataList, offset: nat) {
    exists k :: k in d && k <= offset <= k + d[k].size
  }

  /** The write leaves the extents in order: it is not empty, or a block absorbs it. */
  ghost predicate Absorbed(d: DataList, offset: nat, buf: seq<Byte>) {
    buf != [] || (Touched(d, offset) && !BetweenLarge(d, offset))
  }

  /** No block touches the write but a large one that starts where it ends. */
  ghost predicate Clear(d: DataList, offset: nat, end: nat) {
    forall k | k in d :: k + d[k].size < offset || end < k || (k == end && d[k].size > MERGE_LIMIT)
  }

  lemma TouchedKeys(d: DataList, keys: seq<nat>, offset: nat)
    requires Touching(d, offset + 1, offset, keys)
    ensures Touched(d, offset) <==> keys != []
  {
    if Touched(d, offset) {
      var k :| k in d && k <= offset <= k + d[k].size;
      assert k in keys;
    }
    if keys != [] { assert keys[0] in d; }
  }

  lemma EmptyBlockAt(d: DataList, s: seq<Byte>, offset: nat, b: Block, x: nat)
    requires Ordered(d) && b.size == 0
    ensures Mapped(d[offset := b], x) <==> Mapped(d, x) && !Covers(d, offset, x)
    ensures Mapped(d[offset := b], x) ==> Locate(d[offset := b], x) == Locate(d, x)
  {
    var e := d[offset := b];
    if Mapped(d, x) && !Covers(d, offset, x) {
      var k :| Covers(d, k, x);
      assert Covers(e, k, x);
    }
    if Mapped(e, x) {
      var k :| Covers(e, k, x) && Locate(e, x) == e[k].location + (x - k);
      assert k != offset && Covers(d, k, x);
      LocateIs(d, k, x);
    }
  }

  /** The fresh-block branch for an empty write: a block of size zero is put at `offset`, in place of
      whatever block starts there. */
  lemma EmptyBlockContent(d: DataList, s: seq<Byte>, offset: nat, b: Block)
    requires Ordered(d) && b.size == 0
    ensures Content(d[offset := b], s) == Content(d, s) <==> offset !in d
  {
    var e := d[offset := b];
    forall x: nat ensures Mapped(e, x) <==> Mapped(d, x) && !Covers(d, offset, x)
                  ensures Mapped(e, x) ==> Locate(e, x) == Locate(d, x) {
      EmptyBlockAt(d, s, offset, b, x);
    }
    if offset in d {
      FrontMapped(d, offset);
      hide Mapped, Locate, Ordered;
      assert offset in Content(d, s) && offset !in Content(e, s);
    } else {
      assert forall x: nat :: !Covers(d, offset, x);
      hide Mapped, Locate, Ordered, Covers;
      assert Content(e, s) == Content(d, s);
    }
  }

  lemma FrontMapped(d: DataList, k: nat)
    requires Ordered(d) && k in d
    ensures Covers(d, k, k) && Mapped(d, k)
  {
    assert Covers(d, k, k);
  }

  method InsertEmpty(f: FreeList, d: DataList, s: seq<Byte>, offset: nat, ghost lo: nat, ghost hi: nat)
    returns (r: Outcome, f': FreeList, d': DataList, s': seq<Byte>)
    requires Sound(f, d, s, lo, hi)
    ensures r == Done && f' == f && s' == s && !Ordered(d')
    ensures Content(d', s') == Content(d, s) <==> offset !in d
  {
    ghost var k := TailExtent(f, d, s, lo, hi);
    SoundOrdered(f, d, s, lo, hi);
    assert Canonical(f);
    hide Sound, Content, WellFormed, Free, Canonical, Choose, Carved, WriteAt;
    var b;
    b, f' := Allocate(f, 0, None);
    NothingCarved(f, b.value);
    var w := PWrite(s, b.value.location, []);
    NothingWritten(s, b.value.location);
    s', d', r := w.value, d[offset := b.value], Done;
    EmptyBlockContent(d, s, offset, b.value);
    assert offset in d' && d'[offset].size == 0;
  }

  lemma NothingCarved(f: FreeList, b: Block)
    requires b.size == 0 && b.location in f && Canonical(f)
    ensures Carved(f, b) == f
  {
  }

  lemma NothingWritten(s: seq<Byte>, offset: nat)
    ensures WriteAt(s, offset, []) == s
  {
    var t := WriteAt(s, offset, []);
    assert forall p: nat | p < |s| :: t[p] == At(t, p) == At(s, p) == s[p];
  }

  lemma EmptyMergeable(d: DataList, keys: seq<nat>, offset: nat)
    requires Ordered(d) && Touching(d, offset + 1, offset, keys) && |keys| != 1
    ensures BetweenLarge(d, offset) <==> Mergeable(d, keys, offset, offset) == [] && offset in d
    ensures Mergeable(d, keys, offset, offset) == [] <==> !Touched(d, offset) || BetweenLarge(d, offset)
  {
    TouchedKeys(d, keys, offset);
    if BetweenLarge(d, offset) {
      var k :| k in d && k + d[k].size == offset && d[k].size > MERGE_LIMIT;
      TwoKeys(d, keys, offset, k);
      assert keys[1..] == [offset];
    }
  }

  /** A block that ends at `offset` and one that starts there are the only ones that touch it. */
  lemma TwoKeys(d: DataList, keys: seq<nat>, offset: nat, k: nat)
    requires Ordered(d) && Touching(d, offset + 1, offset, keys)
    requires offset in d && k in d && k + d[k].size == offset
    ensures keys == [k, offset]
  {
    assert forall n | 2 <= n < |keys| :: keys[0] < keys[1] < keys[n];
    assert forall n | 0 <= n < |keys| :: keys[n] == k || keys[n] == offset;
    assert offset in keys;
    var last := keys[|keys| - 1];
    assert |keys| <= 2;
    var i :| 0 <= i < |keys| && keys[i] == k;
    var j :| 0 <= j < |keys| && keys[j] == offset;
    assert i == 0 && j == 1;
  }

  /** What `encode_write` has done: the content is the overlay, no byte was gained or lost, other files were left
      alone and neighbours are not fragmented; unless the write is empty and no block absorbs it. */
  ghost predicate Encoded(f: FreeList, d: DataList, s: seq<Byte>, offset: nat, buf: seq<Byte>,
                          f': FreeList, d': DataList, s': seq<Byte>, lo: nat, hi: nat) {
    && (Stepped(f, d, s, f', d', s', lo, hi) <==> Absorbed(d, offset, buf))
    && (Content(d', s') == Overlay(Content(d, s), offset, buf) <==> buf != [] || !BetweenLarge(d, offset))
    && (Absorbed(d, offset, buf) && Packed(d) ==> Packed(d'))
    && (!Absorbed(d, offset, buf) ==> f' == f && s' == s && !Ordered(d'))
    && Grew(s, s', lo, Reach(d, offset + |buf|))
  }

  /** Any extents with content `c` absorb an empty write at `offset`: a byte next to it is recorded, and there is
      not more than the merge limit on either side. */
  ghost predicate Absorbs(c: imap<nat, Byte>, offset: nat) {
    && (offset in c || (offset > 0 && offset - 1 in c))
    && !(offset > MERGE_LIMIT && forall x: nat | offset - MERGE_LIMIT - 1 <= x <= offset + MERGE_LIMIT :: x in c)
  }

  lemma ContentAbsorbs(d: DataList, s: seq<Byte>, offset: nat, buf: seq<Byte>)
    requires Ordered(d) && (buf == [] ==> Absorbs(Content(d, s), offset))
    ensures Absorbed(d, offset, buf)
  {
    if buf == [] {
      var x: nat := if offset in Content(d, s) then offset else offset - 1;
      assert Mapped(d, x);
      var k: nat :| Covers(d, k, x);
      assert k in d && k <= offset <= k + d[k].size;
      assert !BetweenLarge(d, offset) by {
        if BetweenLarge(d, offset) { LargeAround(d, s, offset); }
      }
    }
  }

  lemma LargeAround(d: DataList, s: seq<Byte>, offset: nat)
    requires BetweenLarge(d, offset)
    ensures offset > MERGE_LIMIT
    ensures forall x: nat | offset - MERGE_LIMIT - 1 <= x <= offset + MERGE_LIMIT :: x in Content(d, s)
  {
    var k :| k in d && k + d[k].size == offset && d[k].size > MERGE_LIMIT;
    forall x: nat | offset - MERGE_LIMIT - 1 <= x <= offset + MERGE_LIMIT ensures Mapped(d, x) {
      assert Covers(d, if x < offset then k else offset, x);
    }
  }

  lemma StepEncoded(f: FreeList, d: DataList, s: seq<Byte>, offset: nat, buf: seq<Byte>,
                    f': FreeList, d': DataList, s': seq<Byte>, lo: nat, hi: nat, n: nat)
    requires Absorbed(d, offset, buf) && Stepped(f, d, s, f', d', s', lo, hi)
    requires Content(d', s') == Overlay(Content(d, s), offset, buf) && (Packed(d) ==> Packed(d'))
    requires Grew(s, s', lo, n) && n <= Reach(d, offset + |buf|)
    ensures Encoded(f, d, s, offset, buf, f', d', s', lo, hi)
  {
    hide Stepped, Content, Overlay, Packed, BetweenLarge, Touched, Reach;
  }

  lemma EmptyEncoded(f: FreeList, d: DataList, s: seq<Byte>, offset: nat, d': DataList, lo: nat, hi: nat)
    requires !Absorbed(d, offset, []) && !Ordered(d')
    requires Content(d', s) == Content(d, s) <==> !BetweenLarge(d, offset)
    ensures Encoded(f, d, s, offset, [], f, d', s, lo, hi)
  {
    UnorderedNotStepped(f, d, s, f, d', s, lo, hi);
    EmptyOverlay(Content(d, s), offset);
    hide Stepped, Content, Overlay, Packed, BetweenLarge, Touched, Reach;
  }

  // ---------------------------------------------------------------- the extents after a write

  /** Block `k` overlaps [offset, end) or borders on it. */
  ghost predicate Touches(d: DataList, k: nat, offset: nat, end: nat) {
    k in d && k <= end && offset <= k + d[k].size
  }

  /** Block `k` is to be merged with the write: it touches it, and is not a block of more than 1 MiB that only borders
      on it. */
  ghost predicate Merges(d: DataList, k: nat, offset: nat, end: nat) {
    Touches(d, k, offset, end) && !(d[k].size > 0x10_0000 && (k + d[k].size == offset || k == end))
  }

  /** Only block `k` touches the write. */
  ghost predicate Alone(d: DataList, k: nat, offset: nat, end: nat) {
    Touches(d, k, offset, end) && forall j: nat | Touches(d, j, offset, end) :: j == k
  }

  /** The write lies in block `k`. */
  ghost predicate Holds(d: DataList, k: nat, offset: nat, end: nat)
    requires k in d
  {
    k <= offset && end <= k + d[k].size
  }

  /** The write starts in block `k` or right behind it, and ends in bytes behind it that are all free. */
  ghost predicate Extends(f: FreeList, d: DataList, k: nat, offset: nat, end: nat)
    requires k in d
  {
    && k < offset <= k + d[k].size < end
    && d[k].End() in f && f[d[k].End()] >= end - (k + d[k].size)
  }

  /** `b`, at `start`, is the union of the write and the blocks merged with it. */
  ghost predicate Union(d: DataList, offset: nat, end: nat, start: nat, b: Block) {
    && start <= offset && end <= start + b.size
    && (forall k: nat | Merges(d, k, offset, end) :: start <= k && k + d[k].size <= start + b.size)
    && (start == offset || Merges(d, start, offset, end))
    && (start + b.size == end || exists k: nat :: Merges(d, k, offset, end) && k + d[k].size == start + b.size)
  }

  /** The blocks to be merged have become one block at `start`, in the first free extent that holds it; every other
      block is as before. */
  ghost predicate Unified(f: FreeList, d: DataList, offset: nat, end: nat, d': DataList, start: nat) {
    && start in d' && Union(d, offset, end, start, d'[start])
    && Some(d'[start].location) == Choose(f, d'[start].size, None)
    && (forall k: nat | k != start :: k in d' <==> k in d && !Merges(d, k, offset, end))
    && (forall k | k in d' && k != start :: d'[k] == d[k])
  }

  ghost predicate Unifies(f: FreeList, d: DataList, offset: nat, end: nat, d': DataList) {
    exists start: nat :: Unified(f, d, offset, end, d', start)
  }

  /** The extents after a write that is not empty, from the free list and the extents before. */
  ghost predicate Rewritten(f: FreeList, d: DataList, offset: nat, end: nat, d': DataList) {
    && (forall k: nat | Alone(d, k, offset, end) && Holds(d, k, offset, end) :: d' == d)
    && (forall k: nat | Alone(d, k, offset, end) && Extends(f, d, k, offset, end) ::
         d' == d[k := Block(d[k].location, end - k)])
    && ((forall k: nat | Alone(d, k, offset, end) :: !Holds(d, k, offset, end) && !Extends(f, d, k, offset, end)) ==>
         Unifies(f, d, offset, end, d'))
  }

  /** A large block that only borders on the write is left as it is, unless the write is appended to it. */
  lemma LargeLeftAlone(f: FreeList, d: DataList, offset: nat, end: nat, d': DataList, k: nat)
    requires Ordered(d) && offset < end && Rewritten(f, d, offset, end, d')
    requires k in d && d[k].size > MERGE_LIMIT && (k + d[k].size == offset || k == end)
    ensures k in d'
    ensures (Alone(d, k, offset, end) && Extends(f, d, k, offset, end)) || d'[k] == d[k]
  {
    assert Touches(d, k, offset, end) && !Merges(d, k, offset, end);
    if !Alone(d, k, offset, end) || !Extends(f, d, k, offset, end) {
      assert forall j: nat | Alone(d, j, offset, end) :: j == k && !Holds(d, j, offset, end);
      var start: nat :| Unified(f, d, offset, end, d', start);
    }
  }

  /** A block that does not touch the write is left as it is. */
  lemma OthersLeftAlone(f: FreeList, d: DataList, offset: nat, end: nat, d': DataList, k: nat)
    requires Ordered(d) && offset < end && Rewritten(f, d, offset, end, d') && k in d && !Touches(d, k, offset, end)
    ensures k in d' && d'[k] == d[k]
  {
    if forall j: nat | Alone(d, j, offset, end) :: !Holds(d, j, offset, end) && !Extends(f, d, j, offset, end) {
      var start: nat :| Unified(f, d, offset, end, d', start);
    }
  }

  /** What is left of the overlaps is exactly what is to be merged. */
  lemma MergeableIs(d: DataList, keys: seq<nat>, offset: nat, end: nat)
    requires Ordered(d) && offset < end && Touching(d, end + 1, offset, keys)
    ensures forall k: nat :: k in Mergeable(d, keys, offset, end) <==> Merges(d, k, offset, end)
  {
    assert forall k: nat :: k in keys <==> Touches(d, k, offset, end);
    forall k: nat ensures k in Mergeable(d, keys, offset, end) <==> Merges(d, k, offset, end) {
      if Merges(d, k, offset, end) {
        var i :| 0 <= i < |keys| && keys[i] == k;
        DroppedIsLarge(d, keys, offset, end, i);
      }
      if k in Mergeable(d, keys, offset, end) { KeptMerges(d, keys, offset, end, k); }
    }
  }

  lemma KeptMerges(d: DataList, keys: seq<nat>, offset: nat, end: nat, k: nat)
    requires Ordered(d) && offset < end && Touching(d, end + 1, offset, keys) && k in Mergeable(d, keys, offset, end)
    ensures Merges(d, k, offset, end)
  {
    KeptAmong(d, keys, offset, end, k);
    FrontFirst(d, keys, offset, end, k);
    hide Ordered, Mergeable;
  }

  /** The large blocks that border on the write, first and last of those that touch it, are taken out. */
  lemma KeptAmong(d: DataList, keys: seq<nat>, offset: nat, end: nat, k: nat)
    requires Touching(d, end + 1, offset, keys) && k in Mergeable(d, keys, offset, end)
    ensures k in keys
    ensures k == keys[0] ==> !(d[k].size > MERGE_LIMIT && k + d[k].size == offset)
    ensures k == keys[|keys| - 1] ==> !(d[k].size > MERGE_LIMIT && k == end)
  {
    var m := Mergeable(d, keys, offset, end);
    var i :| 0 <= i < |m| && m[i] == k;
    var j := if d[keys[0]].size > MERGE_LIMIT && keys[0] + d[keys[0]].size == offset then i + 1 else i;
    assert keys[j] == k;
  }

  lemma FrontFirst(d: DataList, keys: seq<nat>, offset: nat, end: nat, k: nat)
    requires Ordered(d) && offset < end && Touching(d, end + 1, offset, keys) && k in keys
    ensures k + d[k].size == offset ==> keys[0] == k
    ensures k == end ==> keys[|keys| - 1] == k
  {
    var i :| 0 <= i < |keys| && keys[i] == k;
  }

  /** Whether the end of `encode_write` succeeds: a fresh block when no overlap is left, otherwise one merged block. */
  ghost function RestOutcome(f: FreeList, d: DataList, offset: nat, end: nat, overlaps: seq<nat>): (r: Outcome)
    requires offset <= end && forall i | 0 <= i < |overlaps| :: overlaps[i] in d
    ensures r != Panicked
  {
    var keys := Mergeable(d, overlaps, offset, end);
    MergeableKeys(d, overlaps, offset, end);
    if keys != [] then MergeOutcome(f, d, offset, end, keys)
    else if offset < end then PlaceOutcome(f, end - offset)
    else Done
  }

  lemma MergeableKeys(d: DataList, keys: seq<nat>, offset: nat, end: nat)
    requires forall i | 0 <= i < |keys| :: keys[i] in d
    ensures forall i | 0 <= i < |Mergeable(d, keys, offset, end)| :: Mergeable(d, keys, offset, end)[i] in d
  {
  }

  /** The end of `encode_write`: a fresh block when no overlap is left, otherwise one merged block. */
  method WriteMerged(f: FreeList, d: DataList, s: seq<Byte>, offset: nat, buf: seq<Byte>, overlaps: seq<nat>,
                     ghost lo: nat, ghost hi: nat)
    returns (r: Outcome, f': FreeList, d': DataList, s': seq<Byte>)
    requires Sound(f, d, s, lo, hi) && Touching(d, offset + |buf| + 1, offset, overlaps)
    requires buf == [] ==> |overlaps| != 1
    ensures r == RestOutcome(f, d, offset, offset + |buf|, overlaps)
    ensures hi - lo <= USIZE_MAX ==> r != Overflow
    ensures Room(s, lo, Reach(d, offset + |buf|)) ==> r == Done || r == Overflow
    ensures r == Done && Narrow(f) ==> Narrow(f')
    ensures r == Done && buf != [] ==> Unifies(f, d, offset, offset + |buf|, d')
    ensures r == Done && Mergeable(d, overlaps, offset, offset + |buf|) == [] && buf != [] ==>
              Placed(f, d, offset, |buf|, f', d')
    ensures r == Done ==> Encoded(f, d, s, offset, buf, f', d', s', lo, hi)
  {
    hide Free, Owned, Content, Overlay, Stepped, Packed, Exclusive, Mergeable, Gathered, BetweenLarge, Touched, Placed,
         Encoded, Reach, Grew, Room, Sound, MergeSize, MergeOutcome, PlaceOutcome, Narrow, MergedInto, Unified, Merges;
    SoundOrdered(f, d, s, lo, hi);
    var end := offset + |buf|;
    var keys := Mergeable(d, overlaps, offset, end);
    LessRoom(s, lo, |buf|, Reach(d, end));
    if buf == [] { EmptyMergeable(d, overlaps, offset); } else { MergeableIs(d, overlaps, offset, end); }
    MergeableLeavesLarge(d, overlaps, offset, end);
    if keys != [] {
      MergeableGathered(d, overlaps, offset, end);
      GatheredKeys(d, offset, end, keys);
      MergeFits(d, s, lo, offset, end, keys);
      r, f', d', s' := Defragment(f, d, s, offset, buf, keys, lo, hi);
      if r == Done {
        StepEncoded(f, d, s, offset, buf, f', d', s', lo, hi, MergeSize(d, offset, end, keys));
        if buf != [] { MergedUnified(f, d, offset, end, keys, d'); }
      }
    } else if buf != [] {
      r, f', d', s' := WriteFresh(f, d, s, offset, buf, lo, hi);
      if r == Done {
        StepEncoded(f, d, s, offset, buf, f', d', s', lo, hi, |buf|);
        PlacedUnified(f, d, offset, end, f', d');
      }
    } else {
      r, f', d', s' := InsertEmpty(f, d, s, offset, lo, hi);
      EmptyEncoded(f, d, s, offset, d', lo, hi);
    }
  }

  lemma TouchedMerges(d: DataList, keys: seq<nat>, offset: nat, end: nat)
    requires Ordered(d) && offset < end && Gathered(d, offset, end, keys)
    requires forall k: nat :: k in keys <==> Merges(d, k, offset, end)
    ensures forall k: nat | Merges(d, k, offset, end) ::
              MergeStart(keys, offset) <= k && k + d[k].size <= MergeEnd(d, keys, end)
    ensures MergeStart(keys, offset) == offset || Merges(d, MergeStart(keys, offset), offset, end)
    ensures MergeEnd(d, keys, end) == end ||
            exists k: nat :: Merges(d, k, offset, end) && k + d[k].size == MergeEnd(d, keys, end)
  {
    forall k: nat | Merges(d, k, offset, end)
      ensures MergeStart(keys, offset) <= k && k + d[k].size <= MergeEnd(d, keys, end) {
      GatheredRange(d, offset, end, keys, k);
    }
    assert keys[0] in keys && keys[|keys| - 1] in keys;
  }

  /** A merge of the overlaps that are left gives the extents that the write stands for. */
  lemma MergedUnified(f: FreeList, d: DataList, offset: nat, end: nat, keys: seq<nat>, d': DataList)
    requires Ordered(d) && offset < end && Gathered(d, offset, end, keys) && MergedInto(f, d, offset, end, keys, d')
    requires forall k: nat :: k in keys <==> Merges(d, k, offset, end)
    ensures Unified(f, d, offset, end, d', MergeStart(keys, offset))
  {
    TouchedMerges(d, keys, offset, end);
    hide Gathered, Choose, Merges, Ordered;
  }

  lemma PlacedUnified(f: FreeList, d: DataList, offset: nat, end: nat, f': FreeList, d': DataList)
    requires offset < end && Placed(f, d, offset, end - offset, f', d')
    requires forall k: nat :: !Merges(d, k, offset, end)
    ensures Unified(f, d, offset, end, d', offset)
  {
    hide Choose, Carved, Merges;
  }

  lemma UnorderedNotStepped(f: FreeList, d: DataList, s: seq<Byte>, f': FreeList, d': DataList, s': seq<Byte>,
                            lo: nat, hi: nat)
    requires !Ordered(d')
    ensures !Stepped(f, d, s, f', d', s', lo, hi)
  {
  }

  lemma GatheredKeys(d: DataList, offset: nat, end: nat, keys: seq<nat>)
    requires Gathered(d, offset, end, keys)
    ensures forall i | 0 <= i < |keys| :: keys[i] in d
  {
  }

  lemma MergeFits(d: DataList, s: seq<Byte>, lo: nat, offset: nat, end: nat, keys: seq<nat>)
    requires Ordered(d) && Gathered(d, offset, end, keys) && offset <= end
    ensures MergeSize(d, offset, end, keys) <= Reach(d, end)
    ensures Room(s, lo, Reach(d, end)) ==> Room(s, lo, MergeSize(d, offset, end, keys))
  {
    ReachIs(d, end);
  }

  lemma LessRoom(s: seq<Byte>, lo: nat, n: nat, m: nat)
    requires n <= m
    ensures Room(s, lo, m) ==> Room(s, lo, n)
  {
  }

  /** The write lies in the only block it touches. */
  predicate InBlock(d: DataList, first: nat, offset: nat, end: nat)
    requires first in d
  {
    first <= offset && end <= first + d[first].size
  }

  /** Whether the branches for a single overlap succeed. */
  function SingleOutcome(f: FreeList, d: DataList, offset: nat, end: nat, first: nat): (r: Outcome)
    requires first in d
    ensures r != Panicked
  {
    if first < offset && first + d[first].size < end then AppendOutcome(f, d[first], end - (first + d[first].size))
    else Done
  }

  /** They store the write. */
  predicate SingleWrites(f: FreeList, d: DataList, offset: nat, end: nat, first: nat)
    requires first in d
  {
    || InBlock(d, first, offset, end)
    || (first < offset && first + d[first].size < end && Appends(f, d[first], end - (first + d[first].size)))
  }

  function SingleWritten(d: DataList, offset: nat, end: nat, first: nat): DataList
    requires first in d
  {
    if end <= first + d[first].size then d else Grow(d, first, end - (first + d[first].size))
  }

  /** The branches for a single overlap: the write lies in it, or may be appended to it. */
  method WriteSingle(f: FreeList, d: DataList, s: seq<Byte>, offset: nat, buf: seq<Byte>, first: nat,
                     ghost lo: nat, ghost hi: nat)
    returns (r: Outcome, written: bool, f': FreeList, d': DataList, s': seq<Byte>)
    requires Sound(f, d, s, lo, hi) && first in d && Touching(d, offset + |buf| + 1, offset, [first])
    ensures r == SingleOutcome(f, d, offset, offset + |buf|, first)
    ensures hi - lo <= USIZE_MAX && |buf| <= OFF_MAX ==> r != Overflow
    ensures Room(s, lo, |buf|) ==> r == Done || r == Overflow
    ensures r == Done ==> (written <==> SingleWrites(f, d, offset, offset + |buf|, first))
    ensures r == Done && written ==> d' == SingleWritten(d, offset, offset + |buf|, first)
    ensures r == Done && Narrow(f) ==> Narrow(f')
    ensures buf == [] ==> written
    ensures first == offset + |buf| && buf != [] ==> r == Done && !written
    ensures r == Done && written ==> Encoded(f, d, s, offset, buf, f', d', s', lo, hi)
  {
    hide Free, Owned, Canonical, Content, Overlay, Stepped, Packed, Exclusive, BetweenLarge, Touched, Encoded, Reach,
         Grew, Room, Sound, AppendOutcome, Appends, Narrow;
    SoundOrdered(f, d, s, lo, hi);
    assert [first][0] == first && forall k | k in [first] :: k == first;
    var end := offset + |buf|;
    r, written, f', d', s' := Done, false, f, d, s;
    if first <= offset && end <= first + d[first].size {
      r, s' := WriteInPlace(f, d, s, first, offset, buf, lo, hi);
      written := true;
      if buf == [] {
        SingleKeyNotBetween(d, [first], offset);
        TouchedKeys(d, [first], offset);
      }
      StepEncoded(f, d, s, offset, buf, f', d', s', lo, hi, 0);
    } else if first < offset {
      r, written, f', d', s' := TryAppend(f, d, s, first, offset, buf, lo, hi);
      if r == Done && written { StepEncoded(f, d, s, offset, buf, f', d', s', lo, hi, |buf|); }
    }
  }

  /** What a write to [offset, end) comes to, from the free list and the extents before: `Done`, no free extent for
      it, an end past `OFF_MAX`, or a sum that overflows when an allocation or the merged blocks are given back. */
  ghost function WriteOutcome(f: FreeList, d: DataList, offset: nat, end: nat): Outcome
    requires Ordered(d) && offset <= end
  {
    var overlaps := Overlaps(d, end + 1, offset);
    TouchingKeys(d, end + 1, offset, overlaps);
    if |overlaps| != 1 then RestOutcome(f, d, offset, end, overlaps)
    else
      var single := SingleOutcome(f, d, offset, end, overlaps[0]);
      if single != Done || SingleWrites(f, d, offset, end, overlaps[0]) then single
      else RestOutcome(f, d, offset, end, overlaps)
  }

  /** One call of `encode_write` on the extent map of its file. */
  method EncodeWrite(f: FreeList, d: DataList, s: seq<Byte>, offset: nat, buf: seq<Byte>, ghost lo: nat, ghost hi: nat)
    returns (r: Outcome, f': FreeList, d': DataList, s': seq<Byte>)
    requires Sound(f, d, s, lo, hi)
    ensures r == WriteOutcome(f, d, offset, offset + |buf|) && r != Panicked
    ensures hi - lo <= USIZE_MAX && |buf| <= OFF_MAX ==> r != Overflow
    ensures Room(s, lo, Reach(d, offset + |buf|)) ==> r == Done || r == Overflow
    ensures r == Done && Narrow(f) ==> Narrow(f')
    ensures r == Done && buf != [] ==> Rewritten(f, d, offset, offset + |buf|, d')
    ensures r == Done && buf != [] && Clear(d, offset, offset + |buf|) ==> Placed(f, d, offset, |buf|, f', d')
    ensures r == Done ==> Encoded(f, d, s, offset, buf, f', d', s', lo, hi)
  {
    hide Placed, Mergeable, Encoded, Reach, Clear, Room, Sound, Overlaps, Touching, SingleOutcome, SingleWrites,
         RestOutcome, Narrow, Rewritten, Unifies, SingleWritten;
    SoundOrdered(f, d, s, lo, hi);
    var end := offset + |buf|;
    var overlaps := Overlaps(d, end + 1, offset);
    LessRoom(s, lo, |buf|, Reach(d, end));
    if buf != [] && Clear(d, offset, end) { ClearMergeable(d, overlaps, offset, end); }
    if |overlaps| == 1 {
      assert overlaps == [overlaps[0]];
      TouchingKeys(d, end + 1, offset, overlaps);
      var written;
      r, written, f', d', s' := WriteSingle(f, d, s, offset, buf, overlaps[0], lo, hi);
      if r == Done && written && buf != [] { SingleRewritten(f, d, offset, end, overlaps[0]); }
      if r != Done || written {
        return;
      }
    }
    r, f', d', s' := WriteMerged(f, d, s, offset, buf, overlaps, lo, hi);
    TouchingKeys(d, end + 1, offset, overlaps);
    if r == Done && buf != [] { RestRewritten(f, d, offset, end, overlaps, d'); }
  }

  lemma SingleRewritten(f: FreeList, d: DataList, offset: nat, end: nat, first: nat)
    requires Ordered(d) && offset < end && first in d && Touching(d, end + 1, offset, [first])
    requires SingleWrites(f, d, offset, end, first)
    ensures Rewritten(f, d, offset, end, SingleWritten(d, offset, end, first))
  {
    assert [first][0] == first;
    assert forall k: nat :: Touches(d, k, offset, end) ==> k == first;
    assert Alone(d, first, offset, end);
    hide Touching, Ordered;
  }

  lemma RestRewritten(f: FreeList, d: DataList, offset: nat, end: nat, overlaps: seq<nat>, d': DataList)
    requires offset < end && Touching(d, end + 1, offset, overlaps)
    requires forall i | 0 <= i < |overlaps| :: overlaps[i] in d
    requires |overlaps| == 1 ==> !SingleWrites(f, d, offset, end, overlaps[0])
    requires Unifies(f, d, offset, end, d')
    ensures Rewritten(f, d, offset, end, d')
  {
    forall k: nat | Alone(d, k, offset, end)
      ensures !Holds(d, k, offset, end) && !Extends(f, d, k, offset, end) {
      AloneIs(d, offset, end, overlaps, k);
    }
    hide Unifies;
  }

  lemma AloneIs(d: DataList, offset: nat, end: nat, overlaps: seq<nat>, k: nat)
    requires Touching(d, end + 1, offset, overlaps) && Alone(d, k, offset, end)
    ensures overlaps == [k]
  {
    forall i | 0 <= i < |overlaps| ensures overlaps[i] == k { assert Touches(d, overlaps[i], offset, end); }
    NotConstant(overlaps, k);
    assert k in overlaps;
  }

  /** The blocks that a write gives back: those it merges, none when it is stored in place, appended or put into a
      fresh block. */
  ghost function MergedKeys(f: FreeList, d: DataList, offset: nat, end: nat): seq<nat>
    requires Ordered(d) && offset <= end
  {
    var overlaps := Overlaps(d, end + 1, offset);
    TouchingKeys(d, end + 1, offset, overlaps);
    if |overlaps| == 1 && SingleWrites(f, d, offset, end, overlaps[0]) then []
    else Mergeable(d, overlaps, offset, end)
  }

  /** The place of the merged block. */
  ghost function MergedPlace(f: FreeList, d: DataList, offset: nat, end: nat, keys: seq<nat>): (b: Block)
    requires keys != [] && keys[|keys| - 1] in d && offset <= end
    requires PlaceOutcome(f, MergeSize(d, offset, end, keys)) == Done
    ensures b.location in f && f[b.location] >= b.size && b.End() <= OFF_MAX
  {
    Block(Choose(f, MergeSize(d, offset, end, keys), None).value, MergeSize(d, offset, end, keys))
  }

  lemma MergedKeysIn(f: FreeList, d: DataList, offset: nat, end: nat)
    requires Ordered(d) && offset <= end
    ensures forall k | k in MergedKeys(f, d, offset, end) :: k in d && d[k].size > 0
    ensures var keys := MergedKeys(f, d, offset, end); keys != [] ==> keys[0] <= keys[|keys| - 1]
  {
    var overlaps := Overlaps(d, end + 1, offset);
    TouchingKeys(d, end + 1, offset, overlaps);
    MergeableKeys(d, overlaps, offset, end);
    assert Ascending(d, offset, end, overlaps);
    MergeableAscending(d, overlaps, offset, end);
    hide Overlaps, Mergeable, Touching;
  }

  /** Every byte from the one before `hi - USIZE_MAX` on is free or among `freed`. */
  ghost predicate TailFree(f: FreeList, freed: iset<nat>, hi: nat) {
    forall p: nat | hi - USIZE_MAX - 1 <= p < hi :: Free(f, p) || p in freed
  }

  /** In a region that ends `USIZE_MAX` bytes after where it was opened, bytes of a file can be given back unless
      everything from the byte before that place on is free then. */
  lemma TooWideIff(f: FreeList, d: DataList, s: seq<Byte>, lo: nat, hi: nat, freed: iset<nat>)
    requires Sound(f, d, s, lo, hi) && Narrow(f) && lo > 0 && forall p: nat | p in freed :: Owned(d, p)
    ensures TooWide(f, freed) <==> TailFree(f, freed, hi)
  {
    hide Free, Owned, Narrow, TooWide, Canonical, WellFormed;
    WideIff(f, freed, hi - USIZE_MAX, Max(|s|, lo));
  }

  lemma CarvedSound(f: FreeList, d: DataList, s: seq<Byte>, lo: nat, hi: nat, b: Block)
    requires Sound(f, d, s, lo, hi) && b.location in f && f[b.location] >= b.size && b.End() <= OFF_MAX
    ensures exists t: seq<Byte> :: Sound(Carved(f, b), d, t, lo, hi)
  {
    var n := Max(|s|, b.End());
    var t := SetLen(s, n);
    CarvedFrees(f, b);
    hide Free, Owned, Canonical, WellFormed, Carved, SetLen;
    assert Sound(Carved(f, b), d, t, lo, hi);
  }

  /** A write overflows exactly when it merges blocks and, once the merged block is placed, giving them back leaves
      everything free from the byte before the place where the snapshot was opened. */
  lemma WriteOverflowIff(f: FreeList, d: DataList, s: seq<Byte>, lo: nat, hi: nat, offset: nat, end: nat)
    requires Sound(f, d, s, lo, hi) && Narrow(f) && lo > 0 && offset <= end <= offset + OFF_MAX
    ensures WriteOutcome(f, d, offset, end) == Overflow <==>
      var keys := MergedKeys(f, d, offset, end);
      && keys != [] && PlaceOutcome(f, MergeSize(d, offset, end, keys)) == Done
      && TailFree(Carved(f, MergedPlace(f, d, offset, end, keys)), BytesAt(d, keys), hi)
  {
    SoundOrdered(f, d, s, lo, hi);
    hide *;
    var overlaps := Overlaps(d, end + 1, offset);
    TouchingKeys(d, end + 1, offset, overlaps);
    if |overlaps| == 1 { SingleNeverOverflows(f, d, s, lo, hi, offset, end, overlaps[0]); }
    OverflowOfMerge(f, d, offset, end, overlaps);
    var keys := MergedKeys(f, d, offset, end);
    MergedKeysIn(f, d, offset, end);
    if keys != [] { MergeOverflowIff(f, d, s, lo, hi, offset, end, keys); }
  }

  /** The first write after `open` does not overflow: it leaves a block where the free tail was. */
  lemma FirstWriteAfterOpen(d: DataList, s: seq<Byte>, lo: nat, t: nat, offset: nat, end: nat)
    requires Sound(map[t := USIZE_MAX], d, s, lo, t + USIZE_MAX) && lo > 0 && offset <= end <= offset + OFF_MAX
    ensures WriteOutcome(map[t := USIZE_MAX], d, offset, end) != Overflow
  {
    var f, hi := map[t := USIZE_MAX], t + USIZE_MAX;
    SoundOrdered(f, d, s, lo, hi);
    TailNarrow(t);
    hide *;
    WriteOverflowIff(f, d, s, lo, hi, offset, end);
    var keys := MergedKeys(f, d, offset, end);
    MergedKeysIn(f, d, offset, end);
    if keys != [] && PlaceOutcome(f, MergeSize(d, offset, end, keys)) == Done {
      OneExtentPlace(d, t, offset, end, keys);
      TailTaken(d, s, lo, t, keys, MergedPlace(f, d, offset, end, keys));
    }
  }

  lemma TailNarrow(t: nat)
    ensures Narrow(map[t := USIZE_MAX])
  {
  }

  lemma OneExtentPlace(d: DataList, t: nat, offset: nat, end: nat, keys: seq<nat>)
    requires keys != [] && keys[|keys| - 1] in d && d[keys[|keys| - 1]].size > 0 && keys[0] <= keys[|keys| - 1]
    requires offset <= end && PlaceOutcome(map[t := USIZE_MAX], MergeSize(d, offset, end, keys)) == Done
    ensures var b := MergedPlace(map[t := USIZE_MAX], d, offset, end, keys);
      b.location == t && 0 < b.size <= USIZE_MAX
  {
    hide TooWide;
  }

  lemma TailTaken(d: DataList, s: seq<Byte>, lo: nat, t: nat, keys: seq<nat>, b: Block)
    requires Sound(map[t := USIZE_MAX], d, s, lo, t + USIZE_MAX) && b.location == t && 0 < b.size <= USIZE_MAX
    ensures !TailFree(Carved(map[t := USIZE_MAX], b), BytesAt(d, keys), t + USIZE_MAX)
  {
    var f := map[t := USIZE_MAX];
    assert t in f && Canonical(f);
    CarvedFrees(f, b);
    assert b.Has(t) && Free(f, t);
    hide Carved, Canonical, WellFormed, Free;
    assert t in BytesAt(d, keys) ==> Owned(d, t);
  }

  /** As long as another file holds the byte before the place where the snapshot was opened, no write overflows. */
  lemma ByteHeld(f: FreeList, d: DataList, s: seq<Byte>, lo: nat, hi: nat, offset: nat, end: nat, p: nat)
    requires Sound(f, d, s, lo, hi) && Narrow(f) && lo > 0 && offset <= end <= offset + OFF_MAX
    requires p == hi - USIZE_MAX - 1 && !Free(f, p) && !Owned(d, p)
    ensures Ordered(d) && WriteOutcome(f, d, offset, end) != Overflow
  {
    SoundOrdered(f, d, s, lo, hi);
    assert Canonical(f);
    hide *;
    WriteOverflowIff(f, d, s, lo, hi, offset, end);
    var keys := MergedKeys(f, d, offset, end);
    MergedKeysIn(f, d, offset, end);
    if keys != [] && PlaceOutcome(f, MergeSize(d, offset, end, keys)) == Done {
      ByteStays(f, d, keys, MergedPlace(f, d, offset, end, keys), hi, p);
    }
  }

  lemma ByteStays(f: FreeList, d: DataList, keys: seq<nat>, b: Block, hi: nat, p: nat)
    requires Canonical(f) && b.location in f && f[b.location] >= b.size
    requires p == hi - USIZE_MAX - 1 && !Free(f, p) && !Owned(d, p)
    ensures !TailFree(Carved(f, b), BytesAt(d, keys), hi)
  {
    CarvedFrees(f, b);
    hide Free, Carved;
    assert !Free(Carved(f, b), p) && p !in BytesAt(d, keys);
  }

  lemma SingleNeverOverflows(f: FreeList, d: DataList, s: seq<Byte>, lo: nat, hi: nat, offset: nat, end: nat,
                             first: nat)
    requires Sound(f, d, s, lo, hi) && Narrow(f) && first in d && offset <= end <= offset + OFF_MAX
    requires Touching(d, end + 1, offset, [first])
    ensures SingleOutcome(f, d, offset, end, first) != Overflow
  {
    hide Sound, Narrow, AppendOutcome;
    assert [first][0] == first;
    if first + d[first].size < end {
      AppendNeverOverflows(f, d, s, lo, hi, d[first], end - (first + d[first].size));
    }
  }

  /** When the branches for a single overlap do not overflow, only the merge does. */
  lemma OverflowOfMerge(f: FreeList, d: DataList, offset: nat, end: nat, overlaps: seq<nat>)
    requires Ordered(d) && offset <= end && overlaps == Overlaps(d, end + 1, offset)
    requires forall i | 0 <= i < |overlaps| :: overlaps[i] in d
    requires |overlaps| == 1 ==> SingleOutcome(f, d, offset, end, overlaps[0]) != Overflow
    ensures var keys := MergedKeys(f, d, offset, end);
      && (forall i | 0 <= i < |keys| :: keys[i] in d)
      && (WriteOutcome(f, d, offset, end) == Overflow <==>
           keys != [] && MergeOutcome(f, d, offset, end, keys) == Overflow)
  {
    hide Overlaps, Ordered, Mergeable, MergeOutcome, SingleOutcome, SingleWrites, PlaceOutcome;
    MergeableKeys(d, overlaps, offset, end);
    if |overlaps| == 1 { SingleFails(f, d, offset, end, overlaps, overlaps[0]); }
  }

  /** When there is no space to append there is none to merge. */
  lemma SingleFails(f: FreeList, d: DataList, offset: nat, end: nat, keys: seq<nat>, first: nat)
    requires keys == [first] && first in d && offset <= end
    ensures var m, single := Mergeable(d, keys, offset, end), SingleOutcome(f, d, offset, end, first);
      && (m == [] || m == [first])
      && (single != Done && single != Overflow && !SingleWrites(f, d, offset, end, first) && m != [] ==>
            MergeOutcome(f, d, offset, end, m) == NoSpace)
  {
    var m := Mergeable(d, keys, offset, end);
    assert m == [] || m == [first];
    if m == [first] { assert MergeSize(d, offset, end, m) >= end - (first + d[first].size); }
  }

  lemma MergeOverflowIff(f: FreeList, d: DataList, s: seq<Byte>, lo: nat, hi: nat, offset: nat, end: nat,
                         keys: seq<nat>)
    requires Sound(f, d, s, lo, hi) && Narrow(f) && lo > 0 && offset <= end
    requires keys != [] && forall i | 0 <= i < |keys| :: keys[i] in d
    ensures MergeOutcome(f, d, offset, end, keys) == Overflow <==>
      && PlaceOutcome(f, MergeSize(d, offset, end, keys)) == Done
      && TailFree(Carved(f, MergedPlace(f, d, offset, end, keys)), BytesAt(d, keys), hi)
  {
    var size := MergeSize(d, offset, end, keys);
    if PlaceOutcome(f, size) == Done {
      var b := MergedPlace(f, d, offset, end, keys);
      CarvedSound(f, d, s, lo, hi, b);
      var t: seq<Byte> :| Sound(Carved(f, b), d, t, lo, hi);
      CarvedNarrow(f, b);
      assert forall p: nat :: p in BytesAt(d, keys) ==> Owned(d, p);
      hide Sound, Narrow, TailFree, TooWide, BytesAt, Carved;
      TooWideIff(Carved(f, b), d, t, lo, hi, BytesAt(d, keys));
    }
  }

  lemma NotConstant(keys: seq<nat>, end: nat)
    requires forall i, j | 0 <= i < j < |keys| :: keys[i] < keys[j]
    ensures |keys| > 1 ==> exists i :: 0 <= i < |keys| && keys[i] != end
  {
    if |keys| > 1 { assert keys[0] < keys[1]; }
  }

  lemma ClearMergeable(d: DataList, keys: seq<nat>, offset: nat, end: nat)
    requires Ordered(d) && Touching(d, end + 1, offset, keys) && offset < end && Clear(d, offset, end)
    ensures Mergeable(d, keys, offset, end) == [] && (keys == [] || keys == [end])
  {
    NotConstant(keys, end);
    assert forall i | 0 <= i < |keys| :: keys[i] == end;
  }

  lemma SingleKeyNotBetween(d: DataList, keys: seq<nat>, offset: nat)
    requires Ordered(d) && Touching(d, offset + 1, offset, keys) && |keys| == 1
    ensures !BetweenLarge(d, offset)
  {
  }

  lemma EmptyOverlay(c: imap<nat, Byte>, offset: nat)
    ensures Overlay(c, offset, []) == c
  {
  }
}
