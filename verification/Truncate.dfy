/** The truncate branch of `Snapshot::merge_from`, on the extent map of one file. */
module Truncate {
  import opened OrderedKeys
  import opened FreeLists
  import opened Extents
  import opened EncodeWrite

  // ---------------------------------------------------------------- shrinking the last block

  /** `d` with the block at `k` cut to `keep` bytes. */
  function Shrink(d: DataList, k: nat, keep: nat): DataList
    requires k in d
  {
    d[k := Block(d[k].location, keep)]
  }

  /** What is cut from a block that keeps `keep` bytes. */
  function CutOff(b: Block, keep: nat): Block
    requires keep <= b.size
  {
    Block(b.location + keep, b.size - keep)
  }

  lemma ShrinkOwned(d: DataList, k: nat, keep: nat)
    requires WellFormed(d) && k in d && 0 < keep < d[k].size
    ensures WellFormed(Shrink(d, k, keep))
    ensures forall p: nat :: Owned(Shrink(d, k, keep), p) <==> Owned(d, p) && !CutOff(d[k], keep).Has(p)
    ensures forall p: nat :: CutOff(d[k], keep).Has(p) ==> Owned(d, p)
  {
    var b, cut := Block(d[k].location, keep), CutOff(d[k], keep);
    var rest: DataList := d - {k};
    RemoveBlock(d, k);
    assert forall p: nat :: d[k].Has(p) <==> b.Has(p) || cut.Has(p);
    assert forall p: nat :: b.Has(p) ==> !cut.Has(p);
    InsertBlock(rest, k, b);
    assert rest[k := b] == Shrink(d, k, keep);
  }

  // ---------------------------------------------------------------- content

  /** `e` is `d` cut at `size`: every block of `e` starts one of `d` and ends at `size` or where that one ends. */
  ghost predicate CutAt(d: DataList, e: DataList, size: nat) {
    && (forall k | k in e ::
         k in d && k < size && e[k].location == d[k].location && k + e[k].size == Min(k + d[k].size, size))
    && (forall k | k in d && k < size :: k in e)
  }

  lemma CutCovers(d: DataList, e: DataList, size: nat, k: nat, x: nat)
    requires CutAt(d, e, size)
    ensures Covers(e, k, x) <==> Covers(d, k, x) && x < size
  {
  }

  lemma CutContent(d: DataList, e: DataList, s: seq<Byte>, size: nat)
    requires Ordered(d) && Ordered(e) && CutAt(d, e, size)
    ensures Content(e, s) == Clip(Content(d, s), size)
  {
    hide CutAt;
    forall x: nat ensures Mapped(e, x) <==> Mapped(d, x) && x < size
                  ensures Mapped(e, x) ==> Locate(e, x) == Locate(d, x) {
      CutAtByte(d, e, size, x);
    }
  }

  lemma CutAtByte(d: DataList, e: DataList, size: nat, x: nat)
    requires Ordered(d) && Ordered(e) && CutAt(d, e, size)
    ensures Mapped(e, x) <==> Mapped(d, x) && x < size
    ensures Mapped(e, x) ==> Locate(e, x) == Locate(d, x)
  {
    if Mapped(d, x) && x < size {
      var k :| Covers(d, k, x);
      CutCovers(d, e, size, k, x);
    }
    if Mapped(e, x) {
      var k :| Covers(e, k, x);
      CutCovers(d, e, size, k, x);
      LocateIs(d, k, x);
      LocateIs(e, k, x);
    }
  }

  // ---------------------------------------------------------------- truncate

  /** Byte `p` of the snapshot file is kept for a file offset at or past `size`. */
  ghost predicate HeldBeyond(d: DataList, size: nat, p: nat) {
    exists k :: k in d && d[k].Has(p) && size <= k + (p - d[k].location)
  }

  /** The bytes that a truncation to `size` gives back. */
  ghost function Beyond(d: DataList, size: nat): iset<nat> {
    iset p: nat | HeldBeyond(d, size, p)
  }

  lemma NothingBeyond(f: FreeList, size: nat)
    ensures Beyond(map[], size) == iset{} && !TooWide(f, Beyond(map[], size))
  {
  }

  /** All bytes of the file. */
  lemma BeyondZero(d: DataList, keys: seq<nat>)
    requires forall k | k in d :: k in keys
    ensures BytesAt(d, keys) == Beyond(d, 0)
  {
  }

  /** The part of the last block past `size`. */
  lemma BeyondLast(d: DataList, size: nat, k: nat)
    requires Ordered(d) && k in d && k < size < k + d[k].size && forall j | j in d :: j <= k
    ensures Beyond(d, size) == Bytes(CutOff(d[k], size - k))
  {
  }

  lemma BeyondNone(d: DataList, size: nat)
    requires forall k | k in d :: k + d[k].size <= size
    ensures Beyond(d, size) == iset{}
  {
  }

  lemma CutShrink(d: DataList, size: nat, k: nat)
    requires Ordered(d) && k in d && k < size < k + d[k].size && forall j | j in d :: j <= k
    ensures CutAt(d, Shrink(d, k, size - k), size)
  {
  }

  lemma CutNone(d: DataList, size: nat)
    requires forall k | k in d :: k < size && k + d[k].size <= size
    ensures CutAt(d, d, size)
  {
  }

  /** Frees the part of the last block that lies at or past `size`; all keys of `d` are below `size`. */
  method CutLast(f: FreeList, d: DataList, size: nat, ghost lo: nat, ghost hi: nat)
    returns (r: Outcome, f': FreeList, d': DataList)
    requires Disjoint(f, d, lo, hi)
    requires forall k | k in d :: k < size
    ensures r == if TooWide(f, Beyond(d, size)) then Overflow else Done
    ensures hi - lo <= USIZE_MAX ==> r == Done
    ensures r == Done ==> Disjoint(f', d', lo, hi) && Conserves(f, d, f', d') && CutAt(d, d', size) && Checked(f, f')
    ensures r == Done ==> forall p: nat :: Free(f', p) <==> Free(f, p) || p in Beyond(d, size)
    ensures r == Done ==> forall p: nat :: Owned(d', p) ==> Owned(d, p)
  {
    hide Free, Owned, Canonical, Exclusive, Beyond, Overflows, TooWide, Checked, Conserves, Bytes, Disjoint, CutAt;
    r, f', d' := Done, f, d;
    DisjointCanonical(f, d, lo, hi);
    ReleaseNone(f, d);
    var last := LastBelow(d, size);
    if last.Some? && last.value + d[last.value].size > size {
      var k, keep := last.value, size - last.value;
      var cut := CutOff(d[k], keep);
      ShrinkOwned(d, k, keep);
      BeyondLast(d, size, k);
      var g := DeallocateOwned(f, cut, d, lo, hi);
      if g.None? {
        r := Overflow;
        CutTooWide(f, cut);
        return;
      }
      f', d' := g.value, Shrink(d, k, keep);
      Freed(f, d, f', d', cut, lo, hi);
      BytesHas(cut);
      CutShrink(d, size, k);
    } else {
      BeyondNone(d, size);
      CutNone(d, size);
    }
    BeyondOwned(f, d, lo, hi, size);
    DisjointCanonical(f', d', lo, hi);
    CheckedNotWide(f, Beyond(d, size), f');
  }

  lemma BytesHas(b: Block)
    ensures forall p: nat :: p in Bytes(b) <==> b.Has(p)
  {
  }

  lemma CutTooWide(f: FreeList, b: Block)
    requires Overflows(f, b) && b.End() <= USIZE_MAX && b.size > 0
    ensures TooWide(f, Bytes(b))
  {
    OverflowStretch(f, b);
    hide Stretch;
  }

  /** What the two halves of a truncation give back. */
  lemma BeyondParts(d: DataList, delete: seq<nat>, d1: DataList, size: nat)
    requires Without(d, delete, d1)
    requires forall i | 0 <= i < |delete| :: delete[i] in d && size <= delete[i]
    requires forall k | k in d && size <= k :: k in delete
    ensures Beyond(d, size) == BytesAt(d, delete) + Beyond(d1, size)
  {
    assert forall k | k in delete :: k in d && size <= k;
  }

  /** An overflow in either half is one of the whole. */
  lemma WidePart(f: FreeList, freed: iset<nat>, f1: FreeList, done: iset<nat>, more: iset<nat>)
    requires TooWide(f1, more) && freed == done + more
    requires forall p: nat :: Free(f1, p) <==> Free(f, p) || p in done
    ensures TooWide(f, freed)
  {
    hide Free;
    var a: nat, e: nat :| Stretch(f1, more, a, e);
    WiderStretch(f, freed, f1, more, a, e);
  }

  lemma BeyondOwned(f: FreeList, d: DataList, lo: nat, hi: nat, size: nat)
    requires Disjoint(f, d, lo, hi)
    ensures forall p: nat :: p in Beyond(d, size) ==> !Free(f, p)
  {
    hide Free;
    assert forall p: nat :: p in Beyond(d, size) ==> Owned(d, p);
  }

  /** A truncation fails exactly when the bytes it gives back, with what is free already, make an extent that
      is too large. */
  method TruncateFile(f: FreeList, d: DataList, s: seq<Byte>, size: nat, ghost lo: nat, ghost hi: nat)
    returns (r: Outcome, f': FreeList, d': DataList)
    requires Sound(f, d, s, lo, hi)
    ensures r == if TooWide(f, Beyond(d, size)) then Overflow else Done
    ensures hi - lo <= USIZE_MAX ==> r == Done
    ensures r == Done ==> Stepped(f, d, s, f', d', s, lo, hi)
    ensures r == Done ==> CutAt(d, d', size) && Content(d', s) == Clip(Content(d, s), size)
    ensures r == Done ==> forall p: nat :: Free(f', p) <==> Free(f, p) || p in Beyond(d, size)
    ensures r == Done && Narrow(f) ==> Narrow(f')
  {
    hide Free, Owned, Content, Clip, Sound, Disjoint, Framed, CutAt, Without, Beyond, BytesAt, TooWide, Checked,
         Conserves, Narrow;
    SoundIsDisjoint(f, d, s, lo, hi);
    var delete := KeysFrom(d, size);
    r, f', d' := ReleaseAll(f, d, delete, lo, hi);
    ghost var f1, d1, done := f', d', BytesAt(d, delete);
    if r != Done {
      WideFirst(f, d, delete, size);
      return;
    }
    KeptBelow(d, delete, d1, size);
    BeyondParts(d, delete, d1, size);
    r, f', d' := CutLast(f', d', size, lo, hi);
    if r != Done {
      WidePart(f, Beyond(d, size), f1, done, Beyond(d1, size));
      return;
    }
    CheckedTrans(f, f1, f');
    ConservesTrans(f, d, f1, d1, f', d');
    Released(f, d, s, f', d', lo, hi);
    BeyondOwned(f, d, lo, hi, size);
    DisjointCanonical(f', d', lo, hi);
    CheckedNotWide(f, Beyond(d, size), f');
    CutAfterDelete(d, d1, d', size);
    assert Ordered(d) && Ordered(d') by { SoundOrdered(f, d, s, lo, hi); SoundOrdered(f', d', s, lo, hi); }
    CutContent(d, d', s, size);
    if Narrow(f) { CheckedNarrow(f, f'); }
  }

  lemma WideFirst(f: FreeList, d: DataList, delete: seq<nat>, size: nat)
    requires TooWide(f, BytesAt(d, delete))
    requires forall i | 0 <= i < |delete| :: delete[i] in d && size <= delete[i]
    ensures TooWide(f, Beyond(d, size))
  {
    hide Free;
    assert forall k | k in delete :: k in d && size <= k;
    assert BytesAt(d, delete) <= Beyond(d, size);
    var a: nat, e: nat :| Stretch(f, BytesAt(d, delete), a, e);
    WiderStretch(f, Beyond(d, size), f, BytesAt(d, delete), a, e);
  }

  lemma KeptBelow(d: DataList, delete: seq<nat>, d1: DataList, size: nat)
    requires Without(d, delete, d1)
    requires forall i | 0 <= i < |delete| :: delete[i] in d && size <= delete[i]
    requires forall k | k in d && size <= k :: k in delete
    ensures forall k | k in d1 :: k < size && k in d && d1[k] == d[k]
    ensures forall k | k in d && k < size :: k in d1
  {
  }

  lemma CutAfterDelete(d: DataList, d1: DataList, e: DataList, size: nat)
    requires forall k | k in d1 :: k < size && k in d && d1[k] == d[k]
    requires forall k | k in d && k < size :: k in d1
    requires CutAt(d1, e, size)
    ensures CutAt(d, e, size)
  {
  }
}
