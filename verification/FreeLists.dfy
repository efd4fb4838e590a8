/**
 The free list of the snapshot file: a map from the start of each free extent to its size.
 A free list is canonical when every extent is non-empty and no two of them touch; such a list is
 determined by the set of free bytes alone.
 */
module FreeLists {
  import opened Wrappers
  import opened OrderedKeys

  const USIZE_MAX: nat := 0xFFFF_FFFF_FFFF_FFFF

  datatype Block = Block(location: nat, size: nat) {
    predicate Has(p: nat) {
      location <= p < location + size
    }

    function End(): nat {
      location + size
    }
  }

  type FreeList = map<nat, nat>

  ghost predicate Free(f: FreeList, p: nat) {
    exists k :: k in f && k <= p < k + f[k]
  }

  ghost predicate Canonical(f: FreeList) {
    && (forall k | k in f :: f[k] > 0)
    && (forall j, k | j in f && k in f && j < k :: j + f[j] < k)
  }

  /** Every free extent lies in [lo, hi). */
  ghost predicate Within(f: FreeList, lo: nat, hi: nat) {
    forall k | k in f :: lo <= k && k + f[k] <= hi
  }

  // ---------------------------------------------------------------- canonical form

  lemma ExtentIsMaximal(f: FreeList, k: nat)
    requires Canonical(f) && k in f
    ensures forall p: nat :: k <= p < k + f[k] ==> Free(f, p)
    ensures !Free(f, k + f[k])
    ensures k > 0 ==> !Free(f, k - 1)
  {
  }

  /** Two canonical lists with the same free bytes agree on every extent. */
  lemma SameExtent(f: FreeList, g: FreeList, k: nat)
    requires Canonical(f) && Canonical(g)
    requires forall p: nat :: Free(f, p) <==> Free(g, p)
    requires k in f
    ensures k in g && g[k] == f[k]
  {
    ExtentIsMaximal(f, k);
    assert Free(g, k);
    var j :| j in g && j <= k < j + g[j];
    ExtentIsMaximal(g, j);
    assert j == k;
  }

  /** The free list is determined by the set of free bytes. */
  lemma CanonicalUnique(f: FreeList, g: FreeList)
    requires Canonical(f) && Canonical(g)
    requires forall p: nat :: Free(f, p) <==> Free(g, p)
    ensures f == g
  {
    forall k | k in f || k in g ensures k in f && k in g && f[k] == g[k] {
      if k in f { SameExtent(f, g, k); } else { SameExtent(g, f, k); }
    }
  }

  // ---------------------------------------------------------------- removing and inserting extents

  lemma RemoveExtent(f: FreeList, k: nat)
    requires Canonical(f) && k in f
    ensures Canonical(f - {k})
    ensures forall p: nat :: Free(f - {k}, p) <==> Free(f, p) && !Block(k, f[k]).Has(p)
    ensures forall p: nat :: Block(k, f[k]).Has(p) ==> Free(f, p)
  {
    forall p: nat ensures Free(f - {k}, p) <==> Free(f, p) && !Block(k, f[k]).Has(p) {
      if Free(f, p) && !Block(k, f[k]).Has(p) {
        var j :| j in f && j <= p < j + f[j];
        assert j in f - {k};
      }
    }
  }

  /** `b` is not empty and touches no extent of `f`. */
  ghost predicate Apart(f: FreeList, b: Block) {
    b.size > 0 && forall k | k in f :: k + f[k] < b.location || b.End() < k
  }

  lemma InsertByte(f: FreeList, b: Block, p: nat)
    requires Apart(f, b)
    ensures Free(f[b.location := b.size], p) <==> Free(f, p) || b.Has(p)
  {
    var g := f[b.location := b.size];
    assert b.location in g && g[b.location] == b.size;
    if Free(f, p) {
      var j :| j in f && j <= p < j + f[j];
      assert j in g && g[j] == f[j];
    }
    if Free(g, p) {
      var j :| j in g && j <= p < j + g[j];
      assert j != b.location ==> j in f;
    }
  }

  lemma InsertExtent(f: FreeList, b: Block)
    requires Canonical(f) && Apart(f, b)
    ensures Canonical(f[b.location := b.size])
    ensures forall p: nat :: Free(f[b.location := b.size], p) <==> Free(f, p) || b.Has(p)
  {
    forall p: nat ensures Free(f[b.location := b.size], p) <==> Free(f, p) || b.Has(p) {
      InsertByte(f, b, p);
    }
  }

  // ---------------------------------------------------------------- allocation

  /** The extent that `allocate` carves from: the hint when it is an extent that is large enough,
      else the first extent that is. */
  function Choose(f: FreeList, size: nat, hint: Option<nat>): (r: Option<nat>)
    ensures r.None? <==> forall k | k in f :: f[k] < size
    ensures r.Some? ==> r.value in f && f[r.value] >= size
    ensures hint.Some? ==> (r == hint <==> hint.value in f && f[hint.value] >= size)
    ensures r.Some? && r != hint ==> forall k | k in f && f[k] >= size :: r.value <= k
  {
    if hint.Some? && hint.value in f && f[hint.value] >= size then hint
    else
      var fits := set k | k in f && f[k] >= size;
      assert forall k | k in f && f[k] >= size :: k in fits;
      if fits == {} then None else Some(Least(fits))
  }

  /** `f` without block `b`, which is cut from the front of the extent it starts. */
  function Carved(f: FreeList, b: Block): FreeList
    requires b.location in f && f[b.location] >= b.size
  {
    var rest := f - {b.location};
    if f[b.location] > b.size then rest[b.End() := f[b.location] - b.size] else rest
  }

  lemma CarvedFrees(f: FreeList, b: Block)
    requires Canonical(f)
    requires b.location in f && f[b.location] >= b.size
    ensures Canonical(Carved(f, b))
    ensures forall p: nat :: b.Has(p) ==> Free(f, p)
    ensures forall p: nat :: Free(Carved(f, b), p) <==> Free(f, p) && !b.Has(p)
  {
    var left := Block(b.End(), f[b.location] - b.size);
    RemoveExtent(f, b.location);
    if left.size > 0 {
      var rest := f - {b.location};
      assert Apart(rest, left);
      InsertExtent(rest, left);
    }
  }

  /** `None` is the panic of the source when no extent is large enough. */
  method Allocate(f: FreeList, size: nat, hint: Option<nat>) returns (b: Option<Block>, f': FreeList)
    requires Canonical(f)
    ensures b.None? <==> forall k | k in f :: f[k] < size
    ensures b.None? ==> f' == f
    ensures b.Some? ==> b.value.size == size && Some(b.value.location) == Choose(f, size, hint)
    ensures b.Some? ==> f' == Carved(f, b.value)
    ensures Canonical(f')
    ensures b.Some? ==> forall p: nat :: b.value.Has(p) ==> Free(f, p)
    ensures b.Some? ==> forall p: nat :: Free(f', p) <==> Free(f, p) && !b.value.Has(p)
  {
    var chosen := Choose(f, size, hint);
    if chosen.None? {
      return None, f;
    }
    b := Some(Block(chosen.value, size));
    CarvedFrees(f, b.value);
    var entrySize := f[chosen.value];
    f' := f - {chosen.value};
    if entrySize > size {
      f' := f'[chosen.value + size := entrySize - size];
    }
  }

  // ---------------------------------------------------------------- deallocation

  /** Size of the extent that ends where `b` starts. */
  function LeftOf(f: FreeList, b: Block): (n: nat)
    ensures n <= b.location && (n > 0 ==> b.location - n in f && f[b.location - n] == n)
  {
    var prev := LastBelow(f, b.location);
    if prev.Some? && prev.value + f[prev.value] == b.location then f[prev.value] else 0
  }

  /** Size of the extent that starts where `b` ends. */
  function RightOf(f: FreeList, b: Block): nat {
    if b.End() in f then f[b.End()] else 0
  }

  /** Block `b` joined with the extents it touches. */
  function Joined(f: FreeList, b: Block): Block {
    Block(b.location - LeftOf(f, b), LeftOf(f, b) + b.size + RightOf(f, b))
  }

  /** `f` with block `b` given back. */
  function Coalesced(f: FreeList, b: Block): FreeList {
    var g := if LeftOf(f, b) > 0 then f - {b.location - LeftOf(f, b)} else f;
    var h := if b.End() in g then g - {b.End()} else g;
    h[Joined(f, b).location := Joined(f, b).size]
  }

  /** A 64-bit sum of `deallocate` overflows. */
  predicate Overflows(f: FreeList, b: Block) {
    b.End() > USIZE_MAX || Joined(f, b).size > USIZE_MAX
  }

  lemma DisjointIsSeparate(f: FreeList, b: Block)
    requires Canonical(f) && b.size > 0
    requires forall p: nat :: b.Has(p) ==> !Free(f, p)
    ensures forall k | k in f :: k + f[k] <= b.location || b.End() <= k
  {
    forall k | k in f ensures k + f[k] <= b.location || b.End() <= k {
      var p := if k < b.location then b.location else k;
      assert p < k + f[k] ==> Free(f, p);
      assert p < b.End() && b.location <= p ==> b.Has(p);
    }
  }

  /** Merges `b` with the extent that ends where it starts. */
  method JoinLeft(f: FreeList, b: Block) returns (g: FreeList, c: Block)
    requires Canonical(f) && b.size > 0
    requires forall k | k in f :: k + f[k] <= b.location || b.End() <= k
    ensures Canonical(g) && c == Block(b.location - LeftOf(f, b), LeftOf(f, b) + b.size)
    ensures g == if LeftOf(f, b) > 0 then f - {c.location} else f
    ensures forall k | k in g :: k in f && g[k] == f[k] && (k + f[k] < c.location || c.End() <= k)
    ensures forall p: nat :: Free(g, p) || c.Has(p) <==> Free(f, p) || b.Has(p)
  {
    g, c := f, b;
    var prev := LastBelow(f, b.location);
    if prev.Some? && prev.value + f[prev.value] == b.location {
      g := g - {prev.value};
      c := Block(prev.value, b.size + f[prev.value]);
      RemoveExtent(f, prev.value);
    }
  }

  /** Merges `c` with the extent that starts where it ends. */
  method JoinRight(g: FreeList, c: Block) returns (h: FreeList, d: Block)
    requires Canonical(g) && c.size > 0
    requires forall k | k in g :: k + g[k] < c.location || c.End() <= k
    ensures Canonical(h) && Apart(h, d)
    ensures d == Block(c.location, c.size + RightOf(g, c))
    ensures h == if c.End() in g then g - {c.End()} else g
    ensures forall p: nat :: Free(h, p) || d.Has(p) <==> Free(g, p) || c.Has(p)
  {
    h, d := g, c;
    if c.End() in g {
      h := g - {c.End()};
      d := Block(c.location, c.size + g[c.End()]);
      RemoveExtent(g, c.End());
    }
  }

  /** `None` is an arithmetic overflow of the source's 64-bit sums. */
  method Deallocate(f: FreeList, b: Block) returns (r: Option<FreeList>)
    requires Canonical(f) && b.size > 0
    requires forall p: nat :: b.Has(p) ==> !Free(f, p)
    ensures r.None? <==> b.End() > USIZE_MAX || LeftOf(f, b) + b.size + RightOf(f, b) > USIZE_MAX
    ensures r.Some? ==> r.value == Coalesced(f, b) && Canonical(r.value)
    ensures r.Some? ==> forall p: nat :: Free(r.value, p) <==> Free(f, p) || b.Has(p)
  {
    hide Free, Canonical, LeftOf;
    DisjointIsSeparate(f, b);
    var g, c := JoinLeft(f, b);
    var h, d := JoinRight(g, c);
    assert b.End() in g <==> b.End() in f;
    assert d == Joined(f, b);
    if c.End() > USIZE_MAX || d.size > USIZE_MAX {
      return None;
    }
    InsertExtent(h, d);
    r := Some(h[d.location := d.size]);
  }

  // ---------------------------------------------------------------- overflow

  /** A stretch of more than `USIZE_MAX` bytes that are free or in `freed`, one of them in `freed`. */
  ghost predicate Stretch(f: FreeList, freed: iset<nat>, a: nat, e: nat) {
    && e - a > USIZE_MAX
    && (forall p: nat | a <= p < e :: Free(f, p) || p in freed)
    && (exists q: nat :: q in freed && a <= q < e)
  }

  /** Giving back the bytes in `freed` makes a free extent that is too large for 64 bits. */
  ghost predicate TooWide(f: FreeList, freed: iset<nat>) {
    exists a: nat, e: nat :: Stretch(f, freed, a, e)
  }

  /** Every extent of `g` fits in 64 bits or was there before. */
  ghost predicate Checked(f: FreeList, g: FreeList) {
    forall k | k in g :: g[k] <= USIZE_MAX || (k in f && f[k] == g[k])
  }

  /** Every free extent fits in 64 bits. */
  ghost predicate Narrow(f: FreeList) {
    forall k | k in f :: f[k] <= USIZE_MAX
  }

  lemma CheckedNarrow(f: FreeList, g: FreeList)
    requires Narrow(f) && Checked(f, g)
    ensures Narrow(g)
  {
  }

  lemma CarvedNarrow(f: FreeList, b: Block)
    requires Narrow(f) && b.location in f && f[b.location] >= b.size
    ensures Narrow(Carved(f, b))
  {
  }

  ghost function Bytes(b: Block): iset<nat> {
    iset p: nat | b.Has(p)
  }

  /** In a region that fits in 64 bits no sum overflows. */
  lemma NoOverflow(f: FreeList, b: Block, lo: nat, hi: nat)
    requires Within(f, lo, hi) && lo <= b.location && b.End() <= hi && hi - lo <= USIZE_MAX && b.End() <= USIZE_MAX
    ensures !Overflows(f, b)
  {
  }

  /** A block that was just carved joins with what is left of its extent, and nothing else. */
  lemma CarvedJoins(f: FreeList, b: Block)
    requires Canonical(f) && b.size > 0
    requires b.location in f && f[b.location] >= b.size
    ensures Joined(Carved(f, b), b) == Block(b.location, f[b.location])
  {
  }

  lemma CheckedTrans(f: FreeList, g: FreeList, h: FreeList)
    requires Checked(f, g) && Checked(g, h)
    ensures Checked(f, h)
  {
  }

  lemma CoalescedChecked(f: FreeList, b: Block)
    requires !Overflows(f, b)
    ensures Checked(f, Coalesced(f, b))
  {
  }

  /** Free bytes without a gap lie in one extent. */
  lemma InOneExtent(f: FreeList, a: nat, e: nat) returns (k: nat)
    requires Canonical(f) && a < e && forall p: nat | a <= p < e :: Free(f, p)
    ensures k in f && k <= a && e <= k + f[k]
  {
    assert Free(f, a);
    k :| k in f && k <= a < k + f[k];
    ExtentIsMaximal(f, k);
  }

  /** The block that overflows, with the extents it touches, is such a stretch. */
  lemma OverflowStretch(f: FreeList, b: Block)
    requires Overflows(f, b) && b.End() <= USIZE_MAX && b.size > 0
    ensures Stretch(f, Bytes(b), Joined(f, b).location, Joined(f, b).End())
  {
    var a, e := Joined(f, b).location, Joined(f, b).End();
    forall p: nat | a <= p < e ensures Free(f, p) || p in Bytes(b) {
      assert a <= p < b.location ==> Free(f, p);
      assert b.End() <= p ==> Free(f, p);
    }
    assert b.location in Bytes(b);
  }

  /** When all of `freed` was given back and every sum was checked, there was no such stretch. */
  lemma CheckedNotWide(f: FreeList, freed: iset<nat>, g: FreeList)
    requires Canonical(g) && Checked(f, g)
    requires forall p: nat :: Free(g, p) <==> Free(f, p) || p in freed
    requires forall p: nat :: p in freed ==> !Free(f, p)
    ensures !TooWide(f, freed)
  {
    forall a: nat, e: nat ensures !Stretch(f, freed, a, e) {
      if Stretch(f, freed, a, e) {
        var q: nat :| q in freed && a <= q < e;
        var k := InOneExtent(g, a, e);
        assert false;
      }
    }
  }

  lemma WiderStretch(f: FreeList, freed: iset<nat>, g: FreeList, more: iset<nat>, a: nat, e: nat)
    requires Stretch(g, more, a, e) && more <= freed
    requires forall p: nat :: Free(g, p) ==> Free(f, p) || p in freed
    ensures TooWide(f, freed)
  {
    var q: nat :| q in more && a <= q < e;
    assert q in freed;
    assert Stretch(f, freed, a, e);
  }

  /** After `open` the free list is one extent of the full 64-bit size at `t`. Bytes below it can be given back
      exactly when the one just below it is not among them. */
  lemma WideAfterOpen(t: nat, freed: iset<nat>)
    requires t <= USIZE_MAX && forall p: nat | p in freed :: p < t
    ensures TooWide(map[t := USIZE_MAX], freed) <==> t > 0 && t - 1 in freed
  {
    var f := map[t := USIZE_MAX];
    assert t in f;
    if t > 0 && t - 1 in freed {
      assert Stretch(f, freed, t - 1, t + USIZE_MAX);
    }
    if TooWide(f, freed) {
      var a: nat, e: nat :| Stretch(f, freed, a, e);
      assert a < t < e;
      assert !Free(f, t - 1);
    }
  }

  /** In a region that ends `USIZE_MAX` bytes after `t`, and is free from `m` on, bytes can be given back unless all
      from the one before `t` on are free then. */
  lemma WideIff(f: FreeList, freed: iset<nat>, t: nat, m: nat)
    requires Canonical(f) && Narrow(f) && m <= USIZE_MAX
    requires forall p: nat :: p in freed ==> !Free(f, p)
    requires forall p: nat :: Free(f, p) || p in freed ==> 0 < p < t + USIZE_MAX
    requires forall p: nat | m <= p < t + USIZE_MAX :: Free(f, p)
    ensures TooWide(f, freed) <==> forall p: nat | t - 1 <= p < t + USIZE_MAX :: Free(f, p) || p in freed
  {
    if TooWide(f, freed) {
      var a: nat, e: nat :| Stretch(f, freed, a, e);
      assert Free(f, e - 1) || e - 1 in freed;
      assert Free(f, a) || a in freed;
      forall p: nat | t - 1 <= p < t + USIZE_MAX ensures Free(f, p) || p in freed {
        assert p >= e ==> m <= p;
      }
    }
    if forall p: nat | t - 1 <= p < t + USIZE_MAX :: Free(f, p) || p in freed {
      WholeTail(f, freed, t);
    }
  }

  lemma WholeTail(f: FreeList, freed: iset<nat>, t: nat)
    requires Canonical(f) && Narrow(f)
    requires forall p: nat :: Free(f, p) || p in freed ==> 0 < p
    requires forall p: nat | t - 1 <= p < t + USIZE_MAX :: Free(f, p) || p in freed
    ensures TooWide(f, freed)
  {
    var start: nat := 0;
    assert !Free(f, start) && start !in freed;
    if forall p: nat | t - 1 <= p < t + USIZE_MAX :: Free(f, p) {
      var k := InOneExtent(f, t - 1, t + USIZE_MAX);
      assert false;
    }
    assert Stretch(f, freed, t - 1, t + USIZE_MAX);
  }
}
