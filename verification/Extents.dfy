/**
 The extent map of one file in a snapshot: file offset -> block of the snapshot file. Its meaning is
 a partial map from file offsets to bytes, read through the blocks.
 */
module Extents {
  import opened FreeLists

  type Byte = bv8

  type DataList = map<nat, Block>

  // ---------------------------------------------------------------- the snapshot file

  /** The byte at `p`; a file reads as zero where it was never written. */
  function At(s: seq<Byte>, p: nat): Byte {
    if p < |s| then s[p] else 0
  }

  /** `write_all_at`: a hole before the written range is filled with zeros. */
  function WriteAt(s: seq<Byte>, offset: nat, buf: seq<Byte>): (r: seq<Byte>)
    ensures |r| == if buf == [] || offset + |buf| <= |s| then |s| else offset + |buf|
    ensures forall p: nat :: At(r, p) == if offset <= p < offset + |buf| then buf[p - offset] else At(s, p)
  {
    var n := if buf == [] || offset + |buf| <= |s| then |s| else offset + |buf|;
    seq(n, p requires 0 <= p => if offset <= p < offset + |buf| then buf[p - offset] else At(s, p))
  }

  /** `set_len`. */
  function SetLen(s: seq<Byte>, n: nat): (r: seq<Byte>)
    ensures |r| == n && forall p: nat :: At(r, p) == if p < n then At(s, p) else 0
  {
    seq(n, p requires 0 <= p => At(s, p))
  }

  // ---------------------------------------------------------------- meaning of an extent map

  ghost predicate Covers(d: DataList, k: nat, x: nat) {
    k in d && k <= x < k + d[k].size
  }

  ghost predicate Mapped(d: DataList, x: nat) {
    exists k :: Covers(d, k, x)
  }

  /** Some block of `d` holds byte `p` of the snapshot file. */
  ghost predicate Owned(d: DataList, p: nat) {
    exists k :: k in d && d[k].Has(p)
  }

  /** Blocks are not empty and do not overlap as ranges of the file they describe. */
  ghost predicate Ordered(d: DataList) {
    && (forall k | k in d :: d[k].size > 0)
    && (forall j, k | j in d && k in d && j < k :: j + d[j].size <= k)
  }

  /** No byte of the snapshot file belongs to two blocks. */
  ghost predicate Exclusive(d: DataList) {
    forall j, k, p: nat :: j in d && k in d && d[j].Has(p) && d[k].Has(p) ==> j == k
  }

  ghost predicate WellFormed(d: DataList) {
    Ordered(d) && Exclusive(d)
  }

  /** Where byte `x` of the file is kept. */
  ghost function Locate(d: DataList, x: nat): nat
    requires Mapped(d, x)
  {
    var k :| Covers(d, k, x);
    d[k].location + (x - k)
  }

  lemma LocateIs(d: DataList, k: nat, x: nat)
    requires Ordered(d) && Covers(d, k, x)
    ensures Mapped(d, x) && Locate(d, x) == d[k].location + (x - k)
  {
  }

  /** The partial map from file offsets to bytes that `d` stands for. */
  ghost function Content(d: DataList, s: seq<Byte>): imap<nat, Byte> {
    imap x: nat | Mapped(d, x) :: At(s, Locate(d, x))
  }

  /** Last-writer-wins overlay of a write. */
  ghost function Overlay(c: imap<nat, Byte>, offset: nat, buf: seq<Byte>): imap<nat, Byte> {
    imap x: nat | x in c || offset <= x < offset + |buf| ::
      if offset <= x < offset + |buf| then buf[x - offset] else c[x]
  }

  /** What a truncation to `size` leaves. */
  ghost function Clip(c: imap<nat, Byte>, size: nat): imap<nat, Byte> {
    imap x: nat | x in c && x < size :: c[x]
  }

  // ---------------------------------------------------------------- removing and inserting blocks

  lemma RemoveBlock(d: DataList, k: nat)
    requires WellFormed(d) && k in d
    ensures WellFormed(d - {k})
    ensures forall p: nat :: Owned(d - {k}, p) <==> Owned(d, p) && !d[k].Has(p)
    ensures forall p: nat :: d[k].Has(p) ==> Owned(d, p)
  {
    forall p: nat ensures Owned(d - {k}, p) <==> Owned(d, p) && !d[k].Has(p) {
      if Owned(d, p) && !d[k].Has(p) {
        var j :| j in d && d[j].Has(p);
        assert j in d - {k};
      }
    }
  }

  /** The range [k, k + b.size) is not used by `d`. */
  ghost predicate Vacant(d: DataList, k: nat, b: Block) {
    b.size > 0 && forall j | j in d :: j + d[j].size <= k || k + b.size <= j
  }

  lemma InsertOrdered(d: DataList, k: nat, b: Block)
    requires Ordered(d) && Vacant(d, k, b)
    ensures k !in d && Ordered(d[k := b])
  {
  }

  lemma InsertBlock(d: DataList, k: nat, b: Block)
    requires WellFormed(d) && Vacant(d, k, b)
    requires forall p: nat :: b.Has(p) ==> !Owned(d, p)
    ensures k !in d && WellFormed(d[k := b])
    ensures forall p: nat :: Owned(d[k := b], p) <==> Owned(d, p) || b.Has(p)
  {
    InsertOrdered(d, k, b);
    var e := d[k := b];
    forall p: nat ensures Owned(e, p) <==> Owned(d, p) || b.Has(p) {
      assert k in e && e[k] == b;
      if Owned(d, p) {
        var j :| j in d && d[j].Has(p);
        assert j in e && e[j] == d[j];
      }
      if Owned(e, p) {
        var j :| j in e && e[j].Has(p);
        assert j != k ==> j in d;
      }
    }
    forall i, j, p: nat | i in e && j in e && e[i].Has(p) && e[j].Has(p) ensures i == j {
      assert (i == k || i in d) && (j == k || j in d);
    }
  }

  /** Blocks that survive from `d` to `e` keep their meaning when the bytes under them do. */
  lemma KeptContent(d: DataList, s: seq<Byte>, e: DataList, t: seq<Byte>, x: nat, k: nat)
    requires Ordered(d) && Ordered(e)
    requires Covers(d, k, x) && k in e && e[k] == d[k]
    requires At(t, d[k].location + (x - k)) == At(s, d[k].location + (x - k))
    ensures x in Content(d, s) && x in Content(e, t) && Content(e, t)[x] == Content(d, s)[x]
  {
    LocateIs(d, k, x);
    LocateIs(e, k, x);
  }

  ghost predicate SameBytes(d: DataList, s: seq<Byte>, t: seq<Byte>) {
    forall p: nat :: Owned(d, p) ==> At(t, p) == At(s, p)
  }

  /** Every block of `rest` is a block of `d`; the blocks of `d` that are not in `rest` lie in
      [k, k + b.size), the range of the new block `b`. */
  ghost predicate Replaces(d: DataList, rest: DataList, k: nat, b: Block) {
    && (forall j | j in rest :: j in d && d[j] == rest[j])
    && (forall j | j in d && j !in rest :: k <= j && j + d[j].size <= k + b.size)
  }

  /** `c` with the range of block `b`, placed at `k`, read from `t`. */
  ghost function Redirect(c: imap<nat, Byte>, k: nat, b: Block, t: seq<Byte>): imap<nat, Byte> {
    imap x: nat | x in c || k <= x < k + b.size :: if k <= x < k + b.size then At(t, b.location + (x - k)) else c[x]
  }

  lemma KeptOutside(d: DataList, s: seq<Byte>, rest: DataList, k: nat, b: Block, t: seq<Byte>, x: nat)
    requires Ordered(d) && Ordered(rest) && Vacant(rest, k, b) && Replaces(d, rest, k, b)
    requires SameBytes(rest, s, t) && !(k <= x < k + b.size)
    ensures Mapped(rest[k := b], x) <==> Mapped(d, x)
    ensures Mapped(d, x) ==> Content(rest[k := b], t)[x] == Content(d, s)[x]
  {
    InsertOrdered(rest, k, b);
    var e := rest[k := b];
    if Mapped(d, x) {
      var j :| Covers(d, j, x);
      assert j in rest && j != k;
      assert rest[j].Has(d[j].location + (x - j));
      KeptContent(d, s, e, t, x, j);
    }
    if Mapped(e, x) {
      var j :| Covers(e, j, x);
      assert j != k && j in rest && Covers(d, j, x);
    }
  }

  /** Replacing blocks by one new block: outside the new block's range the content is kept, inside
      it is read from the new block. */
  lemma ReplaceContent(d: DataList, s: seq<Byte>, rest: DataList, k: nat, b: Block, t: seq<Byte>)
    requires Ordered(d) && Ordered(rest) && Vacant(rest, k, b) && Replaces(d, rest, k, b)
    requires SameBytes(rest, s, t)
    ensures Content(rest[k := b], t) == Redirect(Content(d, s), k, b, t)
  {
    InsertOrdered(rest, k, b);
    var e := rest[k := b];
    forall x: nat ensures Mapped(e, x) <==> x in Redirect(Content(d, s), k, b, t)
                  ensures Mapped(e, x) ==> Content(e, t)[x] == Redirect(Content(d, s), k, b, t)[x] {
      if k <= x < k + b.size {
        assert Covers(e, k, x);
        LocateIs(e, k, x);
      } else {
        KeptOutside(d, s, rest, k, b, t, x);
      }
    }
  }
}
