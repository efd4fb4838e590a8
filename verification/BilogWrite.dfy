/** The record of a write in the bidirectional log: it serves to write again and to undo the write. */
module BilogWrite {
  import opened Wrappers
  import opened Extents
  import opened XorBuffers
  import opened Checksums
  import opened DeltaWrites

  /** The exclusive or of two lengths, bit by bit. */
  function XorLength(a: nat, b: nat): nat {
    if a == 0 && b == 0 then 0 else 2 * XorLength(a / 2, b / 2) + if a % 2 == b % 2 then 0 else 1
  }

  lemma XorBits(a: nat, b: nat)
    ensures XorLength(a, b) / 2 == XorLength(a / 2, b / 2) && (XorLength(a, b) % 2 == 0 <==> a % 2 == b % 2)
  {
  }

  lemma SameNumber(a: nat, b: nat)
    requires a / 2 == b / 2 && (a % 2 == 0 <==> b % 2 == 0)
    ensures a == b
  {
  }

  lemma {:induction false} XorLengthTwice(a: nat, b: nat)
    ensures XorLength(XorLength(a, b), b) == a
  {
    if a != 0 || b != 0 {
      hide XorLength;
      var x := XorLength(a, b);
      XorLengthTwice(a / 2, b / 2);
      XorBits(a, b);
      XorBits(x, b);
      SameNumber(XorLength(x, b), a);
    }
  }

  lemma {:induction false} XorLengthSymmetric(a: nat, b: nat)
    ensures XorLength(a, b) == XorLength(b, a)
  {
    if a != 0 || b != 0 { XorLengthSymmetric(a / 2, b / 2); }
  }

  lemma XorCancels(a: bv32, b: bv32, c: bv32)
    ensures Xor(a, b) == Xor(c, b) <==> a == c
  {
  }

  // ---------------------------------------------------------------- the record

  /** The checksum of a buffer and a length. */
  type Digest = (seq<Byte>, nat) -> bv32

  /** `buf` and `length` are those of the new write, of the old file, or their exclusive or. */
  datatype Record = Record(offset: nat, buf: seq<Byte>, length: nat, checksum: bv32)

  /** The new state, as far as the call tells it: its length is recorded as zero. */
  function NewState(d: Digest, offset: nat, data: seq<Byte>): Record {
    Record(offset, data, 0, d(data, 0))
  }

  /** What the file holds where `len` bytes are to be written. */
  function OldState(d: Digest, file: seq<Byte>, offset: nat, len: nat): Record {
    var lap := Overlap(file, offset, len);
    Record(offset, lap, |file|, d(lap, |file|))
  }

  function XorState(o: Record, n: Record): Record
    requires |o.buf| <= |n.buf|
  {
    var end := n.offset + |n.buf|;
    var length := if end < o.length then o.length else end;
    Record(n.offset, Xored(n.buf, o.buf), XorLength(length, o.length), Xor(n.checksum, o.checksum))
  }

  /** The record of a write of `data` to `file`. */
  function Recorded(d: Digest, file: seq<Byte>, offset: nat, data: seq<Byte>): Record {
    XorState(OldState(d, file, offset, |data|), NewState(d, offset, data))
  }

  // ---------------------------------------------------------------- replaying a record

  datatype Replay = Rewrite(offset: nat, buf: seq<Byte>) | TruncatingWrite(offset: nat, buf: seq<Byte>, length: nat)

  function Patched(x: Record, o: Record): seq<Byte>
    requires |o.buf| <= |x.buf|
  {
    if o.buf == [] then x.buf else Xored(x.buf, o.buf)
  }

  /** The checksum of the state that the record leads to is the one recorded. */
  predicate Guard(d: Digest, x: Record, o: Record)
    requires |o.buf| <= |x.buf|
  {
    Xor(d(Patched(x, o), XorLength(x.length, o.length)), o.checksum) == x.checksum
  }

  /** The call that the record stands for, past the guard. */
  function Constructed(x: Record, o: Record): Replay
    requires |o.buf| <= |x.buf|
  {
    var length := XorLength(x.length, o.length);
    if length >= o.length then Rewrite(x.offset, Patched(x, o)) else TruncatingWrite(x.offset, Patched(x, o), length)
  }

  function Apply(d: Digest, x: Record, file: seq<Byte>): Option<Replay> {
    var o := OldState(d, file, x.offset, |x.buf|);
    if Guard(d, x, o) then Some(Constructed(x, o)) else None
  }

  function Dispatched(file: seq<Byte>, call: Replay): seq<Byte> {
    match call
    case Rewrite(offset, buf) => WriteAt(file, offset, buf)
    case TruncatingWrite(offset, buf, length) => SetLen(WriteAt(file, offset, buf), length)
  }

  // ---------------------------------------------------------------- both ways

  /** The length the record leads to from the length `now`. */
  lemma LengthReached(was: nat, end: nat)
    ensures var length := if end < was then was else end;
      XorLength(XorLength(length, was), was) == length && XorLength(XorLength(length, was), length) == was
  {
    var length := if end < was then was else end;
    XorLengthTwice(length, was);
    XorLengthSymmetric(length, was);
    XorLengthTwice(was, length);
  }

  lemma RedoBuffer(d: Digest, file: seq<Byte>, offset: nat, data: seq<Byte>)
    ensures Patched(Recorded(d, file, offset, data), OldState(d, file, offset, |data|)) == data
  {
    XoredTwice(data, Overlap(file, offset, |data|));
    hide Combine;
  }

  /** Where the file was, the record does the write again. */
  lemma RedoWrite(d: Digest, file: seq<Byte>, offset: nat, data: seq<Byte>)
    ensures var x := Recorded(d, file, offset, data);
      var o := OldState(d, file, x.offset, |x.buf|);
      && Constructed(x, o).Rewrite? && Dispatched(file, Constructed(x, o)) == WriteAt(file, offset, data)
      && (Guard(d, x, o) <==> d(data, if offset + |data| < |file| then |file| else offset + |data|) == d(data, 0))
  {
    hide Combine, XorLength, Xor, Overlap;
    var x, o := Recorded(d, file, offset, data), OldState(d, file, offset, |data|);
    RedoBuffer(d, file, offset, data);
    LengthReached(|file|, offset + |data|);
    var length := if offset + |data| < |file| then |file| else offset + |data|;
    XorCancels(d(data, length), o.checksum, d(data, 0));
    hide Patched, Xored;
  }

  /** The bytes that undo the write: those of the old file, and zeroes past its end. */
  function UndoBuffer(file: seq<Byte>, offset: nat, n: nat): (r: seq<Byte>)
    ensures |r| == n && forall i | 0 <= i < n :: r[i] == At(file, offset + i)
  {
    seq(n, i requires 0 <= i => At(file, offset + i))
  }

  /** A file that was written to holds what was written. */
  lemma ReadBack(file: seq<Byte>, offset: nat, data: seq<Byte>)
    ensures Overlap(WriteAt(file, offset, data), offset, |data|) == data
  {
    var lap := Overlap(WriteAt(file, offset, data), offset, |data|);
    hide Overlap, WriteAt;
    assert |lap| == |data|;
    forall i | 0 <= i < |data| ensures lap[i] == data[i] {
      assert lap[i] == At(WriteAt(file, offset, data), offset + i);
    }
  }

  lemma UndoBytes(d: Digest, file: seq<Byte>, offset: nat, data: seq<Byte>)
    ensures Patched(Recorded(d, file, offset, data), OldState(d, WriteAt(file, offset, data), offset, |data|)) ==
      UndoBuffer(file, offset, |data|)
  {
    hide Combine, XorLength, Xor, Overlap, WriteAt;
    ReadBack(file, offset, data);
    var lap := Overlap(file, offset, |data|);
    forall i | 0 <= i < |data| ensures Combine(Xored(data, lap)[i], data[i]) == At(file, offset + i) {
      if i < |lap| {
        ByteXor(data[i], lap[i]);
        ByteXor(lap[i], data[i]);
      } else {
        ByteXor(data[i], data[i]);
      }
    }
    assert data == [] ==> UndoBuffer(file, offset, |data|) == [];
  }

  /** Putting the old bytes back and cutting the file to its old length restores it. */
  lemma Restored(file: seq<Byte>, offset: nat, data: seq<Byte>)
    ensures var after := WriteAt(file, offset, data);
      var back := WriteAt(after, offset, UndoBuffer(file, offset, |data|));
      SetLen(back, |file|) == file && (|file| == |after| ==> back == file)
  {
    hide WriteAt, UndoBuffer, SetLen;
    var after := WriteAt(file, offset, data);
    var back := WriteAt(after, offset, UndoBuffer(file, offset, |data|));
    assert forall p: nat :: At(back, p) == At(file, p);
    SameFile(SetLen(back, |file|), file);
    if |file| == |after| { SameFile(back, file); }
  }

  /** Where the write has been done, the record undoes it, length included: the file is cut exactly when the write had
      made it longer. */
  lemma UndoWrite(d: Digest, file: seq<Byte>, offset: nat, data: seq<Byte>)
    ensures var x, after := Recorded(d, file, offset, data), WriteAt(file, offset, data);
      var o := OldState(d, after, x.offset, |x.buf|);
      Dispatched(after, Constructed(x, o)) == file && (Constructed(x, o).TruncatingWrite? <==> |file| < |after|)
  {
    hide Combine, XorLength, Xor, Overlap, WriteAt, SetLen, UndoBuffer;
    var x, after := Recorded(d, file, offset, data), WriteAt(file, offset, data);
    var o := OldState(d, after, x.offset, |x.buf|);
    UndoBytes(d, file, offset, data);
    Restored(file, offset, data);
    LengthReached(|file|, offset + |data|);
    XorLengthTwice(offset, |file|);
    hide Patched, Xored;
  }

  /** When the guard lets the record undo the write; within the file this is when it lets the record do it
      again. */
  lemma UndoGuard(d: Digest, file: seq<Byte>, offset: nat, data: seq<Byte>)
    requires data != []
    ensures var x, after := Recorded(d, file, offset, data), WriteAt(file, offset, data);
      var o := OldState(d, after, x.offset, |x.buf|);
      var lap := Overlap(file, offset, |data|);
      && (Guard(d, x, o) <==>
           Xor(d(UndoBuffer(file, offset, |data|), |file|), d(data, |after|)) == Xor(d(data, 0), d(lap, |file|)))
      && (offset + |data| <= |file| ==> (Guard(d, x, o) <==> d(data, |file|) == d(data, 0)))
  {
    hide Combine, XorLength, Xor, Overlap, WriteAt, UndoBuffer;
    UndoBytes(d, file, offset, data);
    ReadBack(file, offset, data);
    LengthReached(|file|, offset + |data|);
    if offset + |data| <= |file| {
      var lap := Overlap(file, offset, |data|);
      assert UndoBuffer(file, offset, |data|) == lap;
      XorTwice(d(data, |file|), d(lap, |file|));
      XorCancels(d(data, |file|), d(lap, |file|), d(data, 0));
    }
    hide Patched, Xored;
  }

  // ---------------------------------------------------------------- the checksum of the source

  /** The hash of a buffer starts with its length. */
  function Crc32Digest(buf: seq<Byte>, length: nat): bv32 {
    Crc32(LengthBytes(|buf|) + buf + LengthBytes(length))
  }

  lemma LengthMatters(buf: seq<Byte>, length: nat)
    requires length < WORD_RANGE
    ensures Crc32Digest(buf, length) == Crc32Digest(buf, 0) <==> length == 0
  {
    hide Crc32, LengthBytes;
    LengthTold(LengthBytes(|buf|) + buf, length);
  }

  /** With CRC-32, in a file of less than 4 GiB, the guard refuses to do a write again unless the file stays empty,
      and it refuses to undo every write inside the file. */
  lemma WriteRefused(file: seq<Byte>, offset: nat, data: seq<Byte>)
    requires |file| < WORD_RANGE && offset + |data| < WORD_RANGE
    ensures var x := Recorded(Crc32Digest, file, offset, data);
      && (Apply(Crc32Digest, x, file).None? <==> |file| > 0 || offset + |data| > 0)
      && (data != [] && offset + |data| <= |file| ==> Apply(Crc32Digest, x, WriteAt(file, offset, data)).None?)
  {
    hide Crc32Digest, Combine, XorLength, Xor, Overlap, WriteAt, Patched, Xored, Guard;
    RedoWrite(Crc32Digest, file, offset, data);
    LengthMatters(data, if offset + |data| < |file| then |file| else offset + |data|);
    if data != [] && offset + |data| <= |file| {
      UndoGuard(Crc32Digest, file, offset, data);
      LengthMatters(data, |file|);
    }
  }

  lemma SolveXor(a: bv32, b: bv32, c: bv32, d: bv32)
    ensures Xor(a, b) == Xor(c, d) <==> Xor(Xor(a, b), c) == d
  {
    hide Xor;
    XorTwice(c, d);
    XorTwice(d, c);
    XorTwice(Xor(a, b), c);
  }

  /** The input whose checksum an undo of the write is compared with: the bytes to be put back, and the exclusive or of
      the two lengths of the file. */
  function UndoInput(file: seq<Byte>, offset: nat, n: nat): seq<Byte> {
    var after := if n == 0 || offset + n <= |file| then |file| else offset + n;
    LengthBytes(n) + UndoBuffer(file, offset, n) + Xored(LengthBytes(|file|), LengthBytes(after))
  }

  lemma ThreeInputs(x: seq<Byte>, y: seq<Byte>, a: nat, b: nat)
    requires |x| == |y|
    ensures Xor(Xor(Crc32Digest(x, a), Crc32Digest(y, b)), Crc32Digest(y, 0)) ==
      Crc32(LengthBytes(|x|) + x + Xored(LengthBytes(a), LengthBytes(b)))
  {
    hide Crc32, LengthBytes, Xored, Xor;
    var l, p, q, z := LengthBytes(|x|), LengthBytes(a), LengthBytes(b), LengthBytes(0);
    LengthSize(|x|);
    LengthSize(a);
    LengthSize(b);
    LengthSize(0);
    Crc32Affine(l + x + p, l + y + q, l + y + z);
    XoredParts(l + x, l + y, p, q);
    XoredParts(l, l, x, y);
    XoredParts(Xored(l, l) + Xored(x, y), l + y, Xored(p, q), z);
    XoredParts(Xored(l, l), l, Xored(x, y), y);
    XoredTwice(l, l);
    XoredTwice(x, y);
    ZeroLength(Xored(p, q));
  }

  lemma LengthSize(n: nat)
    ensures |LengthBytes(n)| == 8
  {
  }

  /** With CRC-32 the guard of an undo compares two checksums that do not depend on the data written. */
  lemma UndoGuardCrc32(file: seq<Byte>, offset: nat, data: seq<Byte>)
    requires data != []
    ensures var x, after := Recorded(Crc32Digest, file, offset, data), WriteAt(file, offset, data);
      Guard(Crc32Digest, x, OldState(Crc32Digest, after, x.offset, |x.buf|)) <==>
      Crc32(UndoInput(file, offset, |data|)) == Crc32Digest(Overlap(file, offset, |data|), |file|)
  {
    hide *;
    var after, lap := WriteAt(file, offset, data), Overlap(file, offset, |data|);
    var undo := UndoBuffer(file, offset, |data|);
    UndoGuard(Crc32Digest, file, offset, data);
    UndoInputIs(file, offset, data);
    ThreeInputs(undo, data, |file|, |after|);
    SolveXor(Crc32Digest(undo, |file|), Crc32Digest(data, |after|), Crc32Digest(data, 0), Crc32Digest(lap, |file|));
    RecordedPlace(file, offset, data);
  }

  lemma UndoInputIs(file: seq<Byte>, offset: nat, data: seq<Byte>)
    ensures UndoInput(file, offset, |data|) ==
      LengthBytes(|data|) + UndoBuffer(file, offset, |data|)
        + Xored(LengthBytes(|file|), LengthBytes(|WriteAt(file, offset, data)|))
  {
    hide LengthBytes, Xored, UndoBuffer;
  }

  lemma RecordedPlace(file: seq<Byte>, offset: nat, data: seq<Byte>)
    ensures var x := Recorded(Crc32Digest, file, offset, data); x.offset == offset && |x.buf| == |data|
  {
    hide Crc32Digest, XorLength, Xor, Combine;
  }

  /** Whether a write can be undone depends on its place and length alone. */
  lemma UndoIgnoresData(file: seq<Byte>, offset: nat, data: seq<Byte>, other: seq<Byte>)
    requires data != [] && |other| == |data|
    ensures
      Apply(Crc32Digest, Recorded(Crc32Digest, file, offset, data), WriteAt(file, offset, data)).None? <==>
      Apply(Crc32Digest, Recorded(Crc32Digest, file, offset, other), WriteAt(file, offset, other)).None?
  {
    hide Crc32Digest, Guard, Overlap, WriteAt, Xored, XorLength, Xor, Crc32, UndoInput, Patched;
    UndoGuardCrc32(file, offset, data);
    UndoGuardCrc32(file, offset, other);
  }
}
