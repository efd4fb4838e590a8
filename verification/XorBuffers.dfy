/** Words and buffers that are combined with exclusive or. */
module XorBuffers {
  import opened Extents

  /** The exclusive or of two checksums, modes or owners. */
  function Xor(a: bv32, b: bv32): bv32 { a ^ b }

  lemma XorTwice(a: bv32, b: bv32)
    ensures Xor(Xor(a, b), b) == a && Xor(a, b) == Xor(b, a) && Xor(a, 0) == a
  {
  }

  lemma XorAssoc(a: bv32, b: bv32, c: bv32)
    ensures Xor(Xor(a, b), c) == Xor(a, Xor(b, c))
  {
    AssocBits(a, b, c, Xor(a, b), Xor(b, c));
  }

  lemma AssocBits(a: bv32, b: bv32, c: bv32, p: bv32, q: bv32)
    requires p == a ^ b && q == b ^ c
    ensures p ^ c == a ^ q
  {
  }

  lemma XorZero(a: bv32, b: bv32)
    ensures Xor(a, 0) == a && (Xor(a, b) == 0 <==> a == b)
  {
    ZeroBits(a, b, Xor(a, b));
  }

  lemma ZeroBits(a: bv32, b: bv32, c: bv32)
    requires c == a ^ b
    ensures c == 0 <==> a == b
  {
  }

  lemma XorPairs(a: bv32, b: bv32, p: bv32, q: bv32)
    ensures Xor(Xor(a, p), Xor(b, q)) == Xor(Xor(a, b), Xor(p, q))
  {
    hide Xor;
    XorTwice(p, b);
    XorAssoc(a, p, Xor(b, q));
    XorAssoc(p, b, q);
    XorAssoc(b, p, q);
    XorAssoc(a, b, Xor(p, q));
  }

  function Combine(a: Byte, b: Byte): Byte { a ^ b }

  /** `buf` with its first bytes combined with `with`. */
  function Xored(buf: seq<Byte>, with: seq<Byte>): (r: seq<Byte>)
    requires |with| <= |buf|
    ensures |r| == |buf|
    ensures forall i | 0 <= i < |buf| :: r[i] == if i < |with| then Combine(buf[i], with[i]) else buf[i]
  {
    seq(|buf|, i requires 0 <= i < |buf| => if i < |with| then Combine(buf[i], with[i]) else buf[i])
  }

  lemma XoredParts(a: seq<Byte>, b: seq<Byte>, x: seq<Byte>, y: seq<Byte>)
    requires |a| == |b| && |x| == |y|
    ensures Xored(a + x, b + y) == Xored(a, b) + Xored(x, y)
  {
    hide Combine;
  }

  lemma ByteXor(a: Byte, b: Byte)
    ensures Combine(Combine(a, b), b) == a && Combine(a, b) == Combine(b, a) && (Combine(a, b) == 0 <==> a == b)
  {
  }

  /** Combining twice gives the buffer back. */
  lemma XoredTwice(buf: seq<Byte>, with: seq<Byte>)
    requires |with| <= |buf|
    ensures Xored(Xored(buf, with), with) == buf
  {
    hide Combine;
    forall i | 0 <= i < |buf| ensures Xored(Xored(buf, with), with)[i] == buf[i] {
      if i < |with| { ByteXor(buf[i], with[i]); }
    }
  }

  /** Combines the first bytes of the buffer with `with`, in place. */
  method XorBuf(buf: array<Byte>, with: seq<Byte>)
    requires |with| <= buf.Length
    modifies buf
    ensures buf[..] == Xored(old(buf[..]), with)
  {
    hide Combine;
    for i := 0 to |with|
      invariant forall j | 0 <= j < i :: buf[j] == Combine(old(buf[j]), with[j])
      invariant forall j | i <= j < buf.Length :: buf[j] == old(buf[j])
    {
      buf[i] := Combine(buf[i], with[i]);
    }
  }

  /** What a read of `len` bytes at `offset` returns: the part of the range that lies in the file. */
  function Overlap(file: seq<Byte>, offset: nat, len: nat): (r: seq<Byte>)
    ensures |r| <= len && (|r| < len ==> |file| <= offset + |r|) && (r != [] ==> offset + |r| <= |file|)
    ensures forall i | 0 <= i < |r| :: r[i] == At(file, offset + i)
  {
    if |file| <= offset then []
    else if |file| <= offset + len then file[offset..]
    else file[offset..offset + len]
  }
}
