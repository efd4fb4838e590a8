/**
 CRC-32 (IEEE 802.3), the checksum of the records of the bidirectional log. It is affine: the checksum of the
 exclusive or of three inputs of one length is the exclusive or of their checksums.
 */
module Checksums {
  import opened Extents
  import opened XorBuffers

  // ---------------------------------------------------------------- definition

  const POLYNOMIAL: bv32 := 0xEDB8_8320

  function Half(c: bv32): bv32 { c >> 1 }

  predicate Odd(c: bv32) { c & 1 == 1 }

  /** One bit of the division by the reversed polynomial. */
  function Shift(c: bv32): bv32 {
    if Odd(c) then Xor(Half(c), POLYNOMIAL) else Half(c)
  }

  function Shift4(c: bv32): bv32 {
    Shift(Shift(Shift(Shift(c))))
  }

  function Shift8(c: bv32): bv32 {
    Shift4(Shift4(c))
  }

  function Wide(b: Byte): bv32 {
    b as bv32
  }

  function Feed(c: bv32, b: Byte): bv32 {
    Shift8(Xor(c, Wide(b)))
  }

  function Fold(c: bv32, bytes: seq<Byte>): bv32
    decreases |bytes|
  {
    if bytes == [] then c else Fold(Feed(c, bytes[0]), bytes[1..])
  }

  function Crc32(bytes: seq<Byte>): bv32 {
    Xor(Fold(0xFFFF_FFFF, bytes), 0xFFFF_FFFF)
  }

  function Low(w: bv32): Byte { (w & 0xFF) as bv8 }

  function Next(w: bv32): bv32 { w >> 8 }

  /** A word as the hasher sees it, lowest byte first. */
  function WordBytes(w: bv32): (bytes: seq<Byte>)
    ensures |bytes| == 4
  {
    [Low(w), Low(Next(w)), Low(Next(Next(w))), Low(Next(Next(Next(w))))]
  }

  // ---------------------------------------------------------------- check values

  /** The digits 1 to 9, and the remainders before and after each of them. */
  const DIGITS: seq<Byte> := [0x31, 0x32, 0x33, 0x34, 0x35, 0x36, 0x37, 0x38, 0x39]

  const REMAINDERS: seq<bv32> := [
    0xFFFF_FFFF, 0x7C23_1048, 0xB0AC_BB32, 0x77B7_9C2D, 0x641C_1F5C,
    0x340A_C5E3, 0xF68D_2C9E, 0xAFFC_9660, 0x651F_2550, 0x340B_C6D9]

  lemma FirstDigits()
    ensures forall i | 0 <= i < 3 :: Feed(REMAINDERS[i], DIGITS[i]) == REMAINDERS[i + 1]
  {
    assert Feed(0xFFFF_FFFF, 0x31) == 0x7C23_1048;
    assert Feed(0x7C23_1048, 0x32) == 0xB0AC_BB32;
    assert Feed(0xB0AC_BB32, 0x33) == 0x77B7_9C2D;
  }

  lemma MiddleDigits()
    ensures forall i | 3 <= i < 6 :: Feed(REMAINDERS[i], DIGITS[i]) == REMAINDERS[i + 1]
  {
    assert Feed(0x77B7_9C2D, 0x34) == 0x641C_1F5C;
    assert Feed(0x641C_1F5C, 0x35) == 0x340A_C5E3;
    assert Feed(0x340A_C5E3, 0x36) == 0xF68D_2C9E;
  }

  lemma LastDigits()
    ensures forall i | 6 <= i < 9 :: Feed(REMAINDERS[i], DIGITS[i]) == REMAINDERS[i + 1]
  {
    assert Feed(0xF68D_2C9E, 0x37) == 0xAFFC_9660;
    assert Feed(0xAFFC_9660, 0x38) == 0x651F_2550;
    assert Feed(0x651F_2550, 0x39) == 0x340B_C6D9;
  }

  lemma {:induction false} FoldMore(c: bv32, bytes: seq<Byte>, b: Byte)
    ensures Fold(c, bytes + [b]) == Feed(Fold(c, bytes), b)
    decreases |bytes|
  {
    hide Feed;
    if bytes == [] {
      assert [b][1..] == [];
    } else {
      FoldMore(Feed(c, bytes[0]), bytes[1..], b);
      assert (bytes + [b])[1..] == bytes[1..] + [b];
    }
  }

  lemma {:induction false} DigitsFold(n: nat)
    requires n <= 9
    ensures Fold(0xFFFF_FFFF, DIGITS[..n]) == REMAINDERS[n]
  {
    hide Feed;
    if n > 0 {
      DigitsFold(n - 1);
      FirstDigits();
      MiddleDigits();
      LastDigits();
      assert DIGITS[..n] == DIGITS[..n - 1] + [DIGITS[n - 1]];
      FoldMore(0xFFFF_FFFF, DIGITS[..n - 1], DIGITS[n - 1]);
    }
  }

  /** The values of the IEEE 802.3 polynomial: that of the digits 1 to 9 is the one that catalogues of checksums give.
      A word is hashed lowest byte first. */
  lemma CheckValues()
    ensures Crc32(DIGITS) == 0xCBF4_3926
    ensures Crc32(WordBytes(0x3433_3231)) == 0x9BE3_E0A3
    ensures Crc32(WordBytes(0x3433_3231) + WordBytes(0x3837_3635)) == 0x9AE0_DAAF
  {
    hide Feed, Fold;
    DigitsFold(9);
    DigitsFold(8);
    DigitsFold(4);
    assert DIGITS[..9] == DIGITS;
    WordDigits();
  }

  lemma WordDigits()
    ensures WordBytes(0x3433_3231) == DIGITS[..4]
    ensures WordBytes(0x3433_3231) + WordBytes(0x3837_3635) == DIGITS[..8]
  {
    assert WordBytes(0x3433_3231) == [0x31, 0x32, 0x33, 0x34];
    assert WordBytes(0x3837_3635) == [0x35, 0x36, 0x37, 0x38];
  }

  // ---------------------------------------------------------------- linear

  lemma HalfLinear(a: bv32, b: bv32)
    ensures Half(Xor(a, b)) == Xor(Half(a), Half(b)) && (Odd(Xor(a, b)) <==> Odd(a) != Odd(b))
  {
    HalfBits(a, b, Xor(a, b), Half(a), Half(b));
  }

  lemma HalfBits(a: bv32, b: bv32, c: bv32, p: bv32, q: bv32)
    requires c == a ^ b && p == a >> 1 && q == b >> 1
    ensures c >> 1 == p ^ q && (c & 1 == 1 <==> (a & 1 == 1) != (b & 1 == 1))
  {
  }

  lemma ShiftLinear(a: bv32, b: bv32)
    ensures Shift(Xor(a, b)) == Xor(Shift(a), Shift(b))
  {
    hide Half, Odd, Xor;
    HalfLinear(a, b);
    var p, q := if Odd(a) then POLYNOMIAL else 0, if Odd(b) then POLYNOMIAL else 0;
    XorPairs(Half(a), Half(b), p, q);
    XorZero(Half(a), 0);
    XorZero(Half(b), 0);
    XorZero(Xor(Half(a), Half(b)), 0);
    XorZero(p, q);
    XorZero(q, p);
    XorTwice(p, q);
  }

  lemma Shift4Linear(a: bv32, b: bv32)
    ensures Shift4(Xor(a, b)) == Xor(Shift4(a), Shift4(b))
  {
    hide Shift, Xor;
    ShiftLinear(a, b);
    ShiftLinear(Shift(a), Shift(b));
    ShiftLinear(Shift(Shift(a)), Shift(Shift(b)));
    ShiftLinear(Shift(Shift(Shift(a))), Shift(Shift(Shift(b))));
  }

  lemma Shift8Linear(a: bv32, b: bv32)
    ensures Shift8(Xor(a, b)) == Xor(Shift8(a), Shift8(b))
  {
    hide Xor, Shift4;
    Shift4Linear(a, b);
    Shift4Linear(Shift4(a), Shift4(b));
  }

  lemma WideLinear(x: Byte, y: Byte)
    ensures Wide(Combine(x, y)) == Xor(Wide(x), Wide(y))
  {
  }

  lemma FeedLinear(a: bv32, b: bv32, x: Byte, y: Byte)
    ensures Feed(Xor(a, b), Combine(x, y)) == Xor(Feed(a, x), Feed(b, y))
  {
    hide Xor, Combine, Shift8, Wide;
    WideLinear(x, y);
    XorPairs(a, b, Wide(x), Wide(y));
    Shift8Linear(Xor(a, Wide(x)), Xor(b, Wide(y)));
  }

  lemma {:induction false} FoldLinear(a: bv32, b: bv32, x: seq<Byte>, y: seq<Byte>)
    requires |x| == |y|
    ensures Fold(Xor(a, b), Xored(x, y)) == Xor(Fold(a, x), Fold(b, y))
    decreases |x|
  {
    hide Xor, Combine, Feed;
    if x != [] {
      FeedLinear(a, b, x[0], y[0]);
      FoldLinear(Feed(a, x[0]), Feed(b, y[0]), x[1..], y[1..]);
      assert Xored(x, y)[1..] == Xored(x[1..], y[1..]);
    }
  }

  /** The checksum of the exclusive or of three inputs of one length. */
  lemma Crc32Affine(x: seq<Byte>, y: seq<Byte>, z: seq<Byte>)
    requires |x| == |y| == |z|
    ensures Crc32(Xored(Xored(x, y), z)) == Xor(Xor(Crc32(x), Crc32(y)), Crc32(z))
  {
    hide Xor, Combine, Fold, Xored;
    var ones: bv32 := 0xFFFF_FFFF;
    var a, b, c := Fold(ones, x), Fold(ones, y), Fold(ones, z);
    FoldLinear(ones, ones, x, y);
    FoldLinear(Xor(ones, ones), ones, Xored(x, y), z);
    XorTwice(ones, ones);
    XorZero(ones, ones);
    XorTwice(0, ones);
    assert Fold(ones, Xored(Xored(x, y), z)) == Xor(Xor(a, b), c);
    XorPairs(a, b, ones, ones);
    XorZero(Xor(a, b), 0);
    XorAssoc(Xor(a, b), c, ones);
  }

  // ---------------------------------------------------------------- words

  lemma NextLinear(a: bv32, b: bv32)
    ensures Next(Xor(a, b)) == Xor(Next(a), Next(b))
  {
    NextBits(a, b, Xor(a, b), Next(a), Next(b));
  }

  lemma NextBits(a: bv32, b: bv32, c: bv32, p: bv32, q: bv32)
    requires c == a ^ b && p == a >> 8 && q == b >> 8
    ensures c >> 8 == p ^ q
  {
  }

  function Masked(w: bv32): bv32 { w & 0xFF }

  lemma MaskedBits(a: bv32, b: bv32, c: bv32, p: bv32, q: bv32)
    requires c == a ^ b && p == a & 0xFF && q == b & 0xFF
    ensures c & 0xFF == p ^ q
  {
  }

  lemma MaskedLinear(a: bv32, b: bv32)
    ensures Masked(Xor(a, b)) == Xor(Masked(a), Masked(b))
  {
    MaskedBits(a, b, Xor(a, b), Masked(a), Masked(b));
  }

  lemma WideLow(w: bv32)
    ensures Wide(Low(w)) == Masked(w)
  {
  }

  lemma WideOnce(x: Byte, y: Byte)
    ensures Wide(x) == Wide(y) ==> x == y
  {
  }

  lemma LowLinear(a: bv32, b: bv32)
    ensures Low(Xor(a, b)) == Combine(Low(a), Low(b))
  {
    hide Low, Wide, Masked, Xor, Combine;
    MaskedLinear(a, b);
    WideLow(a);
    WideLow(b);
    WideLow(Xor(a, b));
    WideLinear(Low(a), Low(b));
    WideOnce(Low(Xor(a, b)), Combine(Low(a), Low(b)));
  }

  lemma WordLinear(a: bv32, b: bv32)
    ensures WordBytes(Xor(a, b)) == Xored(WordBytes(a), WordBytes(b))
  {
    hide Xor, Combine, Low, Next;
    var a1, b1 := Next(a), Next(b);
    var a2, b2 := Next(a1), Next(b1);
    NextLinear(a, b);
    NextLinear(a1, b1);
    NextLinear(a2, b2);
    LowLinear(a, b);
    LowLinear(a1, b1);
    LowLinear(a2, b2);
    LowLinear(Next(a2), Next(b2));
  }

  // ---------------------------------------------------------------- one to one on words

  lemma ShiftZero(c: bv32)
    ensures Shift(c) == 0 ==> c == 0
  {
  }

  lemma Shift8Zero(c: bv32)
    ensures Shift8(c) == 0 ==> c == 0
  {
    hide Shift;
    ShiftZero(c);
    ShiftZero(Shift(c));
    ShiftZero(Shift(Shift(c)));
    ShiftZero(Shift(Shift(Shift(c))));
    var d := Shift4(c);
    ShiftZero(d);
    ShiftZero(Shift(d));
    ShiftZero(Shift(Shift(d)));
    ShiftZero(Shift(Shift(Shift(d))));
  }

  /** The word without its lowest byte. */
  function High(w: bv32): bv32 { w & 0xFFFF_FF00 }

  predicate Clear(c: bv32, mask: bv32) { c & mask == 0 }

  lemma ClearBits(c: bv32, mask: bv32, p: bv32, q: bv32)
    requires c & mask == 0 && mask & 1 == 1 && p == c >> 1 && q == mask >> 1
    ensures c & 1 == 0 && p & q == 0
  {
  }

  lemma HalfClear(c: bv32, mask: bv32, half: bv32)
    requires Clear(c, mask) && mask & 1 == 1 && half == mask >> 1
    ensures !Odd(c) && Clear(Half(c), half)
  {
    ClearBits(c, mask, Half(c), half);
  }

  lemma ShiftClear(c: bv32, mask: bv32, half: bv32)
    requires Clear(c, mask) && mask & 1 == 1 && half == mask >> 1
    ensures Shift(c) == Half(c) && Clear(Half(c), half)
  {
    HalfClear(c, mask, half);
    hide Half, Clear, Odd;
  }

  lemma Shift4Clear(c: bv32, m: bv32, m1: bv32, m2: bv32, m3: bv32, m4: bv32)
    requires Clear(c, m) && m & 1 == 1 && m1 == m >> 1 && m1 & 1 == 1 && m2 == m1 >> 1 && m2 & 1 == 1
    requires m3 == m2 >> 1 && m3 & 1 == 1 && m4 == m3 >> 1
    ensures Shift4(c) == Nibble(c) && Clear(Nibble(c), m4)
  {
    hide Half, Clear, Odd, Shift;
    ShiftClear(c, m, m1);
    ShiftClear(Half(c), m1, m2);
    ShiftClear(Half(Half(c)), m2, m3);
    ShiftClear(Half(Half(Half(c))), m3, m4);
    FourHalves(c);
  }

  function Quarter(c: bv32): bv32 { c >> 2 }

  function Nibble(c: bv32): bv32 { c >> 4 }

  lemma TwoHalves(c: bv32)
    ensures Half(Half(c)) == Quarter(c)
  {
    var h := Half(c);
    assert h >> 1 == c >> 2 by { assert h == c >> 1; }
  }

  lemma TwoQuarters(c: bv32)
    ensures Quarter(Quarter(c)) == Nibble(c)
  {
    var h := Quarter(c);
    assert h >> 2 == c >> 4 by { assert h == c >> 2; }
  }

  lemma FourHalves(c: bv32)
    ensures Half(Half(Half(Half(c)))) == Nibble(c)
  {
    hide Half, Quarter, Nibble;
    TwoHalves(c);
    TwoHalves(Quarter(c));
    TwoQuarters(c);
  }

  lemma TwoNibbles(c: bv32)
    ensures Nibble(Nibble(c)) == Next(c)
  {
    var h := Nibble(c);
    assert h >> 4 == c >> 8 by { assert h == c >> 4; }
  }

  lemma HighClear(c: bv32)
    ensures Clear(High(c), 0xFF) && Next(High(c)) == Next(c)
  {
    var h := High(c);
    assert h & 0xFF == 0 && h >> 8 == c >> 8 by { assert h == c & 0xFFFF_FF00; }
  }

  /** When the lowest byte is zero nothing is divided. */
  lemma Shift8High(c: bv32)
    ensures Shift8(High(c)) == Next(c)
  {
    hide Clear, Shift4, High, Next, Nibble;
    HighClear(c);
    Shift4Clear(High(c), 0xFF, 0x7F, 0x3F, 0x1F, 0xF);
    Shift4Clear(Nibble(High(c)), 0xF, 0x7, 0x3, 0x1, 0x0);
    TwoNibbles(High(c));
  }

  lemma HighLowBits(u: bv32, h: bv32, x: Byte, l: bv32)
    requires h == u & 0xFFFF_FF00 && x == (u & 0xFF) as bv8 && l == x as bv32
    ensures h ^ l == u
  {
  }

  /** A word is its lowest byte and the rest. */
  lemma HighLow(u: bv32)
    ensures u == Xor(High(u), Wide(Low(u)))
  {
    HighLowBits(u, High(u), Low(u), Wide(Low(u)));
    hide High, Low, Wide;
  }

  /** Eight steps move the rest down and divide the lowest byte. */
  lemma Peel(u: bv32, s: bv32)
    ensures Shift8(Xor(u, s)) == Xor(Next(u), Feed(s, Low(u)))
  {
    hide Xor, High, Low, Wide, Shift8, Next;
    HighLow(u);
    XorAssoc(High(u), Wide(Low(u)), s);
    XorTwice(Wide(Low(u)), s);
    Shift8Linear(High(u), Xor(s, Wide(Low(u))));
    Shift8High(u);
  }

  function Upper(w: bv32): bv32 { w >> 16 }

  lemma TwoNexts(w: bv32)
    ensures Next(Next(w)) == Upper(w)
  {
    var h := Next(w);
    assert h >> 8 == w >> 16 by { assert h == w >> 8; }
  }

  lemma TwoUppers(w: bv32)
    ensures Upper(Upper(w)) == 0
  {
    var h := Upper(w);
    assert h >> 16 == 0 by { assert h == w >> 16; }
  }

  lemma NextWord(w: bv32)
    ensures Next(Next(Next(Next(w)))) == 0
  {
    hide Next, Upper;
    TwoNexts(w);
    TwoNexts(Upper(w));
    TwoUppers(w);
  }

  /** Feeding a word byte by byte is dividing it as a whole. */
  lemma FoldWord(w: bv32)
    ensures Fold(0, WordBytes(w)) == Shift8(Shift8(Shift8(Shift8(w))))
  {
    hide Xor, Low, Shift8, Next;
    var w1 := Next(w);
    var w2 := Next(w1);
    var w3 := Next(w2);
    hide Feed;
    var s1 := Feed(0, Low(w));
    var s2 := Feed(s1, Low(w1));
    var s3 := Feed(s2, Low(w2));
    var s4 := Feed(s3, Low(w3));
    XorZero(w, 0);
    Peel(w, 0);
    Peel(w1, s1);
    Peel(w2, s2);
    Peel(w3, s3);
    NextWord(w);
    XorTwice(0, s4);
    XorZero(s4, 0);
    FoldFour(0, Low(w), Low(w1), Low(w2), Low(w3));
  }

  lemma FoldFour(c: bv32, p: Byte, q: Byte, r: Byte, s: Byte)
    ensures Fold(c, [p, q, r, s]) == Feed(Feed(Feed(Feed(c, p), q), r), s)
  {
    hide Feed;
    assert [p, q, r, s][1..] == [q, r, s] && [q, r, s][1..] == [r, s] && [r, s][1..] == [s];
    assert Fold(Feed(Feed(Feed(c, p), q), r), [s]) == Feed(Feed(Feed(Feed(c, p), q), r), s);
    assert Fold(Feed(Feed(c, p), q), [r, s]) == Fold(Feed(Feed(Feed(c, p), q), r), [s]);
  }

  /** Only the word zero leaves the division at zero. */
  lemma FoldWordZero(w: bv32)
    ensures Fold(0, WordBytes(w)) == 0 ==> w == 0
  {
    hide Fold, WordBytes, Shift8;
    FoldWord(w);
    Shift8Zero(w);
    Shift8Zero(Shift8(w));
    Shift8Zero(Shift8(Shift8(w)));
    Shift8Zero(Shift8(Shift8(Shift8(w))));
  }

  // ---------------------------------------------------------------- a length at the end

  const WORD_RANGE: nat := 0x1_0000_0000

  function Word(n: nat): bv32 { (n % WORD_RANGE) as bv32 }

  /** A 64-bit length as the hasher sees it. */
  function LengthBytes(n: nat): seq<Byte> {
    WordBytes(Word(n)) + WordBytes(Word(n / WORD_RANGE))
  }

  lemma WordZero(n: nat)
    requires n < WORD_RANGE
    ensures Word(n) == 0 <==> n == 0
  {
    SmallWord(n);
  }

  lemma SmallWord(n: nat)
    requires n < WORD_RANGE
    ensures n as bv32 == 0 <==> n == 0
  {
  }

  lemma {:induction false} FoldParts(c: bv32, x: seq<Byte>, y: seq<Byte>)
    ensures Fold(c, x + y) == Fold(Fold(c, x), y)
    decreases |x|
  {
    hide Feed;
    if x == [] {
      assert x + y == y;
    } else {
      FoldParts(Feed(c, x[0]), x[1..], y);
      assert (x + y)[1..] == x[1..] + y;
    }
  }

  lemma FoldLength(n: nat)
    requires n < WORD_RANGE
    ensures Fold(0, LengthBytes(n)) == 0 <==> n == 0
  {
    hide Fold, WordBytes, Word;
    WordZero(n);
    WordZero(0);
    assert n / WORD_RANGE == 0;
    var c := Fold(0, WordBytes(Word(n)));
    FoldParts(0, WordBytes(Word(n)), WordBytes(Word(0)));
    FoldWordZero(Word(n));
    FoldZeroWord(c);
    FoldZeroWord(0);
  }

  /** Feeding the word zero leaves no state but zero at zero. */
  lemma FoldZeroWord(c: bv32)
    ensures Fold(c, WordBytes(0)) == 0 <==> c == 0
  {
    assert Low(0) == 0 && Next(0) == 0;
    hide Low, Next, Shift8, Fold, Xor;
    FoldFour(c, 0, 0, 0, 0);
    assert WordBytes(0) == [0, 0, 0, 0];
    FeedZero(c);
    FeedZero(Feed(c, 0));
    FeedZero(Feed(Feed(c, 0), 0));
    FeedZero(Feed(Feed(Feed(c, 0), 0), 0));
  }

  lemma FeedZero(c: bv32)
    ensures Feed(c, 0) == 0 <==> c == 0
  {
    assert Wide(0) == 0;
    hide Wide, Shift8, Xor;
    XorZero(c, 0);
    Shift8Zero(c);
    assert Shift8(0) == 0 by { Shift8OfZero(); }
  }

  lemma Shift8OfZero()
    ensures Shift8(0) == 0
  {
    assert Shift(0) == 0;
    hide Shift;
  }

  /** Below 2^32 no length but zero has the checksum of the length zero, whatever comes before. */
  lemma LengthTold(prefix: seq<Byte>, n: nat)
    requires n < WORD_RANGE
    ensures Crc32(prefix + LengthBytes(n)) == Crc32(prefix + LengthBytes(0)) <==> n == 0
  {
    hide Fold, WordBytes, Word, Xor, Combine;
    var ones: bv32 := 0xFFFF_FFFF;
    var c := Fold(ones, prefix);
    FoldParts(ones, prefix, LengthBytes(n));
    FoldParts(ones, prefix, LengthBytes(0));
    var p, q := Fold(c, LengthBytes(n)), Fold(c, LengthBytes(0));
    XorTwice(p, ones);
    XorTwice(q, ones);
    if n > 0 {
      FoldLinear(c, c, LengthBytes(n), LengthBytes(0));
      XorZero(c, c);
      ZeroLength(LengthBytes(n));
      FoldLength(n);
      XorZero(p, q);
    }
  }

  lemma ZeroLength(x: seq<Byte>)
    requires |x| == 8
    ensures |LengthBytes(0)| == 8 && Xored(x, LengthBytes(0)) == x
  {
    assert Low(0) == 0 && Next(0) == 0;
    WordZero(0);
    hide Low, Next, Word, Combine;
    assert LengthBytes(0) == [0, 0, 0, 0, 0, 0, 0, 0];
    forall i | 0 <= i < 8 ensures Combine(x[i], 0) == x[i] { ZeroByte(x[i]); }
  }

  lemma ZeroByte(b: Byte)
    ensures Combine(b, 0) == b
  {
  }
}
