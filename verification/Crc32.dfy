/** The table-driven CRC-32 of benchmarks/pako-bench.ts against the bit-serial definition of section 8 of RFC 1952.
    JavaScript's 32-bit operators work on two's complement patterns, which are `bv32` values here. */
module Crc32 {

  // The register operations, named so that proofs can use their laws instead of their bits.

  const POLYNOMIAL: bv32 := 0xedb88320

  function Xor(a: bv32, b: bv32): bv32 {
    a ^ b
  }

  function Half(a: bv32): bv32 {
    a >> 1
  }

  predicate Odd(a: bv32) {
    a & 1 != 0
  }

  function High(a: bv32): bv32 {
    a >> 8
  }

  function Low(a: bv32): bv32 {
    a & 0xff
  }

  function Wide(b: bv8): bv32 {
    b as bv32
  }

  function Reduce(a: bv32): bv32 {
    Xor(a, POLYNOMIAL)
  }

  /** One step of the shift register. */
  function Shift(c: bv32): bv32 {
    if Odd(c) then Reduce(Half(c)) else Half(c)
  }

  function Shifts(c: bv32, k: nat): bv32 {
    if k == 0 then c else Shift(Shifts(c, k - 1))
  }

  // ---- Bit-serial definition ----

  /** Feeding one message bit. */
  function FeedBit(c: bv32, bit: bool): bv32 {
    if Odd(c) != bit then Reduce(Half(c)) else Half(c)
  }

  /** Feeding the low `k` bits of `b`, least significant first. */
  function FeedBits(c: bv32, b: bv32, k: nat): bv32
    decreases k
  {
    if k == 0 then c else FeedBits(FeedBit(c, Odd(b)), Half(b), k - 1)
  }

  function FeedBytes(c: bv32, bytes: seq<bv8>): bv32 {
    if bytes == [] then c
    else FeedBits(FeedBytes(c, bytes[..|bytes| - 1]), Wide(bytes[|bytes| - 1]), 8)
  }

  /** The CRC-32 of a message: register preset to ones, result complemented. */
  function Crc(bytes: seq<bv8>): bv32 {
    Xor(FeedBytes(0xffff_ffff, bytes), 0xffff_ffff)
  }

  // ---- Laws of the operations ----

  lemma HalfOfXor(x: bv32, y: bv32)
    ensures Half(Xor(x, y)) == Xor(Half(x), Half(y))
  {
  }

  lemma OddOfXor(x: bv32, y: bv32)
    ensures Odd(Xor(x, y)) <==> Odd(x) != Odd(y)
  {
    assert x & 1 == 0 || x & 1 == 1;
    assert y & 1 == 0 || y & 1 == 1;
    assert (x ^ y) & 1 == (x & 1) ^ (y & 1);
  }

  lemma ReduceOfXor(a: bv32, b: bv32)
    ensures Xor(Reduce(a), Reduce(b)) == Xor(a, b)
    ensures Xor(Reduce(a), b) == Reduce(Xor(a, b))
    ensures Xor(a, Reduce(b)) == Reduce(Xor(a, b))
  {
    hide Xor;
    XorRegroups(a, b, POLYNOMIAL);
  }

  lemma XorRegroups(a: bv32, b: bv32, p: bv32)
    ensures Xor(Xor(a, p), Xor(b, p)) == Xor(a, b)
    ensures Xor(Xor(a, p), b) == Xor(Xor(a, b), p)
    ensures Xor(a, Xor(b, p)) == Xor(Xor(a, b), p)
  {
    hide Xor;
    XorAssociates(a, b, p);
    XorAssociates(a, p, b);
    XorCommutes(p, b);
    XorAssociates(a, p, Xor(b, p));
    XorAssociates(p, p, b);
    XorCancels(p, b);
  }

  lemma XorAssociates(a: bv32, b: bv32, c: bv32)
    ensures Xor(Xor(a, b), c) == Xor(a, Xor(b, c))
  {
  }

  lemma XorCommutes(a: bv32, b: bv32)
    ensures Xor(a, b) == Xor(b, a)
  {
  }

  lemma XorCancels(p: bv32, b: bv32)
    ensures Xor(p, Xor(p, b)) == b
  {
  }

  lemma XorZero(a: bv32)
    ensures Xor(a, 0) == a
  {
  }

  /** Splitting a register into its low byte and the rest. */
  lemma SplitLow(x: bv32)
    ensures Xor(x & 0xffff_ff00, Low(x)) == x
  {
  }

  lemma HighIgnoresByte(c: bv32, b: bv8)
    ensures High(Xor(c, Wide(b))) == High(c)
  {
  }

  /** Eight halvings of the upper part are a shift by eight, and none of them meets an odd register. */
  lemma HalvesOfHigh(x: bv32)
    ensures var h := x & 0xffff_ff00;
            && !Odd(h) && !Odd(Half(h)) && !Odd(Half(Half(h))) && !Odd(Half(Half(Half(h))))
            && var q := Half(Half(Half(Half(h))));
            && !Odd(q) && !Odd(Half(q)) && !Odd(Half(Half(q))) && !Odd(Half(Half(Half(q))))
            && Half(Half(Half(Half(q)))) == High(x)
  {
    hide Half, Odd, High;
    var h := x & 0xffff_ff00;
    HighPart(x);
    FourHalves(h);
    EvenFourTimes(h);
    FourHalves(h >> 4);
    EvenFourTimes(h >> 4);
  }

  lemma HighPart(x: bv32)
    ensures var h := x & 0xffff_ff00; h & 0xf == 0 && (h >> 4) & 0xf == 0 && h >> 4 >> 4 == High(x)
  {
  }

  lemma FourHalves(h: bv32)
    ensures Half(Half(Half(Half(h)))) == h >> 4
  {
  }

  lemma EvenFourTimes(h: bv32)
    requires h & 0xf == 0
    ensures !Odd(h) && !Odd(Half(h)) && !Odd(Half(Half(h))) && !Odd(Half(Half(Half(h))))
  {
  }

  lemma HalvesOfByte(b: bv8)
    ensures var q := Half(Half(Half(Half(Wide(b))))); Half(Half(Half(Half(q)))) == 0
  {
  }

  // ---- Why a table works ----

  lemma ShiftIsLinear(x: bv32, y: bv32)
    ensures Shift(Xor(x, y)) == Xor(Shift(x), Shift(y))
  {
    hide Xor, Half, Odd, Reduce;
    HalfOfXor(x, y);
    OddOfXor(x, y);
    ReduceOfXor(Half(x), Half(y));
  }

  lemma {:induction false} ShiftsAreLinear(x: bv32, y: bv32, k: nat)
    ensures Shifts(Xor(x, y), k) == Xor(Shifts(x, k), Shifts(y, k))
  {
    hide Xor, Shift;
    if k > 0 {
      ShiftsAreLinear(x, y, k - 1);
      ShiftIsLinear(Shifts(x, k - 1), Shifts(y, k - 1));
    }
  }

  lemma {:induction false} ShiftsCompose(c: bv32, k: nat)
    ensures Shifts(Shift(c), k) == Shifts(c, k + 1)
  {
    hide Shift;
    if k > 0 {
      ShiftsCompose(c, k - 1);
    }
  }

  /** Feeding a message bit is shifting with the bit added to the register. */
  lemma FeedIsShift(c: bv32, b: bv32)
    ensures Xor(FeedBit(c, Odd(b)), Half(b)) == Shift(Xor(c, b))
  {
    hide Xor, Half, Odd, Reduce;
    HalfOfXor(c, b);
    OddOfXor(c, b);
    ReduceOfXor(Half(c), Half(b));
  }

  /** The bits of `b` left after `k` have been consumed. */
  function Rest(b: bv32, k: nat): bv32
    decreases k
  {
    if k == 0 then b else Rest(Half(b), k - 1)
  }

  /** Feeding `k` bits is adding the byte to the register and shifting `k` times, up to the bits not yet fed. */
  lemma {:induction false} FeedIsShifts(c: bv32, b: bv32, k: nat)
    ensures Xor(FeedBits(c, b, k), Rest(b, k)) == Shifts(Xor(c, b), k)
    decreases k
  {
    hide Xor, Half, Odd, Shift, FeedBit;
    if k > 0 {
      FeedIsShifts(FeedBit(c, Odd(b)), Half(b), k - 1);
      FeedIsShift(c, b);
      ShiftsCompose(Xor(c, b), k - 1);
    }
  }

  lemma RestFour(b: bv32, k: nat)
    ensures Rest(b, k + 4) == Rest(Half(Half(Half(Half(b)))), k)
  {
    hide Half;
    assert Rest(b, k + 4) == Rest(Half(b), k + 3) == Rest(Half(Half(b)), k + 2);
    assert Rest(Half(Half(b)), k + 2) == Rest(Half(Half(Half(b))), k + 1);
  }

  lemma ByteIsUsedUp(b: bv8)
    ensures Rest(Wide(b), 8) == 0
  {
    hide Half, Wide;
    var q := Half(Half(Half(Half(Wide(b)))));
    RestFour(Wide(b), 4);
    RestFour(q, 0);
    HalvesOfByte(b);
  }

  lemma ShiftsFour(h: bv32, k: nat)
    requires !Odd(h) && !Odd(Half(h)) && !Odd(Half(Half(h))) && !Odd(Half(Half(Half(h))))
    ensures Shifts(h, k + 4) == Shifts(Half(Half(Half(Half(h)))), k)
  {
    hide Half, Odd;
    ShiftsCompose(h, k + 3);
    ShiftsCompose(Half(h), k + 2);
    ShiftsCompose(Half(Half(h)), k + 1);
    ShiftsCompose(Half(Half(Half(h))), k);
  }

  /** A register with eight zero bits at its low end is shifted out unchanged. */
  lemma HighShiftsOut(x: bv32)
    ensures Shifts(x & 0xffff_ff00, 8) == High(x)
  {
    hide Half, Odd, High, Shift;
    HalvesOfHigh(x);
    var h := x & 0xffff_ff00;
    ShiftsFour(h, 4);
    ShiftsFour(Half(Half(Half(Half(h)))), 0);
  }

  /** Eight steps are a shift by eight and a table entry. */
  lemma EightSteps(x: bv32)
    ensures Shifts(x, 8) == Xor(High(x), Shifts(Low(x), 8))
  {
    hide Xor, High, Low, Shift, Shifts;
    SplitLow(x);
    ShiftsAreLinear(x & 0xffff_ff00, Low(x), 8);
    HighShiftsOut(x);
  }

  /** One round of the table-driven loop feeds one byte. */
  lemma TableRound(c: bv32, b: bv8)
    ensures Xor(High(c), Shifts(Low(Xor(c, Wide(b))), 8)) == FeedBits(c, Wide(b), 8)
  {
    hide Xor, High, Low, Wide, Shift, Shifts, FeedBits, Rest;
    EightSteps(Xor(c, Wide(b)));
    HighIgnoresByte(c, b);
    FeedIsShifts(c, Wide(b), 8);
    ByteIsUsedUp(b);
    XorZero(FeedBits(c, Wide(b), 8));
  }

  // ---- The program ----

  method BuildTable() returns (table: seq<bv32>)
    ensures |table| == 256 && forall n :: 0 <= n < 256 ==> table[n] == Shifts(n as bv32, 8)
  {
    hide Shift;
    table := [];
    for n := 0 to 256
      invariant |table| == n && forall i :: 0 <= i < n ==> table[i] == Shifts(i as bv32, 8)
    {
      var c := n as bv32;
      for k := 0 to 8
        invariant c == Shifts(n as bv32, k)
      {
        c := Shift(c);
      }
      table := table + [c];
    }
  }

  /** `jsCrc32Run` on an arbitrary buffer. */
  method JsCrc32(buf: seq<bv8>) returns (r: bv32)
    ensures r == Crc(buf)
  {
    hide Xor, High, Low, Wide, Shift, Shifts, FeedBits;
    var table := BuildTable();
    var crc: bv32 := 0xffff_ffff;
    for i := 0 to |buf|
      invariant crc == FeedBytes(0xffff_ffff, buf[..i])
    {
      var index := Low(Xor(crc, Wide(buf[i])));
      TableRound(crc, buf[i]);
      IndexFits(Xor(crc, Wide(buf[i])));
      assert buf[..i + 1][..i] == buf[..i];
      crc := Xor(High(crc), table[index as int]);
    }
    assert buf[..|buf|] == buf;
    r := Xor(crc, 0xffff_ffff);
  }

  lemma IndexFits(x: bv32)
    ensures 0 <= Low(x) as int < 256 && (Low(x) as int) as bv32 == Low(x)
  {
    assert Low(x) < 256;
  }

  // ---- The constants ----

  /** The exponents of the generator polynomial of section 8 of RFC 1952 below 32. */
  ghost predicate HasTerm(e: nat) {
    e in {26, 23, 22, 16, 12, 11, 10, 8, 7, 5, 4, 2, 1, 0}
  }

  function BitOf(x: bv32, k: nat): bool
    requires k < 32
  {
    Odd(x >> (k as bv6))
  }

  /** The constant is that polynomial with the coefficient of x^e in bit 31 - e. */
  lemma PolynomialMeans(e: nat)
    requires e < 32
    ensures BitOf(POLYNOMIAL, 31 - e) <==> HasTerm(e)
  {
  }

  lemma FeedOne(c: bv32, b: bv32, k: nat)
    requires k > 0
    ensures FeedBits(c, b, k) == FeedBits(FeedBit(c, Odd(b)), Half(b), k - 1)
  {
  }

  /** Eight single steps make one byte. */
  lemma FeedEight(c: bv32, b: bv32)
    ensures FeedBits(c, b, 8) ==
            var c1, b1 := FeedBit(c, Odd(b)), Half(b);
            var c2, b2 := FeedBit(c1, Odd(b1)), Half(b1);
            var c3, b3 := FeedBit(c2, Odd(b2)), Half(b2);
            var c4, b4 := FeedBit(c3, Odd(b3)), Half(b3);
            var c5, b5 := FeedBit(c4, Odd(b4)), Half(b4);
            var c6, b6 := FeedBit(c5, Odd(b5)), Half(b5);
            var c7, b7 := FeedBit(c6, Odd(b6)), Half(b6);
            FeedBit(c7, Odd(b7))
  {
    hide FeedBit, Odd, Half;
    var c1, b1 := FeedBit(c, Odd(b)), Half(b);
    var c2, b2 := FeedBit(c1, Odd(b1)), Half(b1);
    var c3, b3 := FeedBit(c2, Odd(b2)), Half(b2);
    var c4, b4 := FeedBit(c3, Odd(b3)), Half(b3);
    var c5, b5 := FeedBit(c4, Odd(b4)), Half(b4);
    var c6, b6 := FeedBit(c5, Odd(b5)), Half(b5);
    var c7, b7 := FeedBit(c6, Odd(b6)), Half(b6);
    FeedOne(c, b, 8);
    FeedOne(c1, b1, 7);
    FeedOne(c2, b2, 6);
    FeedOne(c3, b3, 5);
    FeedOne(c4, b4, 4);
    FeedOne(c5, b5, 3);
    FeedOne(c6, b6, 2);
    FeedOne(c7, b7, 1);
  }

  lemma FedByte(bytes: seq<bv8>, c: bv32, b: bv8, r: bv32)
    requires FeedBytes(0xffff_ffff, bytes) == c && FeedBits(c, Wide(b), 8) == r
    ensures FeedBytes(0xffff_ffff, bytes + [b]) == r
  {
    hide FeedBits;
    assert (bytes + [b])[..|bytes|] == bytes;
  }

  /** The check value of CRC-32: that of "123456789" is 0xCBF43926. */
  lemma CheckValue()
    ensures Crc([0x31, 0x32, 0x33, 0x34, 0x35, 0x36, 0x37, 0x38, 0x39]) == 0xCBF43926
  {
    FeedEight(0xffffffff, 0x31);
    FedByte([], 0xffffffff, 0x31, 0x7c231048);
    FeedEight(0x7c231048, 0x32);
    FedByte([] + [0x31], 0x7c231048, 0x32, 0xb0acbb32);
    FeedEight(0xb0acbb32, 0x33);
    FedByte([] + [0x31] + [0x32], 0xb0acbb32, 0x33, 0x77b79c2d);
    FeedEight(0x77b79c2d, 0x34);
    FedByte([] + [0x31] + [0x32] + [0x33], 0x77b79c2d, 0x34, 0x641c1f5c);
    FeedEight(0x641c1f5c, 0x35);
    FedByte([] + [0x31] + [0x32] + [0x33] + [0x34], 0x641c1f5c, 0x35, 0x340ac5e3);
    FeedEight(0x340ac5e3, 0x36);
    FedByte([] + [0x31] + [0x32] + [0x33] + [0x34] + [0x35], 0x340ac5e3, 0x36, 0xf68d2c9e);
    FeedEight(0xf68d2c9e, 0x37);
    FedByte([] + [0x31] + [0x32] + [0x33] + [0x34] + [0x35] + [0x36], 0xf68d2c9e, 0x37, 0xaffc9660);
    FeedEight(0xaffc9660, 0x38);
    FedByte([] + [0x31] + [0x32] + [0x33] + [0x34] + [0x35] + [0x36] + [0x37], 0xaffc9660, 0x38, 0x651f2550);
    FeedEight(0x651f2550, 0x39);
    FedByte([] + [0x31] + [0x32] + [0x33] + [0x34] + [0x35] + [0x36] + [0x37] + [0x38], 0x651f2550, 0x39, 0x340bc6d9);
    var message: seq<bv8> := [0x31, 0x32, 0x33, 0x34, 0x35, 0x36, 0x37, 0x38, 0x39];
    assert message == [] + [0x31] + [0x32] + [0x33] + [0x34] + [0x35] + [0x36] + [0x37] + [0x38] + [0x39];
    assert FeedBytes(0xffff_ffff, message) == 0x340bc6d9;
  }
}
