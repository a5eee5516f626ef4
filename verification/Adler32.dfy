/** The block-deferred Adler-32 of benchmarks/pako-bench.ts against section 8.2 of RFC 1950. */
module Adler32 {
  import opened Wrappers

  const BASE: int := 65521
  const BLOCK: int := 2000

  /** A value every 32-bit engine keeps exact. */
  newtype i32 = x: int | -0x8000_0000 <= x < 0x8000_0000

  /** One plus the sum of all bytes. */
  ghost function SumOfBytes(buf: seq<Byte>): int {
    if buf == [] then 1 else SumOfBytes(buf[..|buf| - 1]) + buf[|buf| - 1]
  }

  /** The sum of the first sum's values, one per byte. */
  ghost function SumOfSums(buf: seq<Byte>): int {
    if buf == [] then 0 else SumOfSums(buf[..|buf| - 1]) + SumOfBytes(buf)
  }

  /** The checksum as the standard defines it: both sums reduced modulo 65521. */
  ghost function Adler(buf: seq<Byte>): int {
    SumOfBytes(buf) % BASE + SumOfSums(buf) % BASE * 65536
  }

  lemma SameModulo(x: int, y: int, dx: int, dy: int)
    requires x % BASE == y % BASE && dx % BASE == dy % BASE
    ensures (x + dx) % BASE == (y + dy) % BASE
  {
    var kx, ky, ex, ey := x / BASE, y / BASE, dx / BASE, dy / BASE;
    assert x + dx == (y + dy) + BASE * (kx - ky + ex - ey);
    ModuloShift(y + dy, kx - ky + ex - ey);
  }

  lemma ModuloShift(x: int, k: int)
    ensures (x + BASE * k) % BASE == x % BASE
  {
    var q := x / BASE;
    assert x + BASE * k == BASE * (q + k) + x % BASE;
  }

  /** The running sums agree with the definition up to the deferred reductions. */
  ghost predicate Tracks(s1: int, s2: int, buf: seq<Byte>) {
    s1 % BASE == SumOfBytes(buf) % BASE && s2 % BASE == SumOfSums(buf) % BASE
  }

  lemma TrackByte(s1: int, s2: int, buf: seq<Byte>, pos: nat)
    requires pos < |buf| && Tracks(s1, s2, buf[..pos])
    ensures Tracks(s1 + buf[pos], s2 + (s1 + buf[pos]), buf[..pos + 1])
  {
    assert buf[..pos + 1][..pos] == buf[..pos];
    SameModulo(s1, SumOfBytes(buf[..pos]), buf[pos], buf[pos]);
    SameModulo(s2, SumOfSums(buf[..pos]), s1 + buf[pos], SumOfBytes(buf[..pos + 1]));
  }

  lemma TrackReduced(s1: int, s2: int, buf: seq<Byte>)
    requires Tracks(s1, s2, buf)
    ensures Tracks(s1 % BASE, s2 % BASE, buf)
  {
  }

  /** `jsAdler32Run` on an arbitrary buffer. The running sums are 32-bit values: a block of 2000 bytes never makes
      them overflow. */
  method JsAdler32(buf: seq<Byte>) returns (r: int)
    ensures r == Adler(buf)
  {
    hide Tracks;
    var s1: i32, s2: i32, pos, n, len := 1, 0, 0, 0, |buf|;
    assert Tracks(1, 0, buf[..0]) by { assert SumOfBytes([]) == 1 && SumOfSums([]) == 0; TrackStart(); }
    while len != 0
      invariant 0 <= len && pos + len == |buf|
      invariant 0 <= s1 as int < BASE && 0 <= s2 as int < BASE
      invariant Tracks(s1 as int, s2 as int, buf[..pos])
    {
      n := if len > BLOCK then BLOCK else len;
      len := len - n;
      ghost var done := 0;
      while n > 0
        invariant 0 <= n && 0 <= done && n + done <= BLOCK
        invariant pos + n + len == |buf|
        invariant 0 <= s1 as int <= 65520 + 255 * done
        invariant 0 <= s2 as int <= 65520 + 575520 * done
        invariant Tracks(s1 as int, s2 as int, buf[..pos])
      {
        TrackByte(s1 as int, s2 as int, buf, pos);
        s1 := s1 + buf[pos] as i32;
        pos := pos + 1;
        s2 := s2 + s1;
        n := n - 1;
        done := done + 1;
      }
      TrackReduced(s1 as int, s2 as int, buf[..pos]);
      s1 := s1 % 65521;
      s2 := s2 % 65521;
    }
    assert buf[..pos] == buf;
    TrackEnd(s1 as int, s2 as int, buf);
    r := s1 as int + s2 as int * 65536;
  }

  lemma TrackStart()
    ensures Tracks(1, 0, [])
  {
  }

  lemma TrackEnd(s1: int, s2: int, buf: seq<Byte>)
    requires Tracks(s1, s2, buf) && 0 <= s1 < BASE && 0 <= s2 < BASE
    ensures s1 == SumOfBytes(buf) % BASE && s2 == SumOfSums(buf) % BASE
  {
  }

  // ---- How much headroom a block leaves ----

  ghost function Weighted(buf: seq<Byte>): int {
    if buf == [] then 0 else Weighted(buf[..|buf| - 1]) + SumOfBytes(buf) - 1
  }

  /** The sums a block of `k` bytes reaches from reduced values `s1`, `s2`, without reduction. */
  ghost function Raw(s1: int, s2: int, block: seq<Byte>): (int, int) {
    (s1 + SumOfBytes(block) - 1, s2 + s1 * |block| + Weighted(block))
  }

  lemma {:induction false} SumsOfBlock(block: seq<Byte>)
    ensures 1 <= SumOfBytes(block) <= 1 + 255 * |block|
    ensures 0 <= Weighted(block) <= 255 * (|block| * (|block| + 1)) / 2
  {
    if block != [] {
      var n := |block| - 1;
      SumsOfBlock(block[..n]);
      assert |block| * (|block| + 1) == n * (n + 1) + 2 * |block|;
    }
  }

  /** No block of at most 2000 bytes takes reduced sums to 2^31. */
  lemma BlocksDoNotOverflow(s1: int, s2: int, block: seq<Byte>)
    requires 0 <= s1 < BASE && 0 <= s2 < BASE && |block| <= BLOCK
    ensures 0 <= Raw(s1, s2, block).0 < 0x8000_0000 && 0 <= Raw(s1, s2, block).1 < 0x8000_0000
  {
    SumsOfBlock(block);
    var n := |block|;
    ProductBound(n, n + 1, 2000, 2001);
    ProductBound(s1, n, 65520, 2000);
    BoundsSuffice(s1, s2, SumOfBytes(block), Weighted(block), s1 * n, n * (n + 1), n);
  }

  lemma ProductBound(a: int, b: int, x: int, y: int)
    requires 0 <= a <= x && 0 <= b <= y
    ensures 0 <= a * b <= x * y
  {
  }

  lemma BoundsSuffice(s1: int, s2: int, sum: int, weighted: int, p: int, q: int, n: int)
    requires 0 <= s1 < BASE && 0 <= s2 < BASE && 0 <= n <= BLOCK
    requires 1 <= sum <= 1 + 255 * n && 0 <= weighted <= 255 * q / 2
    requires 0 <= p <= 65520 * 2000 && 0 <= q <= 2000 * 2001
    ensures 0 <= s1 + sum - 1 < 0x8000_0000 && 0 <= s2 + p + weighted < 0x8000_0000
  {
  }

  lemma SumsNext(buf: seq<Byte>, b: Byte)
    ensures SumOfBytes(buf + [b]) == SumOfBytes(buf) + b
    ensures SumOfSums(buf + [b]) == SumOfSums(buf) + SumOfBytes(buf) + b
  {
    assert (buf + [b])[..|buf|] == buf;
  }

  /** The checksum of "Wikipedia" is 0x11E60398. */
  lemma KnownChecksum()
    ensures Adler([87, 105, 107, 105, 112, 101, 100, 105, 97]) == 0x11E60398
  {
    var w: seq<Byte> := [87, 105, 107, 105, 112, 101, 100, 105, 97];
    SumsNext([], 87);
    SumsNext([] + [87], 105);
    SumsNext([] + [87] + [105], 107);
    SumsNext([] + [87] + [105] + [107], 105);
    SumsNext([] + [87] + [105] + [107] + [105], 112);
    SumsNext([] + [87] + [105] + [107] + [105] + [112], 101);
    SumsNext([] + [87] + [105] + [107] + [105] + [112] + [101], 100);
    SumsNext([] + [87] + [105] + [107] + [105] + [112] + [101] + [100], 105);
    SumsNext([] + [87] + [105] + [107] + [105] + [112] + [101] + [100] + [105], 97);
    assert w == [] + [87] + [105] + [107] + [105] + [112] + [101] + [100] + [105] + [97];
  }
}
