/** The inflate-style bit reader of benchmarks/pako-bench.ts. */
module BitReader {
  import opened Wrappers

  /** What the reader adds for one code. */
  function Score(code: Byte): int {
    if code < 128 then code else code % 16 + code / 16 % 8
  }

  /** In the program's bits: a code below 128 as it is, otherwise its low four bits and its bits 4 to 6. */
  lemma ScoreMeans(code: bv8)
    ensures code < 128 ==> Score(code as int) == code as int
    ensures code >= 128 ==> Score(code as int) == (code & 0x0f) as int + ((code >> 4) & 0x07) as int
  {
  }

  ghost function TotalScore(input: seq<Byte>): int {
    if input == [] then 0 else TotalScore(input[..|input| - 1]) + Score(input[|input| - 1])
  }

  /** `hold` with `bits` unread bits holds the bytes `bs`, the next one lowest. */
  ghost predicate Holding(hold: nat, bits: nat, bs: seq<Byte>) {
    || (bits == 0 && bs == [] && hold == 0)
    || (bits == 8 && |bs| == 1 && hold == bs[0] as int)
    || (bits == 16 && |bs| == 2 && hold == bs[0] as int + 256 * bs[1] as int)
  }

  method FillHold(input: seq<Byte>, hold_: nat, bits_: nat, pos_: nat) returns (hold: nat, bits: nat, pos: nat)
    requires bits_ == 0 && hold_ == 0 && pos_ < |input|
    ensures pos_ < pos <= |input| && Holding(hold, bits, input[pos_..pos])
  {
    hold, bits, pos := hold_, bits_, pos_;
    while bits < 16 && pos < |input|
      invariant pos_ <= pos <= |input| && Holding(hold, bits, input[pos_..pos])
      invariant pos == pos_ ==> bits == 0
      decreases |input| - pos
    {
      hold := hold + input[pos] as int * (if bits == 0 then 1 else 256);
      pos := pos + 1;
      bits := bits + 8;
    }
  }

  method DrainHold(hold_: nat, bits_: nat, result_: int, ghost bs: seq<Byte>) returns (hold: nat, bits: nat, result: int)
    requires Holding(hold_, bits_, bs)
    ensures hold == 0 && bits == 0 && result == result_ + TotalScore(bs)
  {
    hold, bits, result := hold_, bits_, result_;
    ghost var i := 0;
    assert bs[0..] == bs && bs[..0] == [];
    while bits >= 8
      invariant 0 <= i <= |bs| && Holding(hold, bits, bs[i..])
      invariant result == result_ + TotalScore(bs[..i])
      decreases bits
    {
      var code: Byte := hold % 256;
      assert code == bs[i] by { assert bs[i..][0] == bs[i]; LowByte(hold, bits, bs[i..]); }
      assert bs[..i + 1][..i] == bs[..i];
      assert bs[i..][1..] == bs[i + 1..];
      NextByte(hold, bits, bs[i..]);
      hold := hold / 256;
      bits := bits - 8;
      if code < 128 {
        result := result + code;
      } else {
        result := result + (code % 16 + code / 16 % 8);
      }
      i := i + 1;
    }
    assert bs[..i] == bs;
  }

  lemma LowByte(hold: nat, bits: nat, bs: seq<Byte>)
    requires Holding(hold, bits, bs) && bits >= 8
    ensures bs != [] && hold % 256 == bs[0]
  {
  }

  lemma NextByte(hold: nat, bits: nat, bs: seq<Byte>)
    requires Holding(hold, bits, bs) && bits >= 8
    ensures bs != [] && Holding(hold / 256, bits - 8, bs[1..])
  {
  }

  /** `jsInflateBitsRun` on an arbitrary buffer: every byte is read back whole, in order, and none is left over. */
  method JsInflateBits(input: seq<Byte>) returns (result: int)
    ensures result == TotalScore(input)
  {
    hide Holding, Score;
    var hold, bits, pos: nat := 0, 0, 0;
    result := 0;
    assert input[..0] == [];
    while pos < |input|
      invariant pos <= |input| && hold == 0 && bits == 0
      invariant result == TotalScore(input[..pos])
    {
      ghost var from := pos;
      hold, bits, pos := FillHold(input, hold, bits, pos);
      hold, bits, result := DrainHold(hold, bits, result, input[from..pos]);
      ScoreSplits(input[..from], input[from..pos]);
      assert input[..from] + input[from..pos] == input[..pos];
    }
    assert input[..pos] == input;
  }

  lemma {:induction false} ScoreSplits(a: seq<Byte>, b: seq<Byte>)
    ensures TotalScore(a + b) == TotalScore(a) + TotalScore(b)
  {
    if b == [] {
      assert a + b == a;
    } else {
      assert (a + b)[..|a + b| - 1] == a + b[..|b| - 1];
      ScoreSplits(a, b[..|b| - 1]);
    }
  }
}
