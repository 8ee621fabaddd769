/**
 * The frame check: CRC-32 as IEEE Std 802.3-2018, section 3.2.9, defines it (a
 * polynomial remainder over the transmitted bits), the bit-serial register that
 * computes it, and the table-driven loop the transport runs.
 */
module Crc32 {
  import opened Arithmetic
  import opened Bytes

  // ---------------------------------------------------------------------------
  // The standard's definition: long division of polynomials over GF(2).
  // A polynomial is its coefficients, highest degree first.

  /** The exponents of G(x) below its leading x^32. */
  const GENERATOR_EXPONENTS: set<int> := {26, 23, 22, 16, 12, 11, 10, 8, 7, 5, 4, 2, 1, 0}

  function GeneratorTail(): (s: seq<bool>)
    ensures |s| == 32
  {
    seq(32, i requires 0 <= i < 32 => (31 - i) in GENERATOR_EXPONENTS)
  }

  function Zeros(n: nat): (s: seq<bool>)
    ensures |s| == n
  {
    seq(n, i => false)
  }

  function Complement(s: seq<bool>): (r: seq<bool>)
    ensures |r| == |s|
  {
    seq(|s|, i requires 0 <= i < |s| => !s[i])
  }

  /** Add `w` to the leading coefficients of `s`. */
  function AddToFront(s: seq<bool>, w: seq<bool>): (r: seq<bool>)
    requires |w| <= |s|
    ensures |r| == |s|
  {
    seq(|s|, i requires 0 <= i < |s| => if i < |w| then s[i] != w[i] else s[i])
  }

  /** One line of the division: subtract G when it goes, bring down the next coefficient. */
  function DivideOnce(p: seq<bool>): (r: seq<bool>)
    requires |p| > 32
    ensures |r| == |p| - 1
  {
    if p[0] then AddToFront(p[1..], GeneratorTail()) else p[1..]
  }

  /** The remainder of `p` modulo G(x). */
  function Remainder(p: seq<bool>): (r: seq<bool>)
    requires |p| >= 32
    ensures |r| == 32
    decreases |p|
  {
    if |p| == 32 then p else Remainder(DivideOnce(p))
  }

  function Pow2(n: nat): (p: nat)
    ensures p > 0
  {
    if n == 0 then 1 else 2 * Pow2(n - 1)
  }

  /** The `n` low bits of `v`, low-order bit first: the order octets are transmitted in. */
  function LowBits(v: nat, n: nat): (s: seq<bool>)
    ensures |s| == n
  {
    seq(n, i requires 0 <= i < n => v / Pow2(i) % 2 == 1)
  }

  function MessageBits(data: seq<byte>): (s: seq<bool>)
    ensures |s| == 8 * |data|
  {
    if data == [] then [] else LowBits(data[0], 8) + MessageBits(data[1..])
  }

  /** Steps a) to e) of section 3.2.9: complement 32, append 32, divide, complement. */
  function FrameCheckBits(data: seq<byte>): (s: seq<bool>)
    ensures |s| == 32
  {
    var dividend := AddToFront(MessageBits(data) + Zeros(32), Complement(Zeros(32)));
    Complement(Remainder(dividend))
  }

  // ---------------------------------------------------------------------------
  // A uint32_t as its bits, bit i at index i, and the bit-serial register.
  // The register is reflected: bit 0 holds the highest coefficient.

  type Word = w: seq<bool> | |w| == 32 witness Zeros(32)

  const POLYNOMIAL: u32 := 0xEDB88320

  function WordOf(v: nat): Word { LowBits(v, 32) }

  function ValueOf(bits: seq<bool>): (v: nat) {
    if bits == [] then 0 else (if bits[0] then 1 else 0) + 2 * ValueOf(bits[1..])
  }

  function Xor(a: Word, b: Word): Word {
    AddToFront(a, b)
  }

  function ShiftRight(x: Word, n: nat): Word
    requires n <= 32
  {
    x[n..] + Zeros(n)
  }

  /** x & 0xFF, the low octet of a word. */
  function LowOctet(x: Word): Word {
    x[..8] + Zeros(24)
  }

  function Step(x: Word): Word {
    if x[0] then Xor(WordOf(POLYNOMIAL), ShiftRight(x, 1)) else ShiftRight(x, 1)
  }

  function Steps(x: Word, n: nat): Word
    decreases n, |x|
  {
    if n == 0 then x else Steps(Step(x), n - 1)
  }

  function FeedBit(reg: Word, bit: bool): Word {
    Step(reg[0 := reg[0] != bit])
  }

  function FeedBits(reg: Word, bits: seq<bool>): Word
    decreases |bits|
  {
    if bits == [] then reg else FeedBits(FeedBit(reg, bits[0]), bits[1..])
  }

  /** What one turn of the loop does to the register, whatever way it is computed. */
  function FeedOctet(reg: Word, b: byte): Word {
    Steps(Xor(reg, WordOf(b)), 8)
  }

  function Feed(reg: Word, data: seq<byte>): Word
    decreases |data|
  {
    if data == [] then reg else Feed(FeedOctet(reg, data[0]), data[1..])
  }

  function CrcWord(data: seq<byte>): Word {
    Complement(Feed(Complement(Zeros(32)), data))
  }

  function NumberOf(w: Word): (c: u32)
    ensures WordOf(c) == w
  {
    ValueBound(w);
    WidthAsPower();
    BitsOfValue(w);
    ValueOf(w)
  }

  /** The number the frame carries. */
  function Crc(data: seq<byte>): u32 {
    NumberOf(CrcWord(data))
  }

  // ---------------------------------------------------------------------------
  // Numbers and their bits.

  lemma LowBitFirst(v: nat, n: nat)
    ensures LowBits(v, n + 1) == [v % 2 == 1] + LowBits(v / 2, n)
  {
    forall i | 0 <= i < n
      ensures v / Pow2(i + 1) == v / 2 / Pow2(i)
    {
      DivideTwice(v, 2, Pow2(i));
    }
  }

  lemma WidthAsPower()
    ensures Pow2(8) == 0x100 && Pow2(16) == 0x1_0000 && Pow2(32) == 0x1_0000_0000
  {
    assert Pow2(4) == 16;
    Pow2Adds(4, 4);
    Pow2Adds(8, 8);
    Pow2Adds(16, 16);
  }

  lemma {:induction false} Pow2Adds(m: nat, n: nat)
    ensures Pow2(m + n) == Pow2(m) * Pow2(n)
  {
    if m > 0 {
      Pow2Adds(m - 1, n);
    }
  }

  lemma {:induction false} ValueBound(bits: seq<bool>)
    ensures ValueOf(bits) < Pow2(|bits|)
  {
    if bits != [] {
      ValueBound(bits[1..]);
    }
  }

  lemma {:induction false} BitsOfValue(bits: seq<bool>)
    ensures LowBits(ValueOf(bits), |bits|) == bits
  {
    if bits != [] {
      LowBitFirst(ValueOf(bits), |bits| - 1);
      BitsOfValue(bits[1..]);
      assert bits == [bits[0]] + bits[1..];
    }
  }

  lemma {:induction false} ValueOfBits(v: nat, n: nat)
    requires v < Pow2(n)
    ensures ValueOf(LowBits(v, n)) == v
  {
    if n > 0 {
      LowBitFirst(v, n - 1);
      ValueOfBits(v / 2, n - 1);
      assert LowBits(v, n)[1..] == LowBits(v / 2, n - 1);
    }
  }

  lemma HalvedSum(lo: nat, p: nat, hi: nat)
    ensures var v := lo + 2 * p * hi;
      v / 2 == lo / 2 + p * hi && v % 2 == lo % 2
  {
    assert lo + 2 * p * hi == lo + 2 * (p * hi);
  }

  /** The bits of lo + 2^m * hi are those of lo followed by those of hi. */
  lemma {:induction false} BitsConcatenate(lo: nat, m: nat, hi: nat, n: nat)
    requires lo < Pow2(m)
    ensures LowBits(lo + Pow2(m) * hi, m + n) == LowBits(lo, m) + LowBits(hi, n)
  {
    if m > 0 {
      var v := lo + Pow2(m) * hi;
      HalvedSum(lo, Pow2(m - 1), hi);
      LowBitFirst(v, m - 1 + n);
      LowBitFirst(lo, m - 1);
      BitsConcatenate(lo / 2, m - 1, hi, n);
    }
  }

  lemma OctetWord(b: byte)
    ensures WordOf(b) == LowBits(b, 8) + Zeros(24)
  {
    WidthAsPower();
    BitsConcatenate(b, 8, 0, 24);
    assert LowBits(0, 24) == Zeros(24);
  }

  // ---------------------------------------------------------------------------
  // The register computes the remainder.

  lemma Nibble(lo: nat, hi: nat, n: nat)
    requires lo < 16
    ensures LowBits(lo + 16 * hi, n + 4) ==
      [lo % 2 == 1, lo / 2 % 2 == 1, lo / 4 % 2 == 1, lo / 8 % 2 == 1] + LowBits(hi, n)
  {
    assert Pow2(1) == 2 && Pow2(2) == 4 && Pow2(3) == 8 && Pow2(4) == 16;
    BitsConcatenate(lo, 4, hi, n);
  }

  lemma GeneratorBits()
    ensures GeneratorTail() ==
      [false, false, false, false, false, true, false, false]
      + [true, true, false, false, false, false, false, true]
      + [false, false, false, true, true, true, false, true]
      + [true, false, true, true, false, true, true, true]
  {
  }

  lemma PolynomialLowHalf()
    ensures LowBits(0x8320, 16) ==
      [false, false, false, false, false, true, false, false]
      + [true, true, false, false, false, false, false, true]
  {
    hide LowBits;
    Nibble(0x0, 0x832, 12);
    Nibble(0x2, 0x83, 8);
    Nibble(0x3, 0x8, 4);
    Nibble(0x8, 0, 0);
  }

  lemma PolynomialHighHalf()
    ensures LowBits(0xEDB8, 16) ==
      [false, false, false, true, true, true, false, true]
      + [true, false, true, true, false, true, true, true]
  {
    hide LowBits;
    Nibble(0x8, 0xEDB, 12);
    Nibble(0xB, 0xED, 8);
    Nibble(0xD, 0xE, 4);
    Nibble(0xE, 0, 0);
  }

  lemma PolynomialIsTheGenerator()
    ensures WordOf(POLYNOMIAL) == GeneratorTail()
  {
    hide LowBits, GeneratorTail;
    WidthAsPower();
    PolynomialLowHalf();
    PolynomialHighHalf();
    BitsConcatenate(0x8320, 16, 0xEDB8, 16);
    GeneratorBits();
  }

  /** One register step is one line of the division. */
  lemma StepDivides(reg: Word, bit: bool, rest: seq<bool>)
    requires |rest| >= 32
    ensures DivideOnce(AddToFront([bit] + rest, reg)) == AddToFront(rest, FeedBit(reg, bit))
  {
    PolynomialIsTheGenerator();
  }

  lemma {:induction false} RegisterIsLongDivision(reg: Word, bits: seq<bool>)
    ensures Remainder(AddToFront(bits + Zeros(32), reg)) == FeedBits(reg, bits)
    decreases |bits|
  {
    if bits == [] {
      assert AddToFront([] + Zeros(32), reg) == reg;
    } else {
      assert bits + Zeros(32) == [bits[0]] + (bits[1..] + Zeros(32));
      StepDivides(reg, bits[0], bits[1..] + Zeros(32));
      RegisterIsLongDivision(FeedBit(reg, bits[0]), bits[1..]);
    }
  }

  // ---------------------------------------------------------------------------
  // Octet at a time, by linearity.

  lemma StepIsLinear(x: Word, y: Word)
    ensures Step(Xor(x, y)) == Xor(Step(x), Step(y))
  {
    assert ShiftRight(Xor(x, y), 1) == Xor(ShiftRight(x, 1), ShiftRight(y, 1));
  }

  lemma {:induction false} StepsAreLinear(x: Word, y: Word, n: nat)
    ensures Steps(Xor(x, y), n) == Xor(Steps(x, n), Steps(y, n))
    decreases n
  {
    if n > 0 {
      StepIsLinear(x, y);
      StepsAreLinear(Step(x), Step(y), n - 1);
    }
  }

  /** While its low bits are clear, stepping a word only shifts it. */
  lemma {:induction false} StepsOfClearBits(x: Word, n: nat)
    requires n <= 32 && x[..n] == Zeros(n)
    ensures Steps(x, n) == ShiftRight(x, n)
    decreases n
  {
    if n > 0 {
      assert !x[0] by { assert x[..n][0] == Zeros(n)[0]; }
      var y := Step(x);
      assert y[..n - 1] == Zeros(n - 1) by {
        assert forall i :: 0 <= i < n - 1 ==> y[i] == x[..n][i + 1];
      }
      StepsOfClearBits(y, n - 1);
    }
  }

  /** Feeding the n low bits of y one by one is xor-ing y in and stepping n times. */
  lemma {:induction false} BitsAtOnce(reg: Word, y: Word, n: nat)
    requires n <= 32 && y[n..] == Zeros(32 - n)
    ensures FeedBits(reg, y[..n]) == Steps(Xor(reg, y), n)
    decreases n
  {
    if n == 0 {
      assert y == Zeros(32);
      assert Xor(reg, y) == reg;
    } else {
      var z := ShiftRight(y, 1);
      StepTakesFirst(reg, y);
      assert z[n - 1..] == y[n..] + Zeros(1) == Zeros(33 - n);
      assert y[..n][1..] == z[..n - 1];
      hide Step, FeedBit, Xor, ShiftRight;
      BitsAtOnce(FeedBit(reg, y[0]), z, n - 1);
    }
  }

  lemma StepTakesFirst(reg: Word, y: Word)
    ensures Step(Xor(reg, y)) == Xor(FeedBit(reg, y[0]), ShiftRight(y, 1))
  {
  }

  lemma FeedOctetIsFeedBits(reg: Word, b: byte)
    ensures FeedOctet(reg, b) == FeedBits(reg, LowBits(b, 8))
  {
    OctetWord(b);
    BitsAtOnce(reg, WordOf(b), 8);
    assert WordOf(b)[..8] == LowBits(b, 8);
  }

  lemma {:induction false} FeedBitsAppend(reg: Word, s: seq<bool>, t: seq<bool>)
    ensures FeedBits(reg, s + t) == FeedBits(FeedBits(reg, s), t)
    decreases |s|
  {
    if s == [] {
      assert s + t == t;
    } else {
      assert (s + t)[1..] == s[1..] + t;
      FeedBitsAppend(FeedBit(reg, s[0]), s[1..], t);
    }
  }

  lemma {:induction false} FeedIsFeedBits(reg: Word, data: seq<byte>)
    ensures Feed(reg, data) == FeedBits(reg, MessageBits(data))
    decreases |data|
  {
    if data != [] {
      FeedOctetIsFeedBits(reg, data[0]);
      FeedIsFeedBits(FeedOctet(reg, data[0]), data[1..]);
      FeedBitsAppend(reg, LowBits(data[0], 8), MessageBits(data[1..]));
    }
  }

  /** The register's answer is the standard's frame check sequence, on every message. */
  lemma CrcIsTheStandardsFrameCheck(data: seq<byte>)
    ensures LowBits(Crc(data), 32) == FrameCheckBits(data)
  {
    FeedIsFeedBits(Complement(Zeros(32)), data);
    RegisterIsLongDivision(Complement(Zeros(32)), MessageBits(data));
  }

  // ---------------------------------------------------------------------------
  // The table-driven loop.

  /** The table entry for the low octet, xor-ed with the rest shifted down, is eight steps. */
  lemma TableStep(x: Word)
    ensures Xor(Steps(LowOctet(x), 8), ShiftRight(x, 8)) == Steps(x, 8)
  {
    var high := Zeros(8) + x[8..];
    assert x == Xor(LowOctet(x), high);
    assert high[..8] == Zeros(8);
    StepsAreLinear(LowOctet(x), high, 8);
    StepsOfClearBits(high, 8);
    assert ShiftRight(high, 8) == ShiftRight(x, 8);
  }

  lemma LowOctetIndex(x: Word)
    ensures ValueOf(x[..8]) < 256
    ensures WordOf(ValueOf(x[..8])) == LowOctet(x)
  {
    WidthAsPower();
    ValueBound(x[..8]);
    BitsOfValue(x[..8]);
    OctetWord(ValueOf(x[..8]));
  }

  method TableEntry(index: byte) returns (value: Word)
    ensures value == Steps(WordOf(index), 8)
  {
    value := WordOf(index);
    for bit := 0 to 8
      invariant Steps(value, 8 - bit) == Steps(WordOf(index), 8)
    {
      value := if value[0] then Xor(WordOf(POLYNOMIAL), ShiftRight(value, 1))
               else ShiftRight(value, 1);
    }
  }

  method BuildTable() returns (table: seq<Word>)
    ensures |table| == 256
    ensures forall i :: 0 <= i < 256 ==> table[i] == Steps(WordOf(i), 8)
  {
    hide Steps, WordOf;
    var built := new Word[256](i => Zeros(32));
    for index := 0 to 256
      invariant forall i :: 0 <= i < index ==> built[i] == Steps(WordOf(i), 8)
    {
      built[index] := TableEntry(index);
    }
    table := built[..];
  }

  lemma FeedSnoc(reg: Word, data: seq<byte>, n: nat)
    requires n < |data|
    ensures Feed(reg, data[..n + 1]) == FeedOctet(Feed(reg, data[..n]), data[n])
  {
    assert data[..n + 1] == data[..n] + [data[n]];
    FeedAppend(reg, data[..n], [data[n]]);
  }

  lemma {:induction false} FeedAppend(reg: Word, s: seq<byte>, t: seq<byte>)
    ensures Feed(reg, s + t) == Feed(Feed(reg, s), t)
    decreases |s|
  {
    if s == [] {
      assert s + t == t;
    } else {
      assert (s + t)[1..] == s[1..] + t;
      FeedAppend(FeedOctet(reg, s[0]), s[1..], t);
    }
  }

  /** (crc ^ b) & 0xFF, as an index. */
  function TableIndex(crc: Word, b: byte): (at: nat)
    ensures at < 256
  {
    LowOctetIndex(Xor(crc, WordOf(b)));
    ValueOf(Xor(crc, WordOf(b))[..8])
  }

  lemma TableTurn(crc: Word, b: byte)
    ensures Xor(Steps(WordOf(TableIndex(crc, b)), 8), ShiftRight(crc, 8)) == FeedOctet(crc, b)
  {
    var mixed := Xor(crc, WordOf(b));
    LowOctetIndex(mixed);
    TableStep(mixed);
    OctetWord(b);
    assert ShiftRight(crc, 8) == ShiftRight(mixed, 8);
  }

  method Checksum(data: seq<byte>) returns (c: u32)
    ensures c == Crc(data)
  {
    var table := BuildTable();
    ghost var start: Word := Complement(Zeros(32));
    var crc: Word := Complement(Zeros(32));
    for index := 0 to |data|
      invariant crc == Feed(start, data[..index])
    {
      TableTurn(crc, data[index]);
      FeedSnoc(start, data, index);
      crc := Xor(table[TableIndex(crc, data[index])], ShiftRight(crc, 8));
    }
    assert data[..|data|] == data;
    c := NumberOf(Complement(crc));
  }

  // ---------------------------------------------------------------------------
  // What the check can see.

  lemma StepIsInjective(x: Word, y: Word)
    requires Step(x) == Step(y)
    ensures x == y
  {
    PolynomialIsTheGenerator();
    assert Step(x)[31] == x[0];
    assert Step(y)[31] == y[0];
    forall i | 1 <= i < 32
      ensures x[i] == y[i]
    {
      assert Step(x)[i - 1] == Step(y)[i - 1];
    }
  }

  lemma {:induction false} StepsAreInjective(x: Word, y: Word, n: nat)
    requires Steps(x, n) == Steps(y, n)
    ensures x == y
    decreases n
  {
    if n > 0 {
      StepsAreInjective(Step(x), Step(y), n - 1);
      StepIsInjective(x, y);
    }
  }

  lemma XorCancels(r: Word, x: Word, y: Word)
    ensures Xor(r, x) == Xor(r, y) ==> x == y
    ensures Xor(x, r) == Xor(y, r) ==> x == y
  {
    if Xor(r, x) == Xor(r, y) {
      forall i | 0 <= i < 32 ensures x[i] == y[i] {
        assert Xor(r, x)[i] == Xor(r, y)[i];
      }
    }
    if Xor(x, r) == Xor(y, r) {
      forall i | 0 <= i < 32 ensures x[i] == y[i] {
        assert Xor(x, r)[i] == Xor(y, r)[i];
      }
    }
  }

  /** Different registers never meet again, whatever follows. */
  lemma {:induction false} FeedKeepsRegistersApart(x: Word, y: Word, data: seq<byte>)
    ensures Feed(x, data) == Feed(y, data) ==> x == y
    decreases |data|
  {
    if data != [] && Feed(x, data) == Feed(y, data) {
      FeedKeepsRegistersApart(FeedOctet(x, data[0]), FeedOctet(y, data[0]), data[1..]);
      StepsAreInjective(Xor(x, WordOf(data[0])), Xor(y, WordOf(data[0])), 8);
      XorCancels(WordOf(data[0]), x, y);
    }
  }

  lemma {:induction false} MessageBitsAreInjective(s: seq<byte>, t: seq<byte>)
    requires |s| == |t| && MessageBits(s) == MessageBits(t)
    ensures s == t
    decreases |s|
  {
    if s != [] {
      assert LowBits(s[0], 8) == MessageBits(s)[..8] == MessageBits(t)[..8] == LowBits(t[0], 8);
      assert MessageBits(s[1..]) == MessageBits(s)[8..] == MessageBits(t)[8..] == MessageBits(t[1..]);
      WidthAsPower();
      ValueOfBits(s[0], 8);
      ValueOfBits(t[0], 8);
      MessageBitsAreInjective(s[1..], t[1..]);
    }
  }

  lemma FeedBitIsInjective(x: Word, y: Word, bit: bool)
    requires FeedBit(x, bit) == FeedBit(y, bit)
    ensures x == y
  {
    var u, v := x[0 := x[0] != bit], y[0 := y[0] != bit];
    StepIsInjective(u, v);
    assert forall i :: 0 <= i < 32 ==> u[i] == v[i];
  }

  lemma {:induction false} FeedBitsKeepApart(x: Word, y: Word, bits: seq<bool>)
    requires FeedBits(x, bits) == FeedBits(y, bits)
    ensures x == y
    decreases |bits|
  {
    if bits != [] {
      FeedBitsKeepApart(FeedBit(x, bits[0]), FeedBit(y, bits[0]), bits[1..]);
      FeedBitIsInjective(x, y, bits[0]);
    }
  }

  /** From one register, different runs of no more than thirty-two bits lead to different registers. */
  lemma ShortBurstIsSeen(reg: Word, s: seq<bool>, t: seq<bool>)
    requires |s| == |t| <= 32 && FeedBits(reg, s) == FeedBits(reg, t)
    ensures s == t
  {
    var n := |s|;
    var x: Word, y: Word := s + Zeros(32 - n), t + Zeros(32 - n);
    assert x[..n] == s && y[..n] == t && x[n..] == y[n..] == Zeros(32 - n);
    BitsAtOnce(reg, x, n);
    BitsAtOnce(reg, y, n);
    StepsAreInjective(Xor(reg, x), Xor(reg, y), n);
    XorCancels(reg, x, y);
  }

  /** Two messages alike in all but `n` consecutive bits, as they are transmitted. */
  ghost predicate DifferOnlyInBits(s: seq<byte>, t: seq<byte>, k: nat, n: nat) {
    var (x, y) := (MessageBits(s), MessageBits(t));
    |s| == |t| && k + n <= |x| && x[..k] == y[..k] && x[k + n..] == y[k + n..]
  }

  /** Two messages that differ only inside thirty-two consecutive bits, at any bit, have different checks. */
  lemma BitBurstChangesCrc(s: seq<byte>, t: seq<byte>, k: nat, n: nat)
    requires DifferOnlyInBits(s, t, k, n) && n <= 32
    ensures Crc(s) == Crc(t) <==> s == t
  {
    if Crc(s) == Crc(t) {
      var start := Complement(Zeros(32));
      var x, y := MessageBits(s), MessageBits(t);
      assert Complement(Feed(start, s)) == Complement(Feed(start, t));
      assert Complement(Complement(Feed(start, s))) == Feed(start, s);
      assert Complement(Complement(Feed(start, t))) == Feed(start, t);
      FeedIsFeedBits(start, s);
      FeedIsFeedBits(start, t);
      assert x == x[..k] + (x[k..k + n] + x[k + n..]) && y == y[..k] + (y[k..k + n] + y[k + n..]);
      var at := FeedBits(start, x[..k]);
      FeedBitsAppend(start, x[..k], x[k..k + n] + x[k + n..]);
      FeedBitsAppend(start, y[..k], y[k..k + n] + y[k + n..]);
      FeedBitsAppend(at, x[k..k + n], x[k + n..]);
      FeedBitsAppend(at, y[k..k + n], y[k + n..]);
      FeedBitsKeepApart(FeedBits(at, x[k..k + n]), FeedBits(at, y[k..k + n]), x[k + n..]);
      ShortBurstIsSeen(at, x[k..k + n], y[k..k + n]);
      MessageBitsAreInjective(s, t);
    }
  }

  ghost predicate DifferOnlyIn(s: seq<byte>, t: seq<byte>, from: nat, to: nat)
    requires from <= to
  {
    |s| == |t| && to <= |s| && s[..from] == t[..from] && s[to..] == t[to..]
  }

  lemma {:induction false} MessageBitsAppend(s: seq<byte>, t: seq<byte>)
    ensures MessageBits(s + t) == MessageBits(s) + MessageBits(t)
    decreases |s|
  {
    if s == [] {
      assert s + t == t;
    } else {
      assert (s + t)[1..] == s[1..] + t;
      MessageBitsAppend(s[1..], t);
    }
  }

  lemma OctetsAsBits(s: seq<byte>, t: seq<byte>, from: nat, to: nat)
    requires from <= to && DifferOnlyIn(s, t, from, to)
    ensures DifferOnlyInBits(s, t, 8 * from, 8 * (to - from))
  {
    assert s == s[..from] + (s[from..to] + s[to..]) && t == t[..from] + (t[from..to] + t[to..]);
    MessageBitsAppend(s[..from], s[from..to] + s[to..]);
    MessageBitsAppend(t[..from], t[from..to] + t[to..]);
    MessageBitsAppend(s[from..to], s[to..]);
    MessageBitsAppend(t[from..to], t[to..]);
  }

  /** So do two that differ only inside four consecutive octets. */
  lemma BurstChangesCrc(s: seq<byte>, t: seq<byte>, k: nat)
    requires DifferOnlyIn(s, t, k, k + 4)
    ensures Crc(s) == Crc(t) <==> s == t
  {
    OctetsAsBits(s, t, k, k + 4);
    BitBurstChangesCrc(s, t, 8 * k, 32);
  }
}
