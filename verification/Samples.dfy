/** Samples as signed numbers and as octets, and blending two of them. */
module Samples {
  import opened Bytes

  type Width = w: int | w == 2 || w == 3 witness 2

  function Ceiling(width: Width): int {
    if width == 3 then 0x7F_FFFF else 0x7FFF
  }

  predicate Representable(width: Width, v: int) {
    -Ceiling(width) - 1 <= v <= Ceiling(width)
  }

  /** Little-endian two's complement, sign extended. */
  function DecodeSample(s: seq<byte>): (v: int)
    requires |s| == 2 || |s| == 3
    ensures Representable(|s|, v)
  {
    WidthsAsPowers();
    ThreeOctets();
    var u := FromLittleEndian(s);
    if u > Ceiling(|s|) then u - Pow256(|s|) else u
  }

  function Clipped(width: Width, v: int): (r: int)
    ensures Representable(width, r) && (Representable(width, v) ==> r == v)
  {
    if v > Ceiling(width) then Ceiling(width) else if v < -Ceiling(width) - 1 then -Ceiling(width) - 1 else v
  }

  function EncodeSample(width: Width, v: int): (s: seq<byte>)
    ensures |s| == width
  {
    var c := Clipped(width, v);
    LittleEndian(if c < 0 then c + Pow256(width) else c, width)
  }

  /** A sample is its octets, the least first, the highest bit counting negative. */
  lemma SampleIsTwosComplement(s: seq<byte>)
    requires |s| == 2 || |s| == 3
    ensures var a: int, b: int, sign := s[0], s[1], if s[|s| - 1] >= 128 then 1 else 0;
      DecodeSample(s) ==
      if |s| == 2 then a + 256 * b - 65536 * sign else (var c: int := s[2]; a + 256 * b + 65536 * c - 16777216 * sign)
  {
    WidthsAsPowers();
    ThreeOctets();
    assert s[1..][1..] == s[2..];
    if |s| == 2 {
      assert FromLittleEndian(s[1..]) == s[1] + 256 * FromLittleEndian(s[2..]);
    } else {
      assert s[2..][1..] == [];
      assert FromLittleEndian(s[2..]) == s[2] + 256 * FromLittleEndian(s[2..][1..]);
      assert FromLittleEndian(s[1..]) == s[1] + 256 * FromLittleEndian(s[2..]);
    }
  }

  /** Encoding clips and never wraps. */
  lemma EncodedReadsBack(width: Width, v: int)
    ensures DecodeSample(EncodeSample(width, v)) == Clipped(width, v)
    ensures var top := if width == 2 then 32767 else 8388607;
      DecodeSample(EncodeSample(width, v)) == if v > top then top else if v < -top - 1 then -top - 1 else v
  {
    WidthsAsPowers();
    ThreeOctets();
    var c := Clipped(width, v);
    ReadBackLittleEndian(if c < 0 then c + Pow256(width) else c, width);
  }

  lemma DecodedWritesBack(s: seq<byte>)
    requires |s| == 2 || |s| == 3
    ensures EncodeSample(|s|, DecodeSample(s)) == s
  {
    WidthsAsPowers();
    ThreeOctets();
    WriteBackLittleEndian(s);
  }

  /** To the nearest integer, halves away from zero. */
  function Round(x: real): int {
    if x >= 0.0 then (x + 0.5).Floor else -((0.5 - x).Floor)
  }

  lemma RoundIsNearest(x: real)
    ensures -0.5 <= Round(x) as real - x <= 0.5
    ensures Round(x) as real - x == 0.5 ==> x >= 0.0
    ensures Round(x) as real - x == -0.5 ==> x <= 0.0
  {
  }

  lemma RoundBetween(x: real, low: int, high: int)
    requires low as real <= x <= high as real
    ensures low <= Round(x) <= high
  {
  }

  function Mixed(a: int, b: int, weight: real): real {
    a as real * (1.0 - weight) + b as real * weight
  }

  lemma MixedBetween(a: int, b: int, weight: real)
    requires 0.0 <= weight <= 1.0
    ensures a <= b ==> a as real <= Mixed(a, b, weight) <= b as real
    ensures b <= a ==> b as real <= Mixed(a, b, weight) <= a as real
    ensures weight == 0.0 ==> Mixed(a, b, weight) == a as real
    ensures weight == 1.0 ==> Mixed(a, b, weight) == b as real
  {
    var d := b as real - a as real;
    assert Mixed(a, b, weight) == a as real + d * weight;
    Scaled(d, weight);
  }

  lemma Scaled(d: real, weight: real)
    requires 0.0 <= weight <= 1.0
    ensures d >= 0.0 ==> 0.0 <= d * weight <= d
    ensures d <= 0.0 ==> d <= d * weight <= 0.0
  {
  }

  function BlendSample(a: seq<byte>, b: seq<byte>, weight: real): (s: seq<byte>)
    requires |a| == |b| && (|a| == 2 || |a| == 3)
    ensures |s| == |a|
  {
    EncodeSample(|a|, Round(Mixed(DecodeSample(a), DecodeSample(b), weight)))
  }

  /** `z` is the first tap's share and the second's to the nearest, a half going away from zero. */
  ghost predicate IsBlend(x: int, y: int, z: int, weight: real) {
    var mixed := x as real * (1.0 - weight) + y as real * weight;
    && -0.5 <= z as real - mixed <= 0.5
    && (z as real - mixed == 0.5 ==> mixed >= 0.0) && (z as real - mixed == -0.5 ==> mixed <= 0.0)
  }

  lemma MixedIsBlend(x: int, y: int, weight: real)
    ensures IsBlend(x, y, Round(Mixed(x, y, weight)), weight)
  {
    RoundIsNearest(Mixed(x, y, weight));
    hide Round;
  }

  /** A blend lies between its taps, so nothing is clipped; at the ends it is one of them. */
  lemma BlendBetween(a: seq<byte>, b: seq<byte>, weight: real)
    requires |a| == |b| && (|a| == 2 || |a| == 3) && 0.0 <= weight <= 1.0
    ensures var x, y, z := DecodeSample(a), DecodeSample(b), DecodeSample(BlendSample(a, b, weight));
      (x <= z <= y || y <= z <= x) && IsBlend(x, y, z, weight)
    ensures weight == 0.0 ==> BlendSample(a, b, weight) == a
    ensures weight == 1.0 ==> BlendSample(a, b, weight) == b
  {
    var x, y := DecodeSample(a), DecodeSample(b);
    var mixed := Mixed(x, y, weight);
    hide Mixed, EncodeSample, DecodeSample, IsBlend, Round;
    MixedBetween(x, y, weight);
    MixedIsBlend(x, y, weight);
    if x <= y {
      RoundBetween(mixed, x, y);
    } else {
      RoundBetween(mixed, y, x);
    }
    EncodedReadsBack(|a|, Round(mixed));
    RoundWhole(x);
    RoundWhole(y);
    if weight == 0.0 {
      DecodedWritesBack(a);
    }
    if weight == 1.0 {
      DecodedWritesBack(b);
    }
  }

  lemma RoundWhole(v: int)
    ensures Round(v as real) == v
  {
  }
}
