/** Octets and the fixed-width integers the wire format writes with them. */
module Bytes {
  import Arithmetic

  type byte = b: int | 0 <= b < 256
  type u16 = x: int | 0 <= x < 0x1_0000
  type u32 = x: int | 0 <= x < 0x1_0000_0000
  type u64 = x: int | 0 <= x < 0x1_0000_0000_0000_0000

  datatype Option<+T> = None | Some(value: T)

  datatype Result<+T, +E> = Success(value: T) | Failure(error: E)

  function Pow256(n: nat): (p: nat)
    ensures p > 0
  {
    if n == 0 then 1 else 256 * Pow256(n - 1)
  }

  lemma WidthsAsPowers()
    ensures Pow256(1) == 0x100
    ensures Pow256(2) == 0x1_0000
    ensures Pow256(4) == 0x1_0000_0000
    ensures Pow256(8) == 0x1_0000_0000_0000_0000
  {
    assert Pow256(3) == 256 * Pow256(2);
    assert Pow256(4) == 256 * Pow256(3);
    assert Pow256(5) == 256 * Pow256(4);
    assert Pow256(6) == 256 * Pow256(5);
    assert Pow256(7) == 256 * Pow256(6);
  }

  /** The low `n` octets of `v`, most significant first (network order). */
  function BigEndian(v: nat, n: nat): (s: seq<byte>)
    ensures |s| == n
  {
    if n == 0 then [] else BigEndian(v / 256, n - 1) + [v % 256]
  }

  function FromBigEndian(s: seq<byte>): (v: nat)
    ensures v < Pow256(|s|)
  {
    if s == [] then 0 else FromBigEndian(s[..|s| - 1]) * 256 + s[|s| - 1]
  }

  /** The low `n` octets of `v`, least significant first. */
  function LittleEndian(v: nat, n: nat): (s: seq<byte>)
    ensures |s| == n
  {
    if n == 0 then [] else [v % 256] + LittleEndian(v / 256, n - 1)
  }

  function FromLittleEndian(s: seq<byte>): (v: nat)
    ensures v < Pow256(|s|)
  {
    if s == [] then 0 else s[0] + 256 * FromLittleEndian(s[1..])
  }

  lemma {:induction false} ReadBackBigEndian(v: nat, n: nat)
    requires v < Pow256(n)
    ensures FromBigEndian(BigEndian(v, n)) == v
  {
    if n > 0 {
      var front := BigEndian(v / 256, n - 1);
      ReadBackBigEndian(v / 256, n - 1);
      var s := BigEndian(v, n);
      assert s == front + [v % 256] && s[..n - 1] == front;
      hide BigEndian;
    }
  }

  lemma {:induction false} WriteBackBigEndian(s: seq<byte>)
    ensures BigEndian(FromBigEndian(s), |s|) == s
  {
    if s != [] {
      WriteBackBigEndian(s[..|s| - 1]);
      assert s == s[..|s| - 1] + [s[|s| - 1]];
    }
  }

  lemma {:induction false} ReadBackLittleEndian(v: nat, n: nat)
    requires v < Pow256(n)
    ensures FromLittleEndian(LittleEndian(v, n)) == v
  {
    if n > 0 {
      var s := LittleEndian(v, n);
      assert s[1..] == LittleEndian(v / 256, n - 1);
      ReadBackLittleEndian(v / 256, n - 1);
    }
  }

  lemma {:induction false} WriteBackLittleEndian(s: seq<byte>)
    ensures LittleEndian(FromLittleEndian(s), |s|) == s
  {
    if s != [] {
      WriteBackLittleEndian(s[1..]);
      var low, rest := s[0], FromLittleEndian(s[1..]);
      assert FromLittleEndian(s) == low + 256 * rest;
      assert (low + 256 * rest) % 256 == low && (low + 256 * rest) / 256 == rest;
      assert s == [low] + s[1..];
    }
  }

  /** Octet `k` from the end, in network order, counts 256 to the power `k`. */
  lemma {:induction false} BigEndianAt(v: nat, n: nat, k: nat)
    requires k < n
    ensures BigEndian(v, n)[n - 1 - k] == v / Pow256(k) % 256
  {
    if k > 0 {
      BigEndianAt(v / 256, n - 1, k - 1);
      Arithmetic.DivideTwice(v, 256, Pow256(k - 1));
    }
  }

  /** Octet `k` from the start, least significant first, counts as much. */
  lemma {:induction false} LittleEndianAt(v: nat, n: nat, k: nat)
    requires k < n
    ensures LittleEndian(v, n)[k] == v / Pow256(k) % 256
  {
    if k > 0 {
      LittleEndianAt(v / 256, n - 1, k - 1);
      Arithmetic.DivideTwice(v, 256, Pow256(k - 1));
    }
  }

  lemma ThreeOctets()
    ensures Pow256(0) == 1 && Pow256(3) == 0x100_0000
  {
    assert Pow256(2) == 256 * Pow256(1);
  }

  /** Network order spelled out. */
  lemma NetworkOrder(v: nat)
    ensures BigEndian(v, 2) == [v / 0x100 % 256, v % 256]
    ensures BigEndian(v, 4) == [v / 0x100_0000 % 256, v / 0x1_0000 % 256, v / 0x100 % 256, v % 256]
  {
    WidthsAsPowers();
    ThreeOctets();
    BigEndianAt(v, 2, 0);
    BigEndianAt(v, 2, 1);
    BigEndianAt(v, 4, 0);
    BigEndianAt(v, 4, 1);
    BigEndianAt(v, 4, 2);
    BigEndianAt(v, 4, 3);
    hide *;
  }

  /** And the other order. */
  lemma ReverseOrder(v: nat)
    ensures LittleEndian(v, 4) == [v % 256, v / 0x100 % 256, v / 0x1_0000 % 256, v / 0x100_0000 % 256]
  {
    WidthsAsPowers();
    ThreeOctets();
    LittleEndianAt(v, 4, 0);
    LittleEndianAt(v, 4, 1);
    LittleEndianAt(v, 4, 2);
    LittleEndianAt(v, 4, 3);
    hide *;
  }
}
