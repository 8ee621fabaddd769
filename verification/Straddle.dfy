/**
 * Damage across the boundary between a frame's body and its check. The check is sent with its
 * high octet first, so its octets do not follow the body in the order the register takes them,
 * and there one pattern of damage goes unseen.
 */
module Straddle {
  import opened Bytes
  import opened Crc32
  import opened WireFrame

  // ---------------------------------------------------------------------------
  // The register after n steps, by the bits that fell out of it.

  /** Where the polynomial takes in the bit that falls out. */
  predicate Tap(i: int) {
    i == 5 || i == 8 || i == 9 || i == 15 || i == 19 || i == 20 || i == 21
    || i == 23 || i == 24 || i == 26 || i == 27 || i == 29 || i == 30 || i == 31
  }

  lemma StepBit(w: Word, i: nat)
    requires i < 32
    ensures Step(w)[i] == ((i < 31 && w[i + 1]) != (w[0] && Tap(i)))
  {
    PolynomialIsTheGenerator();
  }

  lemma {:induction false} StepsOneMore(x: Word, n: nat)
    ensures Steps(x, n + 1) == Step(Steps(x, n))
    decreases n
  {
    if n > 0 {
      StepsOneMore(Step(x), n - 1);
    }
  }

  /** The bits that fall out in the first `n` steps. */
  function Fallen(x: Word, n: nat): (c: seq<bool>)
    ensures |c| == n
  {
    seq(n, t requires 0 <= t < n => Steps(x, t)[0])
  }

  /** What the first `n` of them have put on the diagonal `d`. */
  function Taken(c: seq<bool>, d: int, n: nat): bool
    requires n <= |c|
  {
    n > 0 && Taken(c, d, n - 1) != (c[n - 1] && Tap(d - n))
  }

  lemma {:induction false} TakenBeyond(c: seq<bool>, d: int, n: nat)
    requires n <= |c| && d >= n + 32
    ensures !Taken(c, d, n)
  {
    if n > 0 {
      TakenBeyond(c, d, n - 1);
    }
  }

  lemma {:induction false} TakenOfPrefix(c: seq<bool>, more: seq<bool>, d: int, n: nat)
    requires n <= |c| && c <= more
    ensures Taken(c, d, n) == Taken(more, d, n)
  {
    if n > 0 {
      TakenOfPrefix(c, more, d, n - 1);
    }
  }

  /** A bit moves down one place a step, and takes in what fell out on its way. */
  lemma {:induction false} Diagonal(x: Word, n: nat, i: nat)
    requires i < 32
    ensures Steps(x, n)[i] == ((i + n < 32 && x[i + n]) != Taken(Fallen(x, n), i + n, n))
    decreases n
  {
    hide Step, Tap;
    if n > 0 {
      var before := Steps(x, n - 1);
      StepsOneMore(x, n - 1);
      StepBit(before, i);
      assert Fallen(x, n - 1) <= Fallen(x, n);
      TakenOfPrefix(Fallen(x, n - 1), Fallen(x, n), i + n, n - 1);
      if i < 31 {
        Diagonal(x, n - 1, i + 1);
      } else {
        TakenBeyond(Fallen(x, n - 1), i + n, n - 1);
      }
    }
  }

  // ---------------------------------------------------------------------------
  // Which bits can fall out unseen.

  /** What eight bits put on a diagonal that has taken in `sum` before them. */
  function OctetTaken(sum: bool, c: seq<bool>, d: int, n: nat): bool
    requires n + 8 <= |c|
  {
    ((((((((sum != (c[n] && Tap(d - n - 1))) != (c[n + 1] && Tap(d - n - 2)))
      != (c[n + 2] && Tap(d - n - 3))) != (c[n + 3] && Tap(d - n - 4)))
      != (c[n + 4] && Tap(d - n - 5))) != (c[n + 5] && Tap(d - n - 6)))
      != (c[n + 6] && Tap(d - n - 7))) != (c[n + 7] && Tap(d - n - 8)))
  }

  lemma TakenOctet(c: seq<bool>, d: int, n: nat)
    requires n + 8 <= |c|
    ensures Taken(c, d, n + 8) == OctetTaken(Taken(c, d, n), c, d, n)
  {
    hide Tap;
    assert Taken(c, d, n + 2) == ((Taken(c, d, n) != (c[n] && Tap(d - n - 1))) != (c[n + 1] && Tap(d - n - 2)));
    assert Taken(c, d, n + 4) == ((Taken(c, d, n + 2) != (c[n + 2] && Tap(d - n - 3))) != (c[n + 3] && Tap(d - n - 4)));
    assert Taken(c, d, n + 6) == ((Taken(c, d, n + 4) != (c[n + 4] && Tap(d - n - 5))) != (c[n + 5] && Tap(d - n - 6)));
  }

  lemma TakenOne(c: seq<bool>, d: int)
    requires |c| >= 8
    ensures Taken(c, d, 8) == OctetTaken(false, c, d, 0)
  {
    hide Tap, OctetTaken;
    TakenOctet(c, d, 0);
  }

  lemma TakenTwo(c: seq<bool>, d: int)
    requires |c| >= 16
    ensures Taken(c, d, 16) == OctetTaken(OctetTaken(false, c, d, 0), c, d, 8)
  {
    hide Tap, OctetTaken;
    TakenOne(c, d);
    TakenOctet(c, d, 8);
  }

  lemma TakenThree(c: seq<bool>, d: int)
    requires |c| >= 24
    ensures Taken(c, d, 24) == OctetTaken(OctetTaken(OctetTaken(false, c, d, 0), c, d, 8), c, d, 16)
  {
    hide Tap, OctetTaken;
    TakenTwo(c, d);
    TakenOctet(c, d, 16);
  }

  lemma Taps()
    ensures !Tap(0) && !Tap(1) && !Tap(2) && !Tap(3) && !Tap(4) && Tap(5) && !Tap(6) && !Tap(7)
    ensures Tap(8) && Tap(9) && !Tap(10) && !Tap(11) && !Tap(12) && !Tap(13) && !Tap(14) && Tap(15)
    ensures !Tap(16) && !Tap(17) && !Tap(18) && Tap(19) && Tap(20) && Tap(21) && !Tap(22) && Tap(23)
    ensures Tap(24) && !Tap(25) && Tap(26) && Tap(27) && !Tap(28) && Tap(29) && Tap(30) && Tap(31)
    ensures !Tap(32) && !Tap(33) && !Tap(34) && !Tap(35) && !Tap(36) && !Tap(37) && !Tap(38) && !Tap(39)
    ensures !Tap(40) && !Tap(41) && !Tap(42) && !Tap(43) && !Tap(44) && !Tap(45) && !Tap(46) && !Tap(47)
  {
  }

  /** Of one octet, none. */
  lemma OneOctetShows(c: seq<bool>)
    requires |c| == 8 && forall d :: 8 <= d < 16 ==> !Taken(c, d, 8)
    ensures forall t :: 0 <= t < 8 ==> !c[t]
  {
    hide Tap, Taken;
    Taps();
    TakenOne(c, 8);
    TakenOne(c, 9);
    TakenOne(c, 10);
    TakenOne(c, 11);
    TakenOne(c, 12);
    TakenOne(c, 13);
    TakenOne(c, 14);
    TakenOne(c, 15);
  }

  /** Of two, one pattern. */
  const UNSEEN_FALL: seq<bool> :=
    [true, false, false, false, false, true, false, false, false, true, true, false, true, false, false, true]

  lemma TwoOctetsShow(c: seq<bool>)
    requires |c| == 16 && forall d :: 16 <= d < 32 ==> !Taken(c, d, 16)
    ensures (forall t :: 0 <= t < 16 ==> !c[t]) || (forall t :: 0 <= t < 16 ==> c[t] == UNSEEN_FALL[t])
  {
    hide Tap, Taken;
    Taps();
    TakenTwo(c, 16);
    TakenTwo(c, 17);
    TakenTwo(c, 18);
    TakenTwo(c, 19);
    TakenTwo(c, 20);
    TakenTwo(c, 21);
    TakenTwo(c, 22);
    TakenTwo(c, 23);
    TakenTwo(c, 24);
    TakenTwo(c, 25);
    TakenTwo(c, 26);
    TakenTwo(c, 27);
    TakenTwo(c, 28);
    TakenTwo(c, 29);
    TakenTwo(c, 30);
    TakenTwo(c, 31);
  }

  /** Each bit that falls early follows from later ones; in the end all follow from the last eight. */
  lemma LateOnesDecide(c: seq<bool>)
    requires |c| == 24 && forall d :: 24 <= d < 48 ==> !Taken(c, d, 24)
    ensures c[15] == (((((c[16] != c[17]) != c[19]) != c[20]) != c[22]) != c[23])
    ensures c[14] == ((((c[17] != c[18]) != c[20]) != c[21]) != c[23])
    ensures c[13] == (((((c[16] != c[17]) != c[19]) != c[20]) != c[22]) != c[23])
    ensures c[12] == ((((c[17] != c[18]) != c[20]) != c[21]) != c[23])
    ensures c[11] == ((((c[16] != c[17]) != c[19]) != c[20]) != c[22])
    ensures c[10] == (((((c[17] != c[18]) != c[20]) != c[21]) != c[22]) != c[23])
    ensures c[9] == ((((((c[16] != c[17]) != c[19]) != c[20]) != c[21]) != c[22]) != c[23])
    ensures c[8] == (((c[17] != c[18]) != c[21]) != c[23])
  {
    hide Tap, Taken;
    Taps();
    TakenThree(c, 47);
    TakenThree(c, 46);
    TakenThree(c, 45);
    TakenThree(c, 44);
    TakenThree(c, 43);
    TakenThree(c, 42);
    TakenThree(c, 41);
    TakenThree(c, 40);
  }

  lemma LastEightDecide(c: seq<bool>)
    requires |c| == 24 && forall d :: 24 <= d < 48 ==> !Taken(c, d, 24)
    ensures c[7] == (((c[16] != c[17]) != c[20]) != c[22])
    ensures c[6] == (((c[17] != c[20]) != c[21]) != c[22])
    ensures c[5] == ((((c[16] != c[19]) != c[20]) != c[21]) != c[23])
    ensures c[4] == ((c[16] != c[17]) != c[18])
    ensures c[3] == ((c[19] != c[20]) != c[22])
    ensures c[2] == (((c[18] != c[19]) != c[21]) != c[23])
    ensures c[1] == ((((c[17] != c[18]) != c[20]) != c[22]) != c[23])
    ensures c[0] == (((((c[16] != c[17]) != c[19]) != c[21]) != c[22]) != c[23])
  {
    MiddleOnesDecide(c);
    FirstOnesDecide(c);
    hide *;
  }

  lemma MiddleOnesDecide(c: seq<bool>)
    requires |c| == 24 && forall d :: 24 <= d < 48 ==> !Taken(c, d, 24)
    ensures c[7] == (((c[16] != c[17]) != c[20]) != c[22])
    ensures c[6] == (((c[17] != c[20]) != c[21]) != c[22])
    ensures c[5] == ((((c[16] != c[19]) != c[20]) != c[21]) != c[23])
    ensures c[4] == ((c[16] != c[17]) != c[18])
  {
    hide Tap, Taken;
    Taps();
    LateOnesDecide(c);
    TakenThree(c, 39);
    TakenThree(c, 38);
    TakenThree(c, 37);
    TakenThree(c, 36);
  }

  lemma FirstOnesDecide(c: seq<bool>)
    requires |c| == 24 && forall d :: 24 <= d < 48 ==> !Taken(c, d, 24)
    ensures c[3] == ((c[19] != c[20]) != c[22])
    ensures c[2] == (((c[18] != c[19]) != c[21]) != c[23])
    ensures c[1] == ((((c[17] != c[18]) != c[20]) != c[22]) != c[23])
    ensures c[0] == (((((c[16] != c[17]) != c[19]) != c[21]) != c[22]) != c[23])
  {
    hide Tap, Taken;
    Taps();
    LateOnesDecide(c);
    MiddleOnesDecide(c);
    TakenThree(c, 35);
    TakenThree(c, 34);
    TakenThree(c, 33);
    TakenThree(c, 32);
  }

  /** Of three, none. */
  lemma ThreeOctetsShow(c: seq<bool>)
    requires |c| == 24 && forall d :: 24 <= d < 48 ==> !Taken(c, d, 24)
    ensures forall t :: 0 <= t < 24 ==> !c[t]
  {
    hide Tap, Taken;
    Taps();
    LateOnesDecide(c);
    LastEightDecide(c);
    TakenThree(c, 24);
    TakenThree(c, 25);
    TakenThree(c, 26);
    TakenThree(c, 27);
    TakenThree(c, 28);
    TakenThree(c, 29);
    TakenThree(c, 30);
    TakenThree(c, 31);
  }

  /** What falls out first is what was there. */
  lemma {:induction false} TakenEnough(c: seq<bool>, d: nat, n: nat)
    requires d <= n <= |c|
    ensures Taken(c, d, n) == Taken(c, d, d)
  {
    if d < n {
      TakenEnough(c, d, n - 1);
    }
  }

  lemma BitFromFallen(x: Word, n: nat, d: nat)
    requires d < n <= 32
    ensures x[d] == (Fallen(x, n)[d] != Taken(Fallen(x, n), d, n))
  {
    Diagonal(x, d, 0);
    assert Fallen(x, d) <= Fallen(x, n);
    TakenOfPrefix(Fallen(x, d), Fallen(x, n), d, d);
    TakenEnough(Fallen(x, n), d, n);
  }

  lemma FallenDetermines(x: Word, y: Word, n: nat)
    requires n <= 32 && Fallen(x, n) == Fallen(y, n) && x[n..] == y[n..]
    ensures x == y
  {
    hide Fallen, Taken;
    forall d | 0 <= d < n
      ensures x[d] == y[d]
    {
      BitFromFallen(x, n, d);
      BitFromFallen(y, n, d);
    }
    assert x == x[..n] + x[n..] && y == y[..n] + y[n..];
  }

  lemma {:induction false} FallenIs(x: Word, c: seq<bool>, n: nat)
    requires n <= |c| <= 32
    requires forall d :: 0 <= d < |c| ==> x[d] == (c[d] != Taken(c, d, |c|))
    ensures Fallen(x, n) == c[..n]
  {
    if n > 0 {
      FallenIs(x, c, n - 1);
      var d := n - 1;
      Diagonal(x, d, 0);
      TakenOfPrefix(Fallen(x, d), c, d, d);
      TakenEnough(c, d, |c|);
      assert Fallen(x, n) == Fallen(x, d) + [Steps(x, d)[0]];
    }
  }

  // ---------------------------------------------------------------------------
  // Damage to the last octets of a message that its check does not show in its own last octets.

  /** 0x61 and 0xD8, as they enter the register. */
  function UnseenDamage(): Word {
    [true, false, false, false, false, true, true, false]
    + [false, false, false, true, true, false, true, true] + Zeros(16)
  }

  lemma UnseenDamageBit(d: nat)
    requires d < 16
    ensures UnseenDamage()[d] == (UNSEEN_FALL[d] != Taken(UNSEEN_FALL, d, 16))
  {
    hide Tap, Taken;
    Taps();
    NoTapBefore();
    TakenTwo(UNSEEN_FALL, d);
  }

  lemma NoTapBefore()
    ensures forall i :: i < 0 ==> !Tap(i)
  {
  }

  lemma UnseenDamageFalls()
    ensures Fallen(UnseenDamage(), 16) == UNSEEN_FALL
    ensures Steps(UnseenDamage(), 16)[..16] == Zeros(16)
  {
    var x, c := UnseenDamage(), UNSEEN_FALL;
    hide Tap, Taken, Fallen, Step, Steps;
    forall d | 0 <= d < 16
      ensures x[d] == (c[d] != Taken(c, d, 16))
    {
      UnseenDamageBit(d);
    }
    FallenIs(x, c, 16);
    assert c[..16] == c;
    hide UnseenDamage;
    forall i | 0 <= i < 16
      ensures !Steps(x, 16)[i]
    {
      Diagonal(x, 16, i);
      UnseenTaken(i + 16);
      assert i + 16 < 32 ==> !x[i + 16] by { UnseenDamageHigh(i + 16); }
    }
  }

  lemma UnseenDamageHigh(d: nat)
    requires 16 <= d < 32
    ensures !UnseenDamage()[d]
  {
  }

  lemma UnseenTaken(d: nat)
    requires 16 <= d < 32
    ensures !Taken(UNSEEN_FALL, d, 16)
  {
    var c := UNSEEN_FALL;
    hide Tap, Taken;
    Taps();
    TakenTwo(c, d);
  }

  /** A change to the `m` octets last fed that leaves the low `m` octets of the register alone. */
  lemma UnseenExactly(x: Word, m: nat)
    requires 1 <= m <= 3 && x[8 * m..] == Zeros(32 - 8 * m)
    ensures Steps(x, 8 * m)[..8 * m] == Zeros(8 * m) <==> x == Zeros(32) || (m == 2 && x == UnseenDamage())
  {
    if Steps(x, 8 * m)[..8 * m] == Zeros(8 * m) {
      NothingShows(x, m);
      FallenSays(x, m);
    } else if x == Zeros(32) {
      StepsOfClearBits(x, 8 * m);
      assert false;
    } else if m == 2 && x == UnseenDamage() {
      UnseenDamageFalls();
      assert false;
    }
  }

  lemma NothingShows(x: Word, m: nat)
    requires 1 <= m <= 3 && x[8 * m..] == Zeros(32 - 8 * m) && Steps(x, 8 * m)[..8 * m] == Zeros(8 * m)
    ensures forall d :: 8 * m <= d < 16 * m ==> !Taken(Fallen(x, 8 * m), d, 8 * m)
  {
    hide Taken, Fallen, Steps;
    forall d | 8 * m <= d < 16 * m
      ensures !Taken(Fallen(x, 8 * m), d, 8 * m)
    {
      Diagonal(x, 8 * m, d - 8 * m);
      assert !Steps(x, 8 * m)[..8 * m][d - 8 * m];
      assert d < 32 ==> x[d] == x[8 * m..][d - 8 * m];
    }
  }

  lemma FallenSays(x: Word, m: nat)
    requires 1 <= m <= 3 && x[8 * m..] == Zeros(32 - 8 * m)
    requires forall d :: 8 * m <= d < 16 * m ==> !Taken(Fallen(x, 8 * m), d, 8 * m)
    ensures x == Zeros(32) || (m == 2 && x == UnseenDamage())
  {
    var c := Fallen(x, 8 * m);
    hide Taken, Fallen, Steps;
    if m == 1 {
      OneOctetShows(c);
    } else if m == 2 {
      TwoOctetsShow(c);
    } else {
      ThreeOctetsShow(c);
    }
    if forall t :: 0 <= t < 8 * m ==> !c[t] {
      ZerosFall(8 * m);
      assert c == Zeros(8 * m);
      FallenDetermines(x, Zeros(32), 8 * m);
    } else {
      UnseenDamageFalls();
      assert c == UNSEEN_FALL;
      FallenDetermines(x, UnseenDamage(), 16);
    }
  }

  lemma ZerosFall(n: nat)
    requires n <= 32
    ensures Fallen(Zeros(32), n) == Zeros(n) && Zeros(32)[n..] == Zeros(32 - n)
  {
    forall t | 0 <= t < n
      ensures !Steps(Zeros(32), t)[0]
    {
      StepsOfClearBits(Zeros(32), t);
    }
  }

  /** Up to four octets as a word, the first in the low end. */
  function Padded(s: seq<byte>): Word
    requires |s| <= 4
  {
    MessageBits(s) + Zeros(32 - 8 * |s|)
  }

  lemma FeedOfPadded(reg: Word, s: seq<byte>)
    requires |s| <= 4
    ensures Feed(reg, s) == Steps(Xor(reg, Padded(s)), 8 * |s|)
  {
    FeedIsFeedBits(reg, s);
    assert Padded(s)[..8 * |s|] == MessageBits(s) && Padded(s)[8 * |s|..] == Zeros(32 - 8 * |s|);
    BitsAtOnce(reg, Padded(s), 8 * |s|);
  }

  lemma FeedsDifferBy(reg: Word, s: seq<byte>, t: seq<byte>)
    requires |s| == |t| <= 4
    ensures Xor(Feed(reg, s), Feed(reg, t)) == Steps(Xor(Padded(s), Padded(t)), 8 * |s|)
  {
    var x, y := Xor(reg, Padded(s)), Xor(reg, Padded(t));
    FeedOfPadded(reg, s);
    FeedOfPadded(reg, t);
    StepsAreLinear(x, y, 8 * |s|);
    assert Xor(x, y) == Xor(Padded(s), Padded(t));
  }

  lemma {:induction false} BigEndianTail(v: nat, n: nat, m: nat)
    requires m <= n
    ensures BigEndian(v, n)[n - m..] == BigEndian(v, m)
  {
    if m > 0 {
      BigEndianTail(v / 256, n - 1, m - 1);
      assert BigEndian(v, n)[n - m..] == BigEndian(v / 256, n - 1)[n - m..] + [v % 256];
    }
  }

  lemma LowOctetOf(v: nat, n: nat)
    ensures LowBits(v, n + 8) == LowBits(v % 256, 8) + LowBits(v / 256, n)
    ensures ValueOf(LowBits(v % 256, 8)) == v % 256
  {
    WidthAsPower();
    BitsConcatenate(v % 256, 8, v / 256, n);
    ValueOfBits(v % 256, 8);
  }

  lemma PairsSame<T>(a: seq<T>, b: seq<T>, c: seq<T>, d: seq<T>)
    requires |a| == |c|
    ensures a + b == c + d <==> a == c && b == d
  {
    assert (a + b)[..|a|] == a && (a + b)[|a|..] == b && (c + d)[..|a|] == c && (c + d)[|a|..] == d;
  }

  lemma LowOctetsSame(u: nat, v: nat, n: nat)
    ensures LowBits(u, n + 8) == LowBits(v, n + 8) <==> u % 256 == v % 256 && LowBits(u / 256, n) == LowBits(v / 256, n)
  {
    hide LowBits, ValueOf;
    LowOctetOf(u, n);
    LowOctetOf(v, n);
    PairsSame(LowBits(u % 256, 8), LowBits(u / 256, n), LowBits(v % 256, 8), LowBits(v / 256, n));
  }

  /** The last `m` octets of a number, sent high octet first, are its 8m low bits. */
  lemma {:induction false} LastOctetsAreLowBits(u: nat, v: nat, m: nat)
    ensures BigEndian(u, m) == BigEndian(v, m) <==> LowBits(u, 8 * m) == LowBits(v, 8 * m)
  {
    if m > 0 {
      hide LowBits;
      LowOctetsSame(u, v, 8 * (m - 1));
      LastOctetsAreLowBits(u / 256, v / 256, m - 1);
      PairsSame(BigEndian(u / 256, m - 1), [u % 256], BigEndian(v / 256, m - 1), [v % 256]);
      assert BigEndian(u, m) == BigEndian(u / 256, m - 1) + [u % 256];
      assert BigEndian(v, m) == BigEndian(v / 256, m - 1) + [v % 256];
    }
  }

  lemma CheckTail(s: seq<byte>, m: nat)
    requires m <= 4
    ensures BigEndian(Crc(s), 4)[4 - m..] == BigEndian(Crc(s), m)
    ensures LowBits(Crc(s), 8 * m) == CrcWord(s)[..8 * m]
  {
    BigEndianTail(Crc(s), 4, m);
    assert LowBits(Crc(s), 8 * m) == LowBits(Crc(s), 32)[..8 * m];
  }

  /** The two octets differ by 0x61 and 0xD8. */
  ghost predicate UnseenChange(s: seq<byte>, t: seq<byte>) {
    |s| == |t| == 2 && Xor(Padded(s), Padded(t)) == UnseenDamage()
  }

  lemma TailsOfChecks(s: seq<byte>, t: seq<byte>, m: nat)
    requires m <= 4
    ensures BigEndian(Crc(s), 4)[4 - m..] == BigEndian(Crc(t), 4)[4 - m..]
      <==> CrcWord(s)[..8 * m] == CrcWord(t)[..8 * m]
  {
    hide LowBits, Crc, CrcWord, BigEndian;
    CheckTail(s, m);
    CheckTail(t, m);
    LastOctetsAreLowBits(Crc(s), Crc(t), m);
  }

  lemma ChecksAgreeAs(head: seq<byte>, a: seq<byte>, b: seq<byte>, m: nat)
    requires |a| == |b| == m <= 4
    ensures CrcWord(head + a)[..8 * m] == CrcWord(head + b)[..8 * m]
      <==> Steps(Xor(Padded(a), Padded(b)), 8 * m)[..8 * m] == Zeros(8 * m)
  {
    var start := Complement(Zeros(32));
    var u, v := Feed(start, head + a), Feed(start, head + b);
    hide Feed, Steps, Padded;
    FeedAppend(start, head, a);
    FeedAppend(start, head, b);
    FeedsDifferBy(Feed(start, head), a, b);
    LowBitsAgree(u, v, 8 * m);
  }

  /**
   * Two messages that differ in their last `m` octets have checks that agree in their last `m`
   * octets only if the difference is that one pattern of two octets.
   */
  lemma ChecksAgreeIff(s: seq<byte>, t: seq<byte>, m: nat)
    requires 1 <= m <= 3 && m <= |s| == |t| && s[..|s| - m] == t[..|s| - m]
    ensures BigEndian(Crc(s), 4)[4 - m..] == BigEndian(Crc(t), 4)[4 - m..]
      <==> s == t || (m == 2 && UnseenChange(s[|s| - m..], t[|s| - m..]))
  {
    var head, a, b := s[..|s| - m], s[|s| - m..], t[|s| - m..];
    assert s == head + a && t == head + b;
    assert Xor(Padded(a), Padded(b))[8 * m..] == Zeros(32 - 8 * m);
    TailsOfChecks(s, t, m);
    ChecksAgreeAs(head, a, b, m);
    hide Padded, Steps, Xor, Crc, CrcWord, BigEndian, UnseenDamage;
    UnseenExactly(Xor(Padded(a), Padded(b)), m);
    PaddedApart(a, b);
  }

  lemma LowBitsAgree(u: Word, v: Word, n: nat)
    requires n <= 32
    ensures Complement(u)[..n] == Complement(v)[..n] <==> Xor(u, v)[..n] == Zeros(n)
  {
    if Complement(u)[..n] == Complement(v)[..n] {
      forall i | 0 <= i < n
        ensures u[i] == v[i]
      {
        assert Complement(u)[..n][i] == Complement(v)[..n][i];
      }
    }
    if Xor(u, v)[..n] == Zeros(n) {
      forall i | 0 <= i < n
        ensures u[i] == v[i]
      {
        assert !Xor(u, v)[..n][i];
      }
    }
  }

  lemma PaddedApart(a: seq<byte>, b: seq<byte>)
    requires |a| == |b| <= 4
    ensures Xor(Padded(a), Padded(b)) == Zeros(32) <==> a == b
  {
    var x, y := Padded(a), Padded(b);
    if Xor(x, y) == Zeros(32) {
      forall i | 0 <= i < 32
        ensures x[i] == y[i]
      {
        assert !Xor(x, y)[i];
      }
      assert MessageBits(a) == x[..8 * |a|] && MessageBits(b) == y[..8 * |a|];
      MessageBitsAreInjective(a, b);
    }
  }

  // ---------------------------------------------------------------------------
  // Frames.

  lemma WindowAcross(s: seq<byte>, x: seq<byte>, t: seq<byte>, y: seq<byte>, m: nat)
    requires |s| == |t| && |x| == |y| == 4 && m <= 4 && m <= |s|
    requires DifferOnlyIn(s + x, t + y, |s| - m, |s| - m + 4)
    ensures s[..|s| - m] == t[..|s| - m] && x[4 - m..] == y[4 - m..]
  {
    var at := |s| - m;
    assert s[..at] == (s + x)[..at] && t[..at] == (t + y)[..at];
    assert x[4 - m..] == (s + x)[at + 4..] && y[4 - m..] == (t + y)[at + 4..];
  }

  /** Messages with their checks that differ in such a window only. */
  lemma WindowUnseen(s: seq<byte>, t: seq<byte>, m: nat)
    requires 1 <= m <= 3 && |s| == |t| >= 3
    requires DifferOnlyIn(s + BigEndian(Crc(s), 4), t + BigEndian(Crc(t), 4), |s| - m, |s| - m + 4)
    ensures s == t || (m == 2 && UnseenChange(s[|s| - 2..], t[|s| - 2..]))
  {
    hide Crc, BigEndian, UnseenChange;
    WindowAcross(s, BigEndian(Crc(s), 4), t, BigEndian(Crc(t), 4), m);
    ChecksAgreeIff(s, t, m);
  }

  lemma AcceptedIsChecked(data: seq<byte>)
    requires Parse(data).Success?
    ensures |data| >= CHECKSUM_BYTES
    ensures var body := data[..|data| - CHECKSUM_BYTES]; data == body + BigEndian(Crc(body), 4)
  {
    hide Crc, Parse, BigEndian;
    CheckReads(data);
  }

  lemma SerializedAs(f: Frame)
    ensures Serialize(f) == Body(f) + BigEndian(Crc(Body(f)), 4) && |Body(f)| >= FRAME_HEADER_BYTES
  {
    hide Crc, BigEndian;
  }

  lemma SameLength(s: seq<byte>, t: seq<byte>, from: nat, to: nat)
    requires from <= to && DifferOnlyIn(s, t, from, to)
    ensures |s| == |t|
  {
  }

  /**
   * A written frame damaged inside four consecutive octets, the last `m` of its body and the
   * first of its check, is not read as any frame, but for the one pattern of two octets.
   */
  lemma StraddleIsRefused(f: Frame, data: seq<byte>, m: nat)
    requires Encodable(f) && data != Serialize(f) && 1 <= m <= 3
    requires DifferOnlyIn(data, Serialize(f), |Body(f)| - m, |Body(f)| - m + 4)
    ensures Parse(data).Success? ==>
      m == 2 && UnseenChange(data[..|Body(f)|][|Body(f)| - 2..], Body(f)[|Body(f)| - 2..])
  {
    SerializedAs(f);
    hide Crc, Body, Serialize, UnseenChange, Parse, Encodable, BigEndian, DifferOnlyIn;
    if Parse(data).Success? {
      SameLength(data, Serialize(f), |Body(f)| - m, |Body(f)| - m + 4);
      AcceptedIsChecked(data);
      WindowUnseen(data[..|Body(f)|], Body(f), m);
    }
  }

  /** The octet with those bits flipped. */
  function Flipped(b: byte, mask: seq<bool>): (r: byte)
    requires |mask| == 8
    ensures LowBits(r, 8) == AddToFront(LowBits(b, 8), mask)
  {
    var bits := AddToFront(LowBits(b, 8), mask);
    ValueBound(bits);
    WidthAsPower();
    BitsOfValue(bits);
    ValueOf(bits)
  }

  /** Two octets with the damage that is not seen. */
  function Damaged(s: seq<byte>): (r: seq<byte>)
    requires |s| == 2
    ensures |r| == 2
  {
    [Flipped(s[0], UnseenDamage()[..8]), Flipped(s[1], UnseenDamage()[8..16])]
  }

  lemma BitsOfTwo(s: seq<byte>)
    requires |s| == 2
    ensures MessageBits(s) == LowBits(s[0], 8) + LowBits(s[1], 8)
  {
    assert s[1..] == [s[1]] && s[1..][1..] == [];
    assert MessageBits(s[1..]) == LowBits(s[1], 8) + [];
  }

  lemma DamagedIsUnseen(s: seq<byte>)
    requires |s| == 2
    ensures UnseenChange(s, Damaged(s)) && Damaged(s) != s
  {
    var t, x := Damaged(s), UnseenDamage();
    hide LowBits, UnseenDamage, MessageBits;
    BitsOfTwo(s);
    BitsOfTwo(t);
    forall i | 0 <= i < 32
      ensures Xor(Padded(s), Padded(t))[i] == x[i]
    {
      DamageIsLow(i);
    }
    PaddedApart(s, t);
    DamageIsSome();
  }

  lemma DamageIsLow(i: nat)
    requires i < 32
    ensures i >= 16 ==> !UnseenDamage()[i]
  {
  }

  lemma DamageIsSome()
    ensures UnseenDamage() != Zeros(32)
  {
    assert UnseenDamage()[0];
  }

  /** The frame with the last two octets of its last block damaged so. */
  function Struck(f: Frame): Frame
    requires f.blocks != [] && |f.blocks[|f.blocks| - 1].data| >= 2
  {
    var n := |f.blocks| - 1;
    var b := f.blocks[n];
    f.(blocks := f.blocks[..n] + [b.(data := b.data[..|b.data| - 2] + Damaged(b.data[|b.data| - 2..]))])
  }

  lemma StruckBody(f: Frame)
    requires f.blocks != [] && |f.blocks[|f.blocks| - 1].data| >= 2
    ensures |Body(Struck(f))| == |Body(f)| >= 2
    ensures Body(Struck(f)) == Body(f)[..|Body(f)| - 2] + Damaged(Body(f)[|Body(f)| - 2..])
  {
    var n := |f.blocks| - 1;
    hide Damaged, BlocksBytes, BlockBytes, Header, BlockHeader;
    assert f.blocks == f.blocks[..n + 1] && Struck(f).blocks == Struck(f).blocks[..n + 1];
    assert Struck(f).blocks[..n] == f.blocks[..n];
    BlocksBytesSnoc(f.blocks, n);
    BlocksBytesSnoc(Struck(f).blocks, n);
    StruckHeader(f);
    var front := Header(f) + BlocksBytes(f.blocks[..n]);
    StruckBlock(f.blocks[n], front);
    assert Body(f) == front + BlockBytes(f.blocks[n]);
    assert Body(Struck(f)) == front + BlockBytes(Struck(f).blocks[n]);
  }

  lemma StruckHeader(f: Frame)
    requires f.blocks != [] && |f.blocks[|f.blocks| - 1].data| >= 2
    ensures Header(Struck(f)) == Header(f)
  {
  }

  lemma StruckBlock(b: Block, front: seq<byte>)
    requires |b.data| >= 2
    ensures var c := b.(data := b.data[..|b.data| - 2] + Damaged(b.data[|b.data| - 2..]));
      var s, t := front + BlockBytes(b), front + BlockBytes(c);
      |t| == |s| >= 2 && t == s[..|s| - 2] + Damaged(s[|s| - 2..])
  {
    hide Damaged;
    var k := |b.data| - 2;
    assert b.data == b.data[..k] + b.data[k..];
    var head := front + BlockHeader(b) + b.data[..k];
    var c := b.(data := b.data[..k] + Damaged(b.data[k..]));
    assert BlockHeader(c) == BlockHeader(b);
    assert front + BlockBytes(b) == head + b.data[k..];
    assert front + BlockBytes(c) == head + Damaged(b.data[k..]);
    assert (head + b.data[k..])[..|head|] == head && (head + b.data[k..])[|head|..] == b.data[k..];
  }

  /** And that pattern is read: as another frame, whose audio was never sent. */
  lemma StraddleIsRead(f: Frame)
    requires Encodable(f) && |f.blocks[|f.blocks| - 1].data| >= 2
    ensures Struck(f) != f && Encodable(Struck(f)) && Parse(Serialize(Struck(f))) == Success(Struck(f))
    ensures DifferOnlyIn(Serialize(Struck(f)), Serialize(f), |Body(f)| - 2, |Body(f)| + 2)
  {
    hide Struck, Damaged, Crc, Body, Serialize, Parse, Encodable, BigEndian, UnseenChange, DifferOnlyIn;
    EncodableHasBlocks(f);
    var g := Struck(f);
    StruckBody(f);
    StruckIsEncodable(f);
    WrittenFrameParses(g);
    StruckChecks(Body(f));
    SerializedAs(f);
    SerializedAs(g);
  }

  /** The checks before and after agree where the window ends. */
  lemma StruckChecks(t: seq<byte>)
    requires |t| >= 2
    ensures var s := t[..|t| - 2] + Damaged(t[|t| - 2..]);
      s != t && DifferOnlyIn(s + BigEndian(Crc(s), 4), t + BigEndian(Crc(t), 4), |t| - 2, |t| + 2)
  {
    hide Damaged, Crc, BigEndian, UnseenChange, DifferOnlyIn;
    var s := t[..|t| - 2] + Damaged(t[|t| - 2..]);
    DamagedIsUnseen(t[|t| - 2..]);
    ReplacedTail(t, Damaged(t[|t| - 2..]));
    ChecksAgreeIff(t, s, 2);
    WindowJoined(s, BigEndian(Crc(s), 4), t, BigEndian(Crc(t), 4));
  }

  lemma ReplacedTail(s: seq<byte>, tail: seq<byte>)
    requires |tail| == 2 <= |s|
    ensures (s[..|s| - 2] + tail)[..|s| - 2] == s[..|s| - 2] && (s[..|s| - 2] + tail)[|s| - 2..] == tail
  {
  }

  lemma WindowJoined(s: seq<byte>, x: seq<byte>, t: seq<byte>, y: seq<byte>)
    requires |s| == |t| >= 2 && |x| == |y| == 4
    requires s[..|s| - 2] == t[..|s| - 2] && x[2..] == y[2..]
    ensures DifferOnlyIn(s + x, t + y, |s| - 2, |s| + 2)
  {
    var end := |s|;
    assert (s + x)[end + 2..] == x[2..] && (t + y)[end + 2..] == y[2..];
    assert (s + x)[..end - 2] == s[..end - 2] && (t + y)[..end - 2] == t[..end - 2];
  }

  lemma EncodableHasBlocks(f: Frame)
    requires Encodable(f)
    ensures f.blocks != []
  {
  }

  lemma StruckIsEncodable(f: Frame)
    requires Encodable(f) && |f.blocks[|f.blocks| - 1].data| >= 2
    ensures Encodable(Struck(f))
  {
    var n, g := |f.blocks| - 1, Struck(f);
    hide Damaged;
    forall i | 0 <= i <= n
      ensures BlockEncodable(g.blocks[i]) && g.blocks[i].index == f.blocks[i].index
    {
      assert BlockEncodable(f.blocks[i]);
      assert |g.blocks[i].data| == |f.blocks[i].data|;
    }
  }
}
