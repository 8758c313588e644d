/**
  Workspace inode numbers: the salted backing number, spread over 64 bits.  Machine
  words are numbers below 2^64; shifting and xor work on their binary digits.
 */
module InodeMixer {

  const WORD := 0x1_0000_0000_0000_0000

  type Word = x: int | 0 <= x < WORD

  // ----- binary digits, least significant first -----

  function Pow2(n: nat): (p: nat)
    ensures p > 0
  {
    if n == 0 then 1 else 2 * Pow2(n - 1)
  }

  function Bits(v: nat, n: nat): (b: seq<bool>)
    ensures |b| == n
  {
    if n == 0 then [] else [v % 2 == 1] + Bits(v / 2, n - 1)
  }

  function Value(b: seq<bool>): nat {
    if b == [] then 0 else (if b[0] then 1 else 0) + 2 * Value(b[1..])
  }

  lemma {:induction false} ValueOfBits(v: nat, n: nat)
    requires v < Pow2(n)
    ensures Value(Bits(v, n)) == v
    decreases n
  {
    if n > 0 {
      ValueOfBits(v / 2, n - 1);
      assert Bits(v, n)[1..] == Bits(v / 2, n - 1);
    }
  }

  lemma {:induction false} BitsOfValue(b: seq<bool>)
    ensures Value(b) < Pow2(|b|) && Bits(Value(b), |b|) == b
    decreases |b|
  {
    if b != [] {
      BitsOfValue(b[1..]);
      assert Value(b) / 2 == Value(b[1..]);
    }
  }

  lemma WordPow()
    ensures Pow2(64) == WORD
  {
    assert Pow2(8) == 0x100;
    assert Pow2(16) == 0x1_0000;
    assert Pow2(24) == 0x100_0000;
    assert Pow2(32) == 0x1_0000_0000;
    assert Pow2(40) == 0x100_0000_0000;
    assert Pow2(48) == 0x1_0000_0000_0000;
    assert Pow2(56) == 0x100_0000_0000_0000;
  }

  // ----- xor with the word shifted right -----

  predicate BitAt(b: seq<bool>, i: nat) { i < |b| && b[i] }

  function XorShifted(b: seq<bool>, k: nat): (r: seq<bool>)
    ensures |r| == |b| && forall i | 0 <= i < |b| :: r[i] == (b[i] != BitAt(b, i + k))
  {
    seq(|b|, i requires 0 <= i < |b| => b[i] != BitAt(b, i + k))
  }

  // w ^ w >> k ^ w >> 2k
  function Unshifted(b: seq<bool>, k: nat): (r: seq<bool>)
    ensures |r| == |b| && forall i | 0 <= i < |b| :: r[i] == ((b[i] != BitAt(b, i + k)) != BitAt(b, i + 2 * k))
  {
    seq(|b|, i requires 0 <= i < |b| => (b[i] != BitAt(b, i + k)) != BitAt(b, i + 2 * k))
  }

  lemma ShiftUndone(b: seq<bool>, k: nat)
    requires 3 * k >= |b|
    ensures Unshifted(XorShifted(b, k), k) == b && XorShifted(Unshifted(b, k), k) == b
  {
    forall i | 0 <= i < |b| ensures Unshifted(XorShifted(b, k), k)[i] == b[i]
      && XorShifted(Unshifted(b, k), k)[i] == b[i] {
      var x, u := XorShifted(b, k), Unshifted(b, k);
      assert !BitAt(b, i + k + k + k);
      assert BitAt(x, i + k) == (BitAt(b, i + k) != BitAt(b, i + k + k));
      assert BitAt(x, i + 2 * k) == (BitAt(b, i + 2 * k) != BitAt(b, i + 2 * k + k));
      assert BitAt(u, i + k) == ((BitAt(b, i + k) != BitAt(b, i + k + k)) != BitAt(b, i + k + 2 * k));
    }
  }

  // value ^= value >> k
  function XorShift(v: Word, k: nat): Word {
    var r := XorShifted(Bits(v, 64), k);
    BitsOfValue(r);
    WordPow();
    Value(r)
  }

  function UnXorShift(v: Word, k: nat): Word {
    var r := Unshifted(Bits(v, 64), k);
    BitsOfValue(r);
    WordPow();
    Value(r)
  }

  lemma XorShiftUndone(v: Word, k: nat)
    requires k >= 22
    ensures UnXorShift(XorShift(v, k), k) == v && XorShift(UnXorShift(v, k), k) == v
  {
    WordPow();
    ValueOfBits(v, 64);
    BitsOfValue(XorShifted(Bits(v, 64), k));
    BitsOfValue(Unshifted(Bits(v, 64), k));
    ShiftUndone(Bits(v, 64), k);
  }

  // ----- multiplication modulo 2^64 -----

  function Times(v: Word, c: Word): Word { v * c % WORD }

  lemma WholeWords(v: Word, k: int)
    ensures (v + k * WORD) % WORD == v
  {
  }

  lemma Regroup(v: int, c: int, inverse: int, q: int, p: int, word: int)
    requires c * inverse == p * word + 1
    ensures (v * c - q * word) * inverse == v + (v * p - q * inverse) * word
  {
    assert v * (c * inverse) == v * (p * word + 1);
    assert v * c * inverse == v * (c * inverse);
    assert v * (p * word + 1) == v * p * word + v;
    assert (v * c - q * word) * inverse == v * c * inverse - q * word * inverse;
    assert q * word * inverse == q * inverse * word;
  }

  lemma ProductUndone(v: Word, c: Word, inverse: Word)
    requires c * inverse % WORD == 1
    ensures Times(Times(v, c), inverse) == v
  {
    var q, p := v * c / WORD, c * inverse / WORD;
    assert Times(v, c) == v * c - q * WORD;
    Regroup(v, c, inverse, q, p, WORD);
    WholeWords(v, v * p - q * inverse);
  }

  const FIRST: Word := 0xbf58476d1ce4e5b9
  const FIRST_INVERSE: Word := 0x96de1b173f119089
  const SECOND: Word := 0x94d049bb133111eb
  const SECOND_INVERSE: Word := 0x319642b2d24d8ec3

  lemma Inverses()
    ensures FIRST * FIRST_INVERSE % WORD == 1 && SECOND * SECOND_INVERSE % WORD == 1
  {
  }

  // ----- the mixer -----

  // The 64-bit mixer, before the reserved zero is replaced.
  function Mixed(v: Word): Word {
    XorShift(Times(XorShift(Times(XorShift(v, 30), FIRST), 27), SECOND), 31)
  }

  function Unmixed(m: Word): Word {
    UnXorShift(Times(UnXorShift(Times(UnXorShift(m, 31), SECOND_INVERSE), 27), FIRST_INVERSE), 30)
  }

  /** The mixer is a bijection of the 64-bit words. */
  lemma MixerIsBijection(v: Word)
    ensures Unmixed(Mixed(v)) == v && Mixed(Unmixed(v)) == v
  {
    hide XorShift, UnXorShift, Times;
    Inverses();
    var a := XorShift(v, 30);
    var b := Times(a, FIRST);
    var c := XorShift(b, 27);
    var d := Times(c, SECOND);
    XorShiftUndone(v, 30);
    ProductUndone(a, FIRST, FIRST_INVERSE);
    XorShiftUndone(b, 27);
    ProductUndone(c, SECOND, SECOND_INVERSE);
    XorShiftUndone(d, 31);
    var d' := UnXorShift(v, 31);
    var c' := Times(d', SECOND_INVERSE);
    var b' := UnXorShift(c', 27);
    var a' := Times(b', FIRST_INVERSE);
    XorShiftUndone(v, 31);
    ProductUndone(d', SECOND_INVERSE, SECOND);
    XorShiftUndone(c', 27);
    ProductUndone(b', FIRST_INVERSE, FIRST);
    XorShiftUndone(a', 30);
  }

  // What a backing number becomes in a Workspace with this salt.
  function Salted(salt: Word, backing: Word): Word {
    var mixed := Mixed((backing + salt) % WORD);
    if mixed == 0 then 1 else mixed
  }

  method SaltedWorkspaceInode(salt: Word, backing: Word) returns (value: Word)
    ensures value == Salted(salt, backing)
  {
    value := (backing + salt) % WORD;
    value := XorShift(value, 30);
    value := Times(value, FIRST);
    value := XorShift(value, 27);
    value := Times(value, SECOND);
    value := XorShift(value, 31);
    if value == 0 { value := 1; }
  }

  /**
    No Workspace inode is zero, and two different backing inodes collide exactly when one mixes to
    zero and the other to one.
   */
  lemma CollideOnlyAtOne(salt: Word, a: Word, b: Word)
    requires a != b
    ensures Salted(salt, a) != 0
    ensures var x, y := Mixed((a + salt) % WORD), Mixed((b + salt) % WORD);
            && (Salted(salt, a) == Salted(salt, b) <==> {x, y} == {0, 1})
            && (Salted(salt, a) == Salted(salt, b) ==> Salted(salt, a) == 1)
  {
    hide Mixed, Unmixed;
    MixerIsBijection((a + salt) % WORD);
    MixerIsBijection((b + salt) % WORD);
    var x, y := Mixed((a + salt) % WORD), Mixed((b + salt) % WORD);
    assert x != y;
    assert x in {x, y} && y in {x, y} && {x, y} == {0, 1} ==> x in {0, 1} && y in {0, 1};
  }

  // ----- a known value -----

  // The digits shifted right.
  function Shifted(b: seq<bool>, k: nat): (r: seq<bool>)
    ensures |r| == |b| && forall i | 0 <= i < |b| :: r[i] == BitAt(b, i + k)
  {
    seq(|b|, i requires 0 <= i < |b| => BitAt(b, i + k))
  }

  lemma {:induction false} ShiftedHalves(b: seq<bool>, k: nat)
    ensures Value(Shifted(b, k)) == Value(b) / Pow2(k)
    decreases k
  {
    if k == 0 {
      assert Shifted(b, 0) == b;
    } else {
      ShiftedHalves(Shifted(b, 1), k - 1);
      assert Shifted(Shifted(b, 1), k - 1) == Shifted(b, k);
      ShiftedOnce(b);
      HalfFirst(Value(b), Pow2(k - 1));
    }
  }

  lemma ShiftedOnce(b: seq<bool>)
    ensures Value(Shifted(b, 1)) == Value(b) / 2
  {
    if b != [] {
      assert Shifted(b, 1) == b[1..] + [false];
      TrailingZero(b[1..]);
      assert Value(b) == (if b[0] then 1 else 0) + 2 * Value(b[1..]);
    }
  }

  lemma {:induction false} TrailingZero(b: seq<bool>)
    ensures Value(b + [false]) == Value(b)
    decreases |b|
  {
    if b != [] {
      assert (b + [false])[1..] == b[1..] + [false];
      TrailingZero(b[1..]);
    }
  }

  lemma HalfFirst(v: nat, p: nat)
    requires p > 0
    ensures v / 2 / p == v / (2 * p)
  {
    var h := v / 2;
    var q, r := h / p, h % p;
    assert h == p * q + r;
    assert v == 2 * p * q + (2 * r + v % 2) && 0 <= 2 * r + v % 2 < 2 * p;
    QuotientIs(v, 2 * p, q);
  }

  lemma QuotientIs(v: nat, p: nat, q: nat)
    requires p > 0 && 0 <= v - p * q < p
    ensures v / p == q
  {
    var d := v / p;
    assert v == p * d + v % p;
    if d > q { Grows(p, q + 1, d); } else if d < q { Grows(p, d + 1, q); }
  }

  lemma Grows(p: nat, x: nat, y: nat)
    requires x <= y
    ensures p * x <= p * y
  {
  }

  // Digits that do not meet add up.
  lemma {:induction false} DisjointSum(x: seq<bool>, y: seq<bool>, z: seq<bool>)
    requires |x| == |y| == |z| && forall i | 0 <= i < |z| :: z[i] == (x[i] != y[i]) && !(x[i] && y[i])
    ensures Value(z) == Value(x) + Value(y)
    decreases |z|
  {
    if z != [] { DisjointSum(x[1..], y[1..], z[1..]); }
  }

  // Words of which only digits from m on are set.
  lemma {:induction false} LowDigitsClear(v: nat, n: nat, m: nat, i: nat)
    requires v % Pow2(m) == 0 && i < m && i < n
    ensures !Bits(v, n)[i]
    decreases m
  {
    var q := v / Pow2(m);
    assert v == Pow2(m) * q;
    assert Pow2(m) * q == 2 * (Pow2(m - 1) * q);
    if i > 0 {
      assert v / 2 == Pow2(m - 1) * q;
      ProductDivides(Pow2(m - 1), q);
      LowDigitsClear(v / 2, n - 1, m - 1, i - 1);
    }
  }

  lemma ProductDivides(p: nat, q: nat)
    requires p > 0
    ensures p * q % p == 0 && p * q / p == q
  {
    QuotientIs(p * q, p, q);
  }

  // If the shifted word does not meet the word, the two add up.
  lemma SparseShift(v: Word, k: nat, m: nat)
    requires v % Pow2(m) == 0 && m + k >= 64 && m <= 64
    ensures XorShift(v, k) == v + v / Pow2(k)
  {
    var b := Bits(v, 64);
    forall i | 0 <= i < m ensures !b[i] { LowDigitsClear(v, 64, m, i); }
    WordPow();
    ValueOfBits(v, 64);
    ShiftedHalves(b, k);
    DisjointSum(b, Shifted(b, k), XorShifted(b, k));
  }

  lemma SparseUnshift(v: Word, k: nat, m: nat)
    requires v % Pow2(m) == 0 && m + k >= 64 && m <= 64
    ensures UnXorShift(v, k) == v + v / Pow2(k) + v / Pow2(2 * k)
  {
    var b := Bits(v, 64);
    forall i | 0 <= i < m ensures !b[i] { LowDigitsClear(v, 64, m, i); }
    WordPow();
    ValueOfBits(v, 64);
    ShiftedHalves(b, k);
    ShiftedHalves(b, 2 * k);
    DisjointSum(b, Shifted(b, k), XorShifted(b, k));
    DisjointSum(XorShifted(b, k), Shifted(b, 2 * k), Unshifted(b, k));
  }

  lemma Powers()
    ensures Pow2(27) == 0x800_0000 && Pow2(30) == 0x4000_0000 && Pow2(31) == 0x8000_0000 && Pow2(36) == 0x10_0000_0000
    ensures Pow2(60) == 0x1000_0000_0000_0000 && Pow2(63) == 0x8000_0000_0000_0000
  {
    assert Pow2(8) == 0x100;
    assert Pow2(16) == 0x1_0000;
    assert Pow2(24) == 0x100_0000;
    assert Pow2(32) == 0x1_0000_0000;
    assert Pow2(40) == 0x100_0000_0000;
    assert Pow2(48) == 0x1_0000_0000_0000;
    assert Pow2(56) == 0x100_0000_0000_0000;
  }

  /** One value of the mixer, worked out digit by digit. */
  lemma KnownValue()
    ensures Mixed(0x8000_0002_0000_0008) == 0xb311_1eb1_6622_3d60
  {
    hide XorShift, UnXorShift;
    Powers();
    hide Pow2;
    var top: Word := 0x8000_0000_0000_0000;
    SparseUnshift(top, 30, 63);
    XorShiftUndone(top, 30);
    assert Times(top, FIRST) == top;
    SparseShift(top, 27, 63);
    assert Times(0x8000_0010_0000_0000, SECOND) == 0xb311_1eb0_0000_0000;
    SparseShift(0xb311_1eb0_0000_0000, 31, 36);
  }
}
