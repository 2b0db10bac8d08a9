/** Powers of two and the bits of unbounded integers in infinite two's complement,
    which is how Go's math/big and C's unsigned words read `&`, `|`, `~`, `<<` and `>>`. */
module Bits {

  // ---------------- Powers of two

  function Pow2(n: nat): (r: nat)
    ensures 1 <= r
  {
    if n == 0 then 1 else 2 * Pow2(n - 1)
  }

  lemma {:induction false} Pow2Add(m: nat, n: nat)
    ensures Pow2(m + n) == Pow2(m) * Pow2(n)
  {
    if m == 0 {
    } else {
      Pow2Add(m - 1, n);
      assert Pow2(m + n) == 2 * Pow2(m - 1 + n);
    }
  }

  lemma {:induction false} Pow2Mono(m: nat, n: nat)
    requires m <= n
    ensures Pow2(m) <= Pow2(n)
  {
    if m < n {
      Pow2Mono(m, n - 1);
    }
  }

  lemma {:induction false} Pow2Above(n: nat)
    ensures n < Pow2(n)
  {
    if n > 0 {
      Pow2Above(n - 1);
    }
  }

  lemma Pow2Values()
    ensures Pow2(0) == 1 && Pow2(1) == 2 && Pow2(2) == 4 && Pow2(3) == 8 && Pow2(4) == 16
    ensures Pow2(5) == 32 && Pow2(6) == 64 && Pow2(7) == 128 && Pow2(8) == 256 && Pow2(9) == 512
  {
    Pow2Step(0); Pow2Step(1); Pow2Step(2); Pow2Step(3); Pow2Step(4); Pow2Step(5); Pow2Step(6); Pow2Step(7); Pow2Step(8);
  }

  lemma Pow2Large()
    ensures Pow2(15) == 32768 && Pow2(16) == 65536 && Pow2(28) == 0x1000_0000 && Pow2(32) == 0x1_0000_0000
  {
    Pow2Values();
    Pow2Add(7, 8); Pow2Add(8, 8); Pow2Add(4, 8); Pow2Add(12, 16); Pow2Add(16, 16);
  }

  lemma Pow2Step(n: nat)
    ensures Pow2(n + 1) == 2 * Pow2(n)
  {
  }

  // ---------------- Division facts

  lemma MulAtLeast(k: int, d: int)
    requires 1 <= k && 0 <= d
    ensures d <= k * d
  {
  }

  lemma MulSub(a: int, b: int, d: int)
    ensures (a - b) * d == a * d - b * d
  {
  }

  /** Quotient and remainder are determined by any decomposition x == q*d + r with 0 <= r < d. */
  lemma DivModUnique(x: int, d: int, q: int, r: int)
    requires 0 <= r < d
    requires x == q * d + r
    ensures x / d == q && x % d == r
  {
    var q', r' := x / d, x % d;
    assert x == q' * d + r' && 0 <= r' < d;
    QuotientUnique(d, q, r, q', r');
  }

  lemma QuotientUnique(d: int, q: int, r: int, q': int, r': int)
    requires 0 <= r < d && 0 <= r' < d
    requires q * d + r == q' * d + r'
    ensures q == q' && r == r'
  {
    MulSub(q, q', d);
    MulSub(q', q, d);
    if q > q' {
      MulAtLeast(q - q', d);
    } else if q < q' {
      MulAtLeast(q' - q, d);
    }
  }

  /** Reducing a summand first does not change the remainder of a sum. */
  lemma ModAdd(a: int, b: int, m: int)
    requires 0 < m
    ensures (a % m + b) % m == (a + b) % m
  {
    var q, r := (a % m + b) / m, (a % m + b) % m;
    var p := a / m;
    assert a == p * m + a % m;
    assert (p + q) * m == p * m + q * m;
    DivModUnique(a + b, m, p + q, r);
  }

  lemma DivModPow2Succ(x: int, k: nat)
    ensures x / Pow2(k + 1) == (x / 2) / Pow2(k)
    ensures x % Pow2(k + 1) == 2 * ((x / 2) % Pow2(k)) + x % 2
  {
    var q, r := (x / 2) / Pow2(k), (x / 2) % Pow2(k);
    assert x / 2 == q * Pow2(k) + r;
    assert q * Pow2(k + 1) == 2 * (q * Pow2(k));
    DivModUnique(x, Pow2(k + 1), q, 2 * r + x % 2);
  }

  /** Shifting right by m and then by n is shifting right by m + n. */
  lemma {:induction false} DivDivPow2(x: int, m: nat, n: nat)
    ensures (x / Pow2(m)) / Pow2(n) == x / Pow2(m + n)
    decreases m
  {
    if m == 0 {
      assert x / 1 == x;
    } else {
      DivModPow2Succ(x, m - 1);
      DivModPow2Succ(x, m - 1 + n);
      DivDivPow2(x / 2, m - 1, n);
    }
  }

  // ---------------- Shifts and low bits, by recursion so that reasoning about them stays linear

  function Shl(x: nat, k: nat): nat
  {
    if k == 0 then x else 2 * Shl(x, k - 1)
  }

  function Shr(x: nat, k: nat): nat
    decreases k
  {
    if k == 0 then x else Shr(x / 2, k - 1)
  }

  /** The low k bits of x. */
  function Low(x: nat, k: nat): nat
    decreases k
  {
    if k == 0 then 0 else 2 * Low(x / 2, k - 1) + x % 2
  }

  lemma {:induction false} ShlIsMul(x: nat, k: nat)
    ensures Shl(x, k) == x * Pow2(k)
  {
    if k > 0 {
      ShlIsMul(x, k - 1);
    }
  }

  lemma {:induction false} ShrIsDiv(x: nat, k: nat)
    ensures Shr(x, k) == x / Pow2(k)
    decreases k
  {
    if k > 0 {
      ShrIsDiv(x / 2, k - 1);
      DivModPow2Succ(x, k - 1);
    }
  }

  lemma {:induction false} LowIsMod(x: nat, k: nat)
    ensures Low(x, k) == x % Pow2(k)
    decreases k
  {
    if k > 0 {
      LowIsMod(x / 2, k - 1);
      DivModPow2Succ(x, k - 1);
    }
  }

  lemma {:induction false} ShlAdd(x: nat, y: nat, k: nat)
    ensures Shl(x + y, k) == Shl(x, k) + Shl(y, k)
  {
    if k > 0 {
      ShlAdd(x, y, k - 1);
    }
  }

  lemma {:induction false} ShlMono(x: nat, y: nat, k: nat)
    requires x <= y
    ensures Shl(x, k) <= Shl(y, k)
    ensures x < y ==> Shl(x, k) + Pow2(k) <= Shl(y, k)
  {
    if k > 0 {
      ShlMono(x, y, k - 1);
    }
  }

  lemma {:induction false} ShlOne(k: nat)
    ensures Shl(1, k) == Pow2(k)
  {
    if k > 0 {
      ShlOne(k - 1);
    }
  }

  lemma {:induction false} ShlShl(x: nat, j: nat, k: nat)
    ensures Shl(Shl(x, j), k) == Shl(x, j + k)
  {
    if k > 0 {
      ShlShl(x, j, k - 1);
    }
  }

  /** Shifting right by k gives c exactly between the multiples c and c + 1 of 2^k. */
  lemma {:induction false} ShrBetween(p: nat, c: nat, k: nat)
    ensures Shr(p, k) == c <==> Shl(c, k) <= p < Shl(c, k) + Pow2(k)
    decreases k
  {
    if k > 0 {
      ShrBetween(p / 2, c, k - 1);
    }
  }

  /** Quotient and remainder put together. */
  lemma {:induction false} ShrLow(x: nat, k: nat)
    ensures x == Shl(Shr(x, k), k) + Low(x, k)
    ensures Low(x, k) < Pow2(k)
    decreases k
  {
    if k > 0 {
      ShrLow(x / 2, k - 1);
    }
  }

  lemma {:induction false} ShrShr(x: nat, j: nat, k: nat)
    ensures Shr(Shr(x, j), k) == Shr(x, j + k)
    decreases j
  {
    if j > 0 {
      ShrShr(x / 2, j - 1, k);
    }
  }

  /** If c has the prefix k, the interval of c, left-aligned, lies within that of k. */
  lemma ShlNested(c: nat, k: nat, a: nat, b: nat)
    requires Shr(c, a) == k
    ensures Shl(k, a + b) <= Shl(c, b)
    ensures Shl(c, b) + Pow2(b) <= Shl(k, a + b) + Pow2(a + b)
  {
    ShrBetween(c, k, a);
    ShlMono(Shl(k, a), c, b);
    ShlAdd(k, 1, a);
    ShlOne(a);
    ShlMono(c, Shl(k + 1, a), b);
    ShlShl(k, a, b);
    ShlShl(k + 1, a, b);
    ShlAdd(k, 1, a + b);
    ShlOne(a + b);
  }

  // ---------------- Bits

  /** Bit i of x. */
  predicate Bit(x: int, i: nat)
    decreases i
  {
    if i == 0 then x % 2 == 1 else Bit(x / 2, i - 1)
  }

  function Abs(x: int): nat { if x < 0 then -x else x }

  predicate SameSign(x: int, y: int) { x < 0 <==> y < 0 }

  /** An integer is determined by its bits. */
  lemma {:induction false} BitsExt(x: int, y: int)
    requires forall i: nat :: Bit(x, i) == Bit(y, i)
    ensures x == y
    decreases Abs(x) + Abs(y)
  {
    assert Bit(x, 0) == Bit(y, 0);
    if (x == 0 || x == -1) && (y == 0 || y == -1) {
    } else {
      forall i: nat
        ensures Bit(x / 2, i) == Bit(y / 2, i)
      {
        assert Bit(x, i + 1) == Bit(y, i + 1);
      }
      BitsExt(x / 2, y / 2);
    }
  }

  lemma {:induction false} BitOfSign(i: nat)
    ensures !Bit(0, i) && Bit(-1, i)
  {
    if i > 0 {
      assert 0 / 2 == 0 && -1 / 2 == -1;
      BitOfSign(i - 1);
    }
  }

  /** Of two integers of the same sign, the smaller has a 0 where they first differ from the left. */
  lemma {:induction false} TopDifference(x: int, y: int) returns (p: nat)
    requires SameSign(x, y) && x < y
    ensures !Bit(x, p) && Bit(y, p)
    ensures forall i: nat | p < i :: Bit(x, i) == Bit(y, i)
    decreases Abs(x) + Abs(y)
  {
    if x / 2 == y / 2 {
      p := 0;
    } else {
      var p' := TopDifference(x / 2, y / 2);
      p := p' + 1;
      forall i: nat | p < i
        ensures Bit(x, i) == Bit(y, i)
      {
        assert Bit(x / 2, i - 1) == Bit(y / 2, i - 1);
      }
    }
  }

  /** ... and conversely a first difference from the left decides the order. */
  lemma {:induction false} FirstDifferenceOrders(x: int, y: int, p: nat)
    requires SameSign(x, y)
    requires !Bit(x, p) && Bit(y, p)
    requires forall i: nat | p < i :: Bit(x, i) == Bit(y, i)
    ensures x < y
  {
    if y < x {
      var q := TopDifference(y, x);
    }
  }

  /** Fewer bits set means a smaller integer, for integers of the same sign. */
  lemma SubsetOrders(x: int, y: int)
    requires SameSign(x, y)
    requires forall i: nat :: Bit(x, i) ==> Bit(y, i)
    ensures x <= y
  {
    if y < x {
      var p := TopDifference(y, x);
    }
  }

  // ---------------- Bitwise operations

  function And(x: int, y: int): int
    decreases Abs(x) + Abs(y)
  {
    if (x == 0 || x == -1) && (y == 0 || y == -1) then
      (if x == -1 && y == -1 then -1 else 0)
    else
      2 * And(x / 2, y / 2) + (if x % 2 == 1 && y % 2 == 1 then 1 else 0)
  }

  function Not(x: int): int { -x - 1 }

  function Or(x: int, y: int): int { Not(And(Not(x), Not(y))) }

  function AndNot(x: int, y: int): int { And(x, Not(y)) }

  function Xor(x: int, y: int): int { AndNot(Or(x, y), And(x, y)) }

  lemma {:induction false} BitAnd(x: int, y: int, i: nat)
    ensures Bit(And(x, y), i) == (Bit(x, i) && Bit(y, i))
    decreases i
  {
    if (x == 0 || x == -1) && (y == 0 || y == -1) {
      BitOfSign(i);
    } else if i > 0 {
      assert And(x, y) / 2 == And(x / 2, y / 2);
      BitAnd(x / 2, y / 2, i - 1);
    }
  }

  lemma {:induction false} BitNot(x: int, i: nat)
    ensures Bit(Not(x), i) == !Bit(x, i)
    decreases i
  {
    if i > 0 {
      assert Not(x) / 2 == Not(x / 2);
      BitNot(x / 2, i - 1);
    }
  }

  lemma BitOr(x: int, y: int, i: nat)
    ensures Bit(Or(x, y), i) == (Bit(x, i) || Bit(y, i))
  {
    BitNot(x, i);
    BitNot(y, i);
    BitAnd(Not(x), Not(y), i);
    BitNot(And(Not(x), Not(y)), i);
  }

  lemma BitAndNot(x: int, y: int, i: nat)
    ensures Bit(AndNot(x, y), i) == (Bit(x, i) && !Bit(y, i))
  {
    BitNot(y, i);
    BitAnd(x, Not(y), i);
  }

  lemma OrCommutes(x: int, y: int)
    ensures Or(x, y) == Or(y, x)
  {
    forall i: nat ensures Bit(Or(x, y), i) == Bit(Or(y, x), i) { BitOr(x, y, i); BitOr(y, x, i); }
    BitsExt(Or(x, y), Or(y, x));
  }

  lemma AndCommutes(x: int, y: int)
    ensures And(x, y) == And(y, x)
  {
    forall i: nat ensures Bit(And(x, y), i) == Bit(And(y, x), i) { BitAnd(x, y, i); BitAnd(y, x, i); }
    BitsExt(And(x, y), And(y, x));
  }

  lemma OrAssociates(x: int, y: int, z: int)
    ensures Or(Or(x, y), z) == Or(x, Or(y, z))
  {
    forall i: nat ensures Bit(Or(Or(x, y), z), i) == Bit(Or(x, Or(y, z)), i) {
      BitOr(x, y, i);
      BitOr(Or(x, y), z, i);
      BitOr(y, z, i);
      BitOr(x, Or(y, z), i);
    }
    BitsExt(Or(Or(x, y), z), Or(x, Or(y, z)));
  }

  /** The sign of a conjunction: negative only when both operands are. */
  lemma {:induction false} AndSign(x: int, y: int)
    ensures And(x, y) < 0 <==> x < 0 && y < 0
    decreases Abs(x) + Abs(y)
  {
    if (x == 0 || x == -1) && (y == 0 || y == -1) {
    } else {
      AndSign(x / 2, y / 2);
    }
  }

  lemma OrSign(x: int, y: int)
    ensures Or(x, y) < 0 <==> x < 0 || y < 0
  {
    AndSign(Not(x), Not(y));
  }

  // ---------------- Bit length and masks

  /** The number of bits of x, without leading zeroes. */
  function BitLen(x: nat): nat
  {
    if x == 0 then 0 else 1 + BitLen(x / 2)
  }

  lemma {:induction false} BitAtOrAbove(x: nat, i: nat)
    requires BitLen(x) <= i
    ensures !Bit(x, i)
    decreases i
  {
    if x == 0 {
      BitOfSign(i);
    } else {
      BitAtOrAbove(x / 2, i - 1);
    }
  }

  lemma {:induction false} TopBit(x: nat)
    requires 0 < x
    ensures Bit(x, BitLen(x) - 1)
  {
    if x > 1 {
      TopBit(x / 2);
    }
  }

  lemma {:induction false} BitLenBounds(x: nat)
    ensures x < Pow2(BitLen(x))
    ensures 0 < x ==> Pow2(BitLen(x) - 1) <= x
  {
    if x > 1 {
      BitLenBounds(x / 2);
    }
  }

  lemma {:induction false} BitLenMono(x: nat, y: nat)
    requires x <= y
    ensures BitLen(x) <= BitLen(y)
  {
    if x > 0 {
      BitLenMono(x / 2, y / 2);
    }
  }

  lemma {:induction false} BitMask(k: nat, i: nat)
    ensures Bit(Pow2(k) - 1, i) == (i < k)
    decreases i
  {
    if k == 0 {
      BitOfSign(i);
    } else if i > 0 {
      assert (Pow2(k) - 1) / 2 == Pow2(k - 1) - 1;
      BitMask(k - 1, i - 1);
    }
  }

  /** `x & (2^k - 1)` is the remainder modulo 2^k. */
  lemma {:induction false} AndMask(x: int, k: nat)
    ensures And(x, Pow2(k) - 1) == x % Pow2(k)
    decreases k
  {
    if k == 0 {
      AndZero(x);
    } else {
      AndMask(x / 2, k - 1);
      DivModPow2Succ(x, k - 1);
      assert (Pow2(k) - 1) / 2 == Pow2(k - 1) - 1;
      if k == 1 && (x == 0 || x == -1) {
        AndZero(x / 2);
      }
    }
  }

  lemma {:induction false} AndZero(x: int)
    ensures And(x, 0) == 0
    decreases Abs(x)
  {
    if x != 0 && x != -1 {
      AndZero(x / 2);
    }
  }

  /** `a | (b << k)` is a sum when a fits in k bits. */
  lemma {:induction false} OrDisjoint(a: nat, b: nat, k: nat)
    requires a < Pow2(k)
    ensures Or(a, b * Pow2(k)) == a + b * Pow2(k)
    decreases k
  {
    if k == 0 {
      AndMinusOne(Not(b));
    } else {
      var c := b * Pow2(k);
      assert c == 2 * (b * Pow2(k - 1));
      OrDisjoint(a / 2, b, k - 1);
      OrHalves(a, c);
    }
  }

  lemma {:induction false} AndMinusOne(x: int)
    ensures And(-1, x) == x
    decreases Abs(x)
  {
    if x != 0 && x != -1 {
      AndMinusOne(x / 2);
    }
  }

  lemma OrHalves(x: int, y: int)
    ensures Or(x, y) == 2 * Or(x / 2, y / 2) + (if x % 2 == 1 || y % 2 == 1 then 1 else 0)
  {
    assert Not(x) / 2 == Not(x / 2) && Not(y) / 2 == Not(y / 2);
  }

  /** `hi | lo` is a sum when the low k bits of hi are zero and lo fits in k bits. */
  lemma OrAligned(hi: nat, lo: nat, k: nat)
    requires hi % Pow2(k) == 0 && lo < Pow2(k)
    ensures Or(hi, lo) == hi + lo
  {
    hide And;
    var p := Pow2(k);
    var q := hi / p;
    assert hi == q * p + hi % p;
    assert 0 <= q by { if q < 0 { MulAtLeast(-q, p); } }
    OrCommutes(hi, lo);
    OrDisjoint(lo, q, k);
  }

  /** ... and so it is when mid fills a gap between hi and lo. */
  lemma OrMiddle(hi: nat, mid: nat, lo: nat, j: nat, k: nat)
    requires k <= j && hi % Pow2(j) == 0
    requires mid % Pow2(k) == 0 && lo < Pow2(k) && mid + lo < Pow2(j)
    ensures Or(hi + lo, mid) == hi + mid + lo
  {
    Pow2Mono(k, j);
    OrAligned(hi, lo, j);
    assert Or(mid, lo) == mid + lo by { OrAligned(mid, lo, k); }
    assert Or(hi, mid + lo) == hi + mid + lo by { OrAligned(hi, mid + lo, j); }
    OrAssociates(hi, lo, mid);
    OrCommutes(lo, mid);
  }

  /** Disjunction of unsigned words. */
  function OrNat(x: nat, y: nat): (r: nat)
    ensures r == Or(x, y)
  {
    OrSign(x, y);
    Or(x, y)
  }

  /** Conjunction of unsigned words. */
  function AndNat(x: nat, y: nat): (r: nat)
    ensures r == And(x, y)
  {
    AndSign(x, y);
    And(x, y)
  }

  /** Masking with enough bits changes nothing. */
  lemma MaskNoop(x: nat, k: nat)
    requires x < Pow2(k)
    ensures And(x, Pow2(k) - 1) == x
  {
    AndMask(x, k);
    DivModUnique(x, Pow2(k), 0, x);
  }
}
