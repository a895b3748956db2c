/** 64-bit division built on the 64-by-32-bit divide instruction (src/lib/arithmetic.c). The
    machine widths are explicit: unsigned 64-bit arithmetic wraps at 2^64, results are cut to
    the width of the type the source returns, and the instruction traps unless its quotient
    fits in 32 bits. */
module Arithmetic {
  import opened Common

  lemma {:induction false} Pow2Sum(a: nat, b: nat)
    ensures Pow2(a) * Pow2(b) == Pow2(a + b)
  {
    if a > 0 {
      Pow2Sum(a - 1, b);
      assert (2 * Pow2(a - 1)) * Pow2(b) == 2 * (Pow2(a - 1) * Pow2(b));
    }
  }

  lemma Pow2Values()
    ensures Pow2(1) == 2 && Pow2(2) == 4 && Pow2(4) == 16 && Pow2(8) == 0x100 && Pow2(16) == 0x1_0000
    ensures Pow2(31) == 0x8000_0000
  {
    assert Pow2(1) == 2 * Pow2(0);
    Pow2Sum(1, 1);
    Pow2Sum(2, 2);
    Pow2Sum(4, 4);
    Pow2Sum(8, 8);
    Pow2Sum(16, 8);
    Pow2Sum(24, 4);
    Pow2Sum(28, 2);
    Pow2Sum(30, 1);
  }

  // ----- Facts about division -----

  lemma QuotientBounds(n: int, d: int)
    requires d > 0
    ensures (n / d) * d <= n < (n / d + 1) * d
  {
    assert n == (n / d) * d + n % d;
    assert (n / d + 1) * d == (n / d) * d + d;
  }

  lemma Cancel(a: int, b: int, c: int)
    requires c > 0 && a * c < b * c
    ensures a < b
  {
    if b <= a { MulLe(b, a, c); }
  }

  /** The quotient is determined by its two bounds. */
  lemma QuotientIs(n: int, d: int, q: int)
    requires d > 0 && q * d <= n < (q + 1) * d
    ensures n / d == q
  {
    QuotientBounds(n, d);
    Cancel(q, n / d + 1, d);
    Cancel(n / d, q + 1, d);
  }

  /** Dividing twice is dividing by the product. */
  lemma DivDiv(n: int, a: int, b: int)
    requires n >= 0 && a > 0 && b > 0
    ensures a * b > 0 && n / a / b == n / (a * b)
  {
    var q := n / a / b;
    QuotientBounds(n, a);
    QuotientBounds(n / a, b);
    assert a * b > 0;
    MulLe(q * b, n / a, a);
    assert (q * b) * a == q * (a * b);
    MulLe(n / a + 1, (q + 1) * b, a);
    assert ((q + 1) * b) * a == (q + 1) * (a * b);
    QuotientIs(n, a * b, q);
  }

  // ----- The divide instruction and the leading zeros -----

  /** divl; a quotient of 2^32 or more would trap. */
  function Divl(n: U64, d: U32): (q: U32)
    requires d > 0 && n / d < 0x1_0000_0000
    ensures q * d <= n < (q + 1) * d
  {
    QuotientBounds(n, d);
    DivNonNegative(n, d);
    n / d
  }

  lemma DivNonNegative(n: int, d: int)
    requires n >= 0 && d > 0
    ensures n / d >= 0
  {
    QuotientBounds(n, d);
    if n / d < 0 { MulLe(n / d + 1, 0, d); }
  }

  /** nlz: the shift that brings the leading one bit to position 31. */
  method Nlz(x0: U32) returns (n: nat)
    requires x0 > 0
    ensures n <= 31 && 0x8000_0000 <= x0 * Pow2(n) < 0x1_0000_0000
  {
    Pow2Values();
    var x: U32 := x0;
    n := 0;
    if x <= 0x0000_FFFF { n := n + 16; x := x * 0x1_0000; }
    Stage(x0, 0, 16);
    ghost var n1, x1 := n, x;
    assert x1 == x0 * Pow2(n1) && x1 > 0x0000_FFFF;
    if x <= 0x00FF_FFFF { n := n + 8; x := x * 0x100; }
    Stage(x0, n1, 8);
    ghost var n2, x2 := n, x;
    assert x2 == x0 * Pow2(n2) && x2 > 0x00FF_FFFF;
    if x <= 0x0FFF_FFFF { n := n + 4; x := x * 16; }
    Stage(x0, n2, 4);
    ghost var n3, x3 := n, x;
    assert x3 == x0 * Pow2(n3) && x3 > 0x0FFF_FFFF;
    if x <= 0x3FFF_FFFF { n := n + 2; x := x * 4; }
    Stage(x0, n3, 2);
    ghost var n4, x4 := n, x;
    assert x4 == x0 * Pow2(n4) && x4 > 0x3FFF_FFFF;
    if x <= 0x7FFF_FFFF { n := n + 1; }
    Stage(x0, n4, 1);
  }

  lemma Stage(x: int, n: nat, k: nat)
    ensures x * Pow2(n + k) == (x * Pow2(n)) * Pow2(k)
  {
    Pow2Sum(n, k);
    assert x * (Pow2(n) * Pow2(k)) == (x * Pow2(n)) * Pow2(k);
  }

  // ----- Unsigned division -----

  /** A divisor that fits in 32 bits: schoolbook division with one 32-bit digit. */
  lemma SmallDivisor(n: U64, d: U32)
    requires d > 0
    ensures var n1, n0 := n / 0x1_0000_0000, n % 0x1_0000_0000;
            var m := 0x1_0000_0000 * (n1 % d) + n0;
            && 0 <= m < 0x1_0000_0000 * d && m / d < 0x1_0000_0000
            && n / d == m / d + 0x1_0000_0000 * (n1 / d)
            && 0 <= n1 / d <= n1
  {
    var n1, n0 := n / 0x1_0000_0000, n % 0x1_0000_0000;
    var r, t := n1 % d, n1 / d;
    var m := 0x1_0000_0000 * r + n0;
    assert r <= d - 1 && r >= 0;
    assert m < 0x1_0000_0000 * d;
    assert n1 == t * d + r;
    DivNonNegative(n1, d);
    assert t <= n1 by { MulLe(1, d, t); }
    QuotientBounds(m, d);
    Cancel(m / d, 0x1_0000_0000, d);
    assert n == 0x1_0000_0000 * (t * d) + m;
    assert 0x1_0000_0000 * (t * d) == (0x1_0000_0000 * t) * d;
    var q := m / d + 0x1_0000_0000 * t;
    assert q * d == (m / d) * d + (0x1_0000_0000 * t) * d;
    assert (q + 1) * d == (m / d + 1) * d + (0x1_0000_0000 * t) * d;
    QuotientIs(n, d, q);
  }

  lemma Assoc(a: int, b: int, c: int)
    ensures (a * b) * c == a * (b * c)
  {
  }

  lemma ShiftFits(d: int, d1: int, p: int)
    requires 0x1_0000_0000 * d1 <= d < 0x1_0000_0000 * (d1 + 1) && p >= 1
    requires 0x8000_0000 <= d1 * p && (d1 + 1) * p <= 0x1_0000_0000
    ensures 0x8000_0000_0000_0000 <= d * p < 0x1_0000_0000_0000_0000
  {
    MulLe(0x1_0000_0000 * d1, d, p);
    Assoc(0x1_0000_0000, d1, p);
    MulLe(d + 1, 0x1_0000_0000 * (d1 + 1), p);
    Assoc(0x1_0000_0000, d1 + 1, p);
    assert (d + 1) * p == d * p + p;
  }

  /** Shifting by the number of leading zeros loses nothing at the top. */
  lemma ShiftRoom(d1: int, p: int, top: int)
    requires p >= 1 && top * p == 0x1_0000_0000 && d1 * p < 0x1_0000_0000
    ensures (d1 + 1) * p <= 0x1_0000_0000
  {
    Cancel(d1, top, p);
    MulLe(d1 + 1, top, p);
  }

  lemma Regroup(v: int, p: int, q: int)
    requires p * q == 0x8000_0000
    ensures v * 0x1_0000_0000 == (2 * v * q) * p
  {
    assert (2 * v * q) * p == (2 * v) * (p * q);
  }

  lemma Chopped(d: int, v: int, p: int, q: int)
    requires p >= 1 && p * q == 0x8000_0000 && v * 0x1_0000_0000 <= d * p < (v + 1) * 0x1_0000_0000
    ensures 2 * v * q <= d < 2 * v * q + 2 * q
  {
    Regroup(v, p, q);
    Regroup(v + 1, p, q);
    assert (d + 1) * p == d * p + p;
    Cancel(2 * v * q, d + 1, p);
    Cancel(d, 2 * (v + 1) * q, p);
    assert 2 * (v + 1) * q == 2 * v * q + 2 * q;
  }

  /** The normalized divisor: v is the top half of d shifted left by s, and 2vQ, where Q is
      2^(31-s), is d with its low bits cleared. */
  lemma Normalize(d: U64, s: nat, p: int, q: int)
    requires d >= 0x1_0000_0000 && s <= 31 && p == Pow2(s) && q == Pow2(31 - s)
    requires var d1 := d / 0x1_0000_0000; 0x8000_0000 <= d1 * p < 0x1_0000_0000
    ensures p * q == 0x8000_0000
    ensures 0 < d * p < 0x1_0000_0000_0000_0000
    ensures var v := d * p / 0x1_0000_0000;
            0x8000_0000 <= v < 0x1_0000_0000 && 2 * v * q <= d < 2 * v * q + 2 * q
  {
    PowParts(s);
    ShiftRoom(d / 0x1_0000_0000, p, Pow2(32 - s));
    ShiftFits(d, d / 0x1_0000_0000, p);
    Chopped(d, d * p / 0x1_0000_0000, p, q);
  }

  lemma PowParts(s: nat)
    requires s <= 31
    ensures Pow2(s) * Pow2(31 - s) == 0x8000_0000 && Pow2(32 - s) * Pow2(s) == 0x1_0000_0000
    ensures Pow2(s + 1) * Pow2(31 - s) == 0x1_0000_0000
  {
    Pow2Values();
    Pow2Sum(31, 1);
    Pow2Sum(s, 31 - s);
    Pow2Sum(32 - s, s);
    Pow2Sum(s + 1, 31 - s);
  }

  /** A smaller divisor gives no smaller a quotient. */
  lemma NotBelow(n: int, d: int, e: int)
    requires n >= 0 && 0 < e <= d
    ensures n / d <= n / e
  {
    QuotientBounds(n, d);
    DivNonNegative(n, d);
    QuotientBounds(n, e);
    MulLe(e, d, n / d);
    Cancel(n / d, n / e + 1, e);
  }

  lemma SmallQuotient(n: U64, d: int, t: int, q: int, r: int)
    requires q >= 1 && r * q == 0x1_0000_0000 && t >= 0 && t * d <= n && 0x1_0000_0000 * q <= d
    ensures t < r
  {
    var c := 0x1_0000_0000 * q;
    MulLe(c, d, t);
    assert r * c == 0x1_0000_0000 * (r * q);
    Cancel(t, r, c);
  }

  lemma SmallDifference(t: int, d: int, e: int, q: int, r: int)
    requires q >= 1 && r >= 1 && r * q == 0x1_0000_0000 && 0 <= t < r
    requires 0x1_0000_0000 * q <= e <= d < e + 2 * q
    ensures (t + 1) * (d - e) <= e
  {
    MulLe(d - e, 2 * q - 1, t + 1);
    MulLe(t + 1, r, 2 * q - 1);
    assert r * (2 * q - 1) == 2 * (r * q) - r;
    if q == 1 { assert r == 0x1_0000_0000; }
  }

  lemma OneAbove(n: int, d: int, e: int, t: int)
    requires 0 < e && n < (t + 1) * d && (t + 1) * (d - e) <= e
    ensures n / e <= t + 1
  {
    QuotientBounds(n, e);
    assert (t + 1) * d == (t + 1) * e + (t + 1) * (d - e);
    assert (t + 2) * e == (t + 1) * e + e;
    Cancel(n / e, t + 2, e);
  }

  /** Dividing by d with its low bits cleared is off by at most one. */
  lemma EstimateOffByOne(n: U64, d: U64, v: int, q: int, r: int)
    requires d > 0 && q >= 1 && r >= 1 && r * q == 0x1_0000_0000
    requires v >= 0x8000_0000 && 2 * v * q <= d < 2 * v * q + 2 * q
    ensures 2 * v * q > 0 && n / d <= n / (2 * v * q) <= n / d + 1
  {
    var e := 2 * v * q;
    assert 0x1_0000_0000 * q <= e by { MulLe(0x8000_0000, v, q); assert e == 2 * (v * q); }
    QuotientBounds(n, d);
    DivNonNegative(n, d);
    NotBelow(n, d, e);
    SmallQuotient(n, d, n / d, q, r);
    SmallDifference(n / d, d, e, q, r);
    OneAbove(n, d, e, n / d);
  }

  /** udiv64: the exact quotient, with a divide instruction that never traps. */
  method Udiv64(n: U64, d: U64) returns (res: U64)
    requires d != 0
    ensures res == n / d
  {
    DivNonNegative(n, d);
    QuotientBounds(n, d);
    if d / 0x1_0000_0000 == 0 {
      var n1: U32, n0: U32 := n / 0x1_0000_0000, n % 0x1_0000_0000;
      var d0: U32 := d;
      SmallDivisor(n, d0);
      var m: U64 := 0x1_0000_0000 * (n1 % d0) + n0;
      var q := Divl(m, d0);
      QuotientIs(m, d0, q);
      MulLe(1, d, n / d);
      res := q + 0x1_0000_0000 * (n1 / d0);
    } else if n < d {
      QuotientIs(n, d, 0);
      res := 0;
    } else {
      var d1: U32 := d / 0x1_0000_0000;
      var s := Nlz(d1);
      LargeDivisor(n, d, s);
      var v: U32 := Shift(d, s);
      var q := Divl(n / 2, v) / Pow2(31 - s);
      res := Correct(n, d, q);
    }
  }

  /** The estimate for a divisor of more than 32 bits. */
  lemma LargeDivisor(n: U64, d: U64, s: nat)
    requires 0x1_0000_0000 <= d <= n && s <= 31
    requires 0x8000_0000 <= d / 0x1_0000_0000 * Pow2(s) < 0x1_0000_0000
    ensures var v := Shift(d, s);
            v > 0 && n / 2 / v < 0x1_0000_0000 && n / d >= 1 &&
            n / d <= Divl(n / 2, v) / Pow2(31 - s) <= n / d + 1
  {
    var v, p, w := Shift(d, s), Pow2(s), Pow2(31 - s);
    Normalize(d, s, p, w);
    PowParts(s);
    assert v == d * p / 0x1_0000_0000;
    HalfFits(n, v);
    EstimateOffByOne(n, d, v, w, Pow2(s + 1));
    TwoDivisions(n, v, w);
    QuotientAtLeastOne(n, d);
  }

  lemma QuotientAtLeastOne(n: int, d: int)
    requires 0 < d <= n
    ensures n / d >= 1
  {
    QuotientBounds(n, d);
    Cancel(1, n / d + 1, d);
  }

  lemma TwoDivisions(n: U64, v: U32, w: int)
    requires v > 0 && w > 0 && n / 2 / v < 0x1_0000_0000
    ensures 2 * v * w > 0 && Divl(n / 2, v) / w == n / (2 * v * w)
  {
    QuotientIs(n / 2, v, Divl(n / 2, v));
    DivDiv(n, 2, v);
    DivDiv(n, 2 * v, w);
  }

  /** (d << s) >> 32 in 64 bits. */
  function Shift(d: U64, s: nat): (v: int)
    ensures v == d * Pow2(s) % 0x1_0000_0000_0000_0000 / 0x1_0000_0000
    ensures 0 <= v < 0x1_0000_0000
  {
    d * Pow2(s) % 0x1_0000_0000_0000_0000 / 0x1_0000_0000
  }

  lemma HalfFits(n: U64, v: U32)
    requires v >= 0x8000_0000
    ensures n / 2 / v < 0x1_0000_0000
  {
    QuotientBounds(n / 2, v);
    Cancel(n / 2 / v, 0x1_0000_0000, v);
  }

  /** The correction step: the estimate is the quotient or one more. */
  function Correct(n: U64, d: U64, q: int): (res: int)
    requires d > 0 && n / d >= 1 && n / d <= q <= n / d + 1
    ensures res == n / d
  {
    QuotientBounds(n, d);
    assert (q - 1) * d <= n by { MulLe(q - 1, n / d, d); }
    assert (q - 1) * d >= 0 by { MulLe(0, q - 1, d); }
    assert q == n / d ==> n - (q - 1) * d >= d by { assert (q - 1) * d == q * d - d; }
    if (n - (q - 1) * d) % 0x1_0000_0000_0000_0000 < d then q - 1 else q
  }

  /** umod64 returns 32 bits: the remainder modulo 2^32, hence the remainder itself exactly
      when it fits. */
  method Umod64(n: U64, d: U64) returns (r: U32)
    requires d != 0
    ensures r == n % d % 0x1_0000_0000
    ensures r == n % d <==> n % d < 0x1_0000_0000
    ensures d <= 0x1_0000_0000 ==> r == n % d
  {
    var q := Udiv64(n, d);
    assert n - d * q == n % d by { assert n == d * (n / d) + n % d; }
    r := (n - d * q) % 0x1_0000_0000_0000_0000 % 0x1_0000_0000;
  }

  /** For example, the remainder of 2^32 by 2^33 does not survive. */
  lemma RemainderLost()
    ensures var n: U64, d: U64 := 0x1_0000_0000, 0x2_0000_0000; n % d % 0x1_0000_0000 != n % d
  {
  }

  /** umod64 returns the remainder of n by d. */
  predicate UmodRight(n: U64, d: U64)
    requires d != 0
  {
    n % d % 0x1_0000_0000 == n % d
  }

  /** It does so for every dividend exactly if the divisor is at most 2^32. */
  lemma UmodDivisors(d: U64)
    requires d != 0
    ensures (forall n: U64 :: UmodRight(n, d)) <==> d <= 0x1_0000_0000
  {
    if d <= 0x1_0000_0000 {
      forall n: U64
        ensures UmodRight(n, d)
      {
        assert n % d < d;
      }
    } else {
      assert !UmodRight(0x1_0000_0000, d) by { SmallRemainder(0x1_0000_0000, d); }
    }
  }

  lemma SmallRemainder(n: nat, d: nat)
    requires n < d
    ensures n % d == n && n / d == 0
  {
  }

  // ----- Signed division -----

  function Abs(x: int): (a: int)
    ensures a >= 0
  {
    if x < 0 then -x else x
  }

  /** C's quotient, rounded toward zero. */
  function Truncated(n: int, d: int): (q: int)
    requires d != 0
  {
    if (n < 0) == (d < 0) then Abs(n) / Abs(d) else -(Abs(n) / Abs(d))
  }

  /** Conversions between the signed and the unsigned 64-bit types keep the bits. */
  function ToU64(x: S64): (u: U64) {
    if x >= 0 then x else x + 0x1_0000_0000_0000_0000
  }

  function ToS64(u: U64): (s: S64) {
    if u < 0x8000_0000_0000_0000 then u else u - 0x1_0000_0000_0000_0000
  }

  /** Unsigned negation. */
  function NegU64(u: U64): (r: U64) {
    if u == 0 then 0 else 0x1_0000_0000_0000_0000 - u
  }

  /** Signed results that do not fit wrap around. */
  function Wrap64(x: int): (s: S64)
    ensures -0x8000_0000_0000_0000 <= x < 0x8000_0000_0000_0000 ==> s == x
  {
    if -0x8000_0000_0000_0000 <= x < 0x8000_0000_0000_0000 then x else ToS64(x % 0x1_0000_0000_0000_0000)
  }

  function ToS32(x: int): (s: S32) {
    var u := x % 0x1_0000_0000;
    if u < 0x8000_0000 then u else u - 0x1_0000_0000
  }

  lemma TruncatedFits(n: S64, d: S64)
    requires d != 0
    ensures Abs(n) / Abs(d) <= 0x8000_0000_0000_0000
    ensures Abs(n) / Abs(d) == 0x8000_0000_0000_0000 ==> n == -0x8000_0000_0000_0000 && Abs(d) == 1
    ensures n == -0x8000_0000_0000_0000 && d == -1 ==> Abs(n) / Abs(d) == 0x8000_0000_0000_0000
  {
    var q := Abs(n) / Abs(d);
    QuotientBounds(Abs(n), Abs(d));
    DivNonNegative(Abs(n), Abs(d));
    MulLe(1, Abs(d), q);
    if q == 0x8000_0000_0000_0000 && Abs(d) != 1 { MulLe(2, Abs(d), q); }
  }

  /** sdiv64 truncates toward zero, except for the one quotient that does not fit. */
  method Sdiv64(n: S64, d: S64) returns (q: S64)
    requires d != 0
    ensures q == Truncated(n, d) <==> !(n == -0x8000_0000_0000_0000 && d == -1)
    ensures n == -0x8000_0000_0000_0000 && d == -1 ==> q == -0x8000_0000_0000_0000
  {
    var nAbs := if n >= 0 then ToU64(n) else NegU64(ToU64(n));
    var dAbs := if d >= 0 then ToU64(d) else NegU64(ToU64(d));
    assert nAbs == Abs(n) && dAbs == Abs(d);
    var qAbs := Udiv64(nAbs, dAbs);
    TruncatedFits(n, d);
    Signed(n, d, qAbs);
    q := if (n < 0) == (d < 0) then ToS64(qAbs) else Wrap64(0 - ToS64(qAbs) as int);
  }

  lemma Signed(n: S64, d: S64, qAbs: U64)
    requires d != 0 && qAbs == Abs(n) / Abs(d) <= 0x8000_0000_0000_0000
    requires qAbs == 0x8000_0000_0000_0000 ==> n == -0x8000_0000_0000_0000 && Abs(d) == 1
    requires n == -0x8000_0000_0000_0000 && d == -1 ==> qAbs == 0x8000_0000_0000_0000
    ensures var q := if (n < 0) == (d < 0) then ToS64(qAbs) else Wrap64(0 - ToS64(qAbs) as int);
            && (q == Truncated(n, d) <==> !(n == -0x8000_0000_0000_0000 && d == -1))
            && (n == -0x8000_0000_0000_0000 && d == -1 ==> q == -0x8000_0000_0000_0000)
  {
  }

  /** The remainder that goes with the truncated quotient. */
  function Remainder(n: int, d: int): (r: int)
    requires d != 0
    ensures n == d * Truncated(n, d) + r
    ensures Abs(r) < Abs(d) && (r == 0 || (r < 0) == (n < 0))
  {
    QuotientBounds(Abs(n), Abs(d));
    n - d * Truncated(n, d)
  }

  /** smod64 returns 32 bits: the remainder exactly when it fits, in particular for every
      divisor of magnitude at most 2^31. */
  method Smod64(n: S64, d: S64) returns (r: S32)
    requires d != 0
    ensures r == ToS32(Remainder(n, d))
    ensures r == Remainder(n, d) <==> -0x8000_0000 <= Remainder(n, d) < 0x8000_0000
    ensures Abs(d) <= 0x8000_0000 ==> r == Remainder(n, d)
  {
    var q := Sdiv64(n, d);
    RemainderKept(n, d, q);
    r := ToS32(Wrap64(n - Wrap64(d * q)));
    assert Abs(d) <= 0x8000_0000 ==> -0x8000_0000 <= Remainder(n, d) < 0x8000_0000;
  }

  /** smod64 returns the remainder of n by d. */
  predicate SmodRight(n: S64, d: S64)
    requires d != 0
  {
    ToS32(Remainder(n, d)) == Remainder(n, d)
  }

  /** It does so for every dividend exactly if the magnitude of the divisor is at most 2^31. */
  lemma SmodDivisors(d: S64)
    requires d != 0
    ensures (forall n: S64 :: SmodRight(n, d)) <==> Abs(d) <= 0x8000_0000
  {
    if Abs(d) <= 0x8000_0000 {
      forall n: S64
        ensures SmodRight(n, d)
      {
        assert -0x8000_0000 < Remainder(n, d) < 0x8000_0000;
      }
    } else {
      LargeDivisorLoses(d);
    }
  }

  lemma LargeDivisorLoses(d: S64)
    requires Abs(d) > 0x8000_0000
    ensures Remainder(0x8000_0000, d) == 0x8000_0000 && !SmodRight(0x8000_0000, d)
  {
    SmallRemainder(0x8000_0000, Abs(d));
    assert Truncated(0x8000_0000, d) == 0;
  }

  /** For example, the remainder of 2^31 by 2^32 does not survive. */
  lemma SignedRemainderLost()
    ensures ToS32(Remainder(0x8000_0000, 0x1_0000_0000)) == -0x8000_0000 && Remainder(0x8000_0000, 0x1_0000_0000) == 0x8000_0000
  {
    LargeDivisorLoses(0x1_0000_0000);
  }

  /** The product and the difference fit, or wrap around twice. */
  lemma RemainderKept(n: S64, d: S64, q: S64)
    requires d != 0
    requires q == Truncated(n, d) || (n == -0x8000_0000_0000_0000 && d == -1 && q == -0x8000_0000_0000_0000)
    ensures Wrap64(n - Wrap64(d * q)) == Remainder(n, d)
  {
    if q == Truncated(n, d) {
      ProductFits(n, d);
    } else {
      assert d * q == 0x8000_0000_0000_0000;
      assert Remainder(n, d) == 0 by { QuotientIs(0x8000_0000_0000_0000, 1, 0x8000_0000_0000_0000); }
    }
  }

  lemma ProductFits(n: S64, d: S64)
    requires d != 0
    ensures -0x8000_0000_0000_0000 <= d * Truncated(n, d) < 0x8000_0000_0000_0000
    ensures -0x8000_0000_0000_0000 <= Remainder(n, d) < 0x8000_0000_0000_0000
  {
    var p := d * Truncated(n, d);
    assert n == p + Remainder(n, d);
    assert n >= 0 ==> p >= 0 && Remainder(n, d) >= 0 by { ProductSign(n, d); }
    assert n < 0 ==> p <= 0 && Remainder(n, d) <= 0 by { ProductSign(n, d); }
  }

  lemma ProductSign(n: int, d: int)
    requires d != 0
    ensures d * Truncated(n, d) == if n >= 0 then Abs(d) * (Abs(n) / Abs(d)) else -(Abs(d) * (Abs(n) / Abs(d)))
    ensures Abs(d) * (Abs(n) / Abs(d)) >= 0
  {
    DivNonNegative(Abs(n), Abs(d));
    MulLe(0, Abs(n) / Abs(d), Abs(d));
  }
}
