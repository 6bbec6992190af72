/** Whether the numbers in a message survive the parser: what the header's deviation and the stored values
    denote, compared with what the sender's items denote. */
module Numbers {
  import opened Bytes
  import opened Items
  import opened Unpacker
  import opened Events
  import opened Messages

  /** significand * 2^exponent, with a sign. */
  datatype Binary = Finite(negative: bool, significand: nat, exponent: int) | NotFinite

  /** What the bits of a single-precision number denote (IEEE 754, section 3.4). */
  function SingleValue(x: nat): Binary
    requires x < TWO32
  {
    var e, m := x / 0x80_0000 % 0x100, x % 0x80_0000;
    if e == 0xff then NotFinite
    else if e == 0 then Finite(x >= 0x8000_0000, m, -149)
    else Finite(x >= 0x8000_0000, 0x80_0000 + m, e - 150)
  }

  /** What the bits of a double-precision number denote. */
  function DoubleValue(x: nat): Binary
    requires x < TWO64
  {
    var e, m := x / 0x10_0000_0000_0000 % 0x800, x % 0x10_0000_0000_0000;
    if e == 0x7ff then NotFinite
    else if e == 0 then Finite(x >= TWO63, m, -1074)
    else Finite(x >= TWO63, 0x10_0000_0000_0000 + m, e - 1075)
  }

  function Whole(i: int): Binary {
    Finite(i < 0, if i < 0 then -i else i, 0)
  }

  /** The two denote the same number; the sign of zero does not matter. */
  predicate SameNumber(a: Binary, b: Binary) {
    && a.Finite? && b.Finite?
    && (a.negative == b.negative || a.significand == 0)
    && if a.exponent >= b.exponent then Scaled(a.significand, a.exponent - b.exponent) == b.significand
       else a.significand == Scaled(b.significand, b.exponent - a.exponent)
  }

  /** The number a sender means by an item. */
  function Meant(item: Item): Binary
    requires Numeric(item)
  {
    match item
    case PosInt(u) => Whole(u)
    case NegInt(i) => Whole(i)
    case Float(x) => SingleValue(x)
    case Double(x) => DoubleValue(x)
  }

  // ---------------------------------------------------------------- powers and floats

  lemma ScaledAtLeast(m: nat, k: nat)
    ensures Scaled(m, k) >= m && Scaled(m, 0) == m && Scaled(0, k) == 0
  {
    hide Pow2;
    AtLeastFactor(m, Pow2(k));
    NoDoubling();
  }

  lemma HalfScale(m: nat, k: nat)
    requires k >= 1
    ensures Scaled(m, k) == Scaled(2 * m, k - 1) && Pow2(k) == 2 * Pow2(k - 1)
  {
    assert Pow2(k) == 2 * Pow2(k - 1);
    hide Pow2;
  }

  lemma NoDoubling()
    ensures Pow2(0) == 1
  {
  }

  /** Scaling is monotone in both arguments. */
  lemma ScaledMonotone(m: nat, k: nat, m': nat, k': nat)
    requires m <= m' && k <= k'
    ensures Scaled(m, k) <= Scaled(m', k')
  {
    Pow2Monotone(k, k');
    hide Pow2;
    ProductMonotone(m, Pow2(k), m', Pow2(k'));
  }

  lemma ProductMonotone(a: nat, b: nat, c: nat, d: nat)
    requires a <= c && b <= d
    ensures a * b <= c * d
  {
    assert c * d == a * b + a * (d - b) + (c - a) * d;
    assert a * (d - b) >= 0 && (c - a) * d >= 0;
  }

  lemma FloatAbove(w: nat, m: nat, k: nat)
    requires m <= 0x100_0000 && Scaled(m, k) <= w
    ensures Scaled(m, k) <= ToFloat(w)
  {
    hide Scaled, ToFloat;
    assert IsFloat(Scaled(m, k));
    ToFloatNearest(w, Scaled(m, k));
  }

  lemma FloatBelow(w: nat, m: nat, k: nat)
    requires m <= 0x100_0000 && w <= Scaled(m, k)
    ensures ToFloat(w) <= Scaled(m, k)
  {
    hide Scaled, ToFloat;
    assert IsFloat(Scaled(m, k));
    ToFloatNearest(w, Scaled(m, k));
  }

  lemma Powers2()
    ensures Pow2(6) == 0x40 && Pow2(7) == 0x80 && Pow2(8) == 0x100 && Pow2(9) == 0x200
    ensures Pow2(10) == 0x400 && Pow2(11) == 0x800 && Pow2(23) == 0x80_0000 && Pow2(24) == 0x100_0000
    ensures Pow2(28) == 0x1000_0000 && Pow2(29) == 0x2000_0000 && Pow2(30) == 0x4000_0000
    ensures Pow2(31) == 0x8000_0000 && Pow2(32) == TWO32
  {
    assert Pow2(20) == 0x10_0000;
    assert Pow2(25) == 0x200_0000;
  }

  lemma Powers2Wide()
    ensures Pow2(38) == 0x40_0000_0000 && Pow2(39) == 0x80_0000_0000 && Pow2(52) == 0x10_0000_0000_0000
    ensures Pow2(53) == 0x20_0000_0000_0000 && Pow2(62) == 0x4000_0000_0000_0000 && Pow2(63) == TWO63
  {
    Powers2();
    assert Pow2(36) == 0x10_0000_0000;
    assert Pow2(42) == 0x400_0000_0000;
    assert Pow2(48) == 0x1_0000_0000_0000;
    assert Pow2(58) == 0x400_0000_0000_0000;
  }

  // ---------------------------------------------------------------- rounding to a given float

  /** `w` lies within half a unit of q * 2^k, where a tie needs an even q; just below a power of two the
      units are half as large. */
  predicate Near(w: nat, q: nat, k: nat) {
    var v, u := Scaled(q, k), Pow2(k);
    if w >= v then 2 * (w - v) < u || (2 * (w - v) == u && q % 2 == 0)
    else if q > 0x80_0000 then 2 * (v - w) < u || (2 * (v - w) == u && q % 2 == 0)
    else 4 * (v - w) <= u
  }

  lemma Division(w: nat, k: nat) returns (n: nat, r: nat)
    ensures n == w / Pow2(k) && r == w % Pow2(k) && Scaled(n, k) + r == w && r < Pow2(k)
  {
    hide Pow2;
    DivideOnce(w, Pow2(k));
    n, r := w / Pow2(k), w % Pow2(k);
  }

  lemma DivideOnce(w: nat, u: nat)
    requires u >= 1
    ensures w / u * u + w % u == w && w % u < u
  {
  }

  lemma NearInside(w: nat, q: nat, k: nat)
    requires 0x80_0000 <= q < 0x100_0000 && k >= 1
    requires Scaled(0x80_0000, k) <= w < Scaled(0x100_0000, k)
    ensures ToFloat(w) == Scaled(q, k) <==> Near(w, q, k)
  {
    hide Pow2, RoundFrom, RoundAt, Near;
    HalfScale(0x80_0000, k);
    Binade(w, 0, k);
    NearMultiple(w, q, k);
  }

  lemma NearMultiple(w: nat, q: nat, k: nat)
    requires 0x80_0000 <= q < 0x100_0000
    requires Scaled(0x80_0000, k) <= w < Scaled(0x100_0000, k)
    ensures RoundAt(w, k) == Scaled(q, k) <==> Near(w, q, k)
  {
    hide Pow2, Scaled;
    var n, r := Division(w, k);
    QuotientRange(w, k);
    NextScaled(n, k);
    if q < n {
      ScaledOrder(q, n, k);
    } else if q > n + 1 {
      ScaledOrder(n + 1, q, k);
    }
  }

  lemma NextScaled(n: nat, k: nat)
    ensures Scaled(n + 1, k) == Scaled(n, k) + Pow2(k)
  {
    hide Pow2;
  }

  lemma QuotientRange(w: nat, k: nat)
    requires Scaled(0x80_0000, k) <= w < Scaled(0x100_0000, k)
    ensures 0x80_0000 <= w / Pow2(k) < 0x100_0000
  {
    hide Pow2;
    QuotientBelow(w, Pow2(k), 0x100_0000);
    AtLeastQuotient(w, Pow2(k), 0x80_0000);
  }

  lemma AtLeastQuotient(v: nat, u: nat, c: nat)
    requires u >= 1 && c * u <= v
    ensures c <= v / u
  {
    var q := v / u;
    assert v == u * q + v % u;
    if q < c {
      assert (q + 1) * u == q * u + u;
      ProductMonotone(q + 1, u, c, u);
    }
  }

  lemma NearAbove(w: nat, q: nat, k: nat)
    requires 0x80_0000 <= q < 0x100_0000 && Scaled(0x100_0000, k) <= w
    ensures ToFloat(w) != Scaled(q, k) && !Near(w, q, k)
  {
    hide Pow2;
    FloatAbove(w, 0x100_0000, k);
    ScaledOrder(q, 0x100_0000, k);
    hide Scaled;
  }

  lemma NearBelow(w: nat, q: nat, k: nat)
    requires 0x80_0000 < q < 0x100_0000 && w < Scaled(0x80_0000, k)
    ensures ToFloat(w) != Scaled(q, k) && !Near(w, q, k)
  {
    hide Pow2;
    FloatBelow(w, 0x80_0000, k);
    ScaledOrder(0x80_0000, q, k);
    hide Scaled;
  }

  /** Just below a power of two. */
  lemma NearPower(w: nat, k: nat)
    requires k >= 1 && w < Scaled(0x80_0000, k)
    ensures ToFloat(w) == Scaled(0x80_0000, k) <==> Near(w, 0x80_0000, k)
  {
    hide Pow2, RoundFrom, RoundAt;
    HalfScale(0x80_0000, k);
    if w < Scaled(0x80_0000, k - 1) {
      hide ToFloat;
      FloatBelow(w, 0x80_0000, k - 1);
    } else {
      if k > 1 {
        HalfScale(0x80_0000, k - 1);
      }
      Binade(w, 0, k - 1);
      NearPowerUnit(w, k - 1);
    }
  }

  lemma NearPowerUnit(w: nat, k: nat)
    requires Scaled(0x80_0000, k) <= w < Scaled(0x100_0000, k)
    ensures RoundAt(w, k) == Scaled(0x100_0000, k) <==> 2 * (Scaled(0x100_0000, k) - w) <= Pow2(k)
  {
    hide Pow2, Scaled;
    var n, r := Division(w, k);
    QuotientRange(w, k);
    NextScaled(n, k);
    if n + 1 < 0x100_0000 {
      ScaledOrder(n + 1, 0x100_0000, k);
    }
  }

  /** A number is converted to a given float exactly when it is near it. */
  lemma FloatNear(w: nat, q: nat, k: nat)
    requires 0x80_0000 <= q < 0x100_0000 && k >= 1
    ensures ToFloat(w) == Scaled(q, k) <==> Near(w, q, k)
  {
    if w >= Scaled(0x100_0000, k) {
      NearAbove(w, q, k);
    } else if w >= Scaled(0x80_0000, k) {
      NearInside(w, q, k);
    } else if q > 0x80_0000 {
      NearBelow(w, q, k);
    } else {
      NearPower(w, k);
    }
  }

  // ---------------------------------------------------------------- the deviation

  /** A whole number with a small exponent is small. */
  lemma SmallWhole(a: Binary, d: nat, k: nat)
    requires SameNumber(a, Whole(d)) && a.exponent <= k
    ensures d <= Scaled(a.significand, k)
  {
    hide Pow2;
    ScaledAtLeast(a.significand, k);
    if a.exponent >= 0 {
      ScaledMonotone(a.significand, a.exponent, a.significand, k);
    } else {
      ScaledAtLeast(d, -a.exponent);
    }
  }

  lemma LargeWhole(a: Binary, d: nat, k: nat)
    requires SameNumber(a, Whole(d)) && a.exponent >= k
    ensures d >= Scaled(a.significand, k)
  {
    ScaledMonotone(a.significand, k, a.significand, a.exponent);
  }

  /** A fraction is no whole number but zero. */
  lemma FractionIsZero(a: Binary, d: nat, k: nat)
    requires SameNumber(a, Whole(d)) && a.exponent <= -(k as int) && k > 0 && a.significand < Pow2(k)
    ensures a.significand == 0 && d == 0
  {
    hide Pow2;
    ScaledAtLeast(0, -a.exponent);
    if d > 0 {
      ScaledMonotone(1, k, d, -a.exponent);
    }
  }

  lemma NegativeSingle(x: nat, d: nat)
    requires 0x8000_0000 <= x < TWO32 && SameNumber(SingleValue(x), Whole(d))
    ensures d == 0
  {
    hide Scaled;
    var a := SingleValue(x);
    assert a.significand == 0;
    ScaledAtLeast(d, -a.exponent);
    ScaledAtLeast(0, -a.exponent);
  }

  /** Below 1.0 only zero is whole. */
  lemma TinySingle(x: nat, d: nat)
    requires x < 0x3f80_0000 && SameNumber(SingleValue(x), Whole(d))
    ensures x == 0 && d == 0
  {
    hide SameNumber, Scaled, Pow2;
    Powers2();
    FractionIsZero(SingleValue(x), d, if x < 0x80_0000 then 23 else 24);
  }

  lemma ZeroFloat()
    ensures ToFloat(0) == 0
  {
    hide Pow2, ToFloat;
    ScaledAtLeast(0, 0);
    ToFloatFixes(0);
  }

  lemma ZeroSingle()
    ensures SameNumber(SingleValue(0), Whole(0)) && ToFloat(0) == 0
  {
    hide Scaled, ToFloat;
    ScaledAtLeast(0, 149);
    ZeroFloat();
  }

  /** The one bit pattern whose value, 1318926976, is the float nearest to the pattern read as a number. */
  const LUCKY_SINGLE: nat := 0x4e9d_3a75

  /** Between 2^30 and 2^31. */
  lemma LuckySingle(x: nat)
    requires 0x4e80_0000 <= x < 0x4f00_0000
    ensures SameNumber(SingleValue(x), Whole(ToFloat(x))) <==> x == 0x4e9d_3a75
  {
    hide SameNumber, SingleValue, Pow2, RoundFrom, RoundAt, Scaled;
    Powers2();
    Binade(x, 0, 7);
    LuckyUnit(x);
    NonNegative(x, 7, ToFloat(x));
  }

  /** For a positive number with a whole exponent, the same number is the same product. */
  lemma NonNegative(x: nat, k: nat, d: nat)
    requires x < 0x7f80_0000 && x / 0x80_0000 == k + 150
    ensures SameNumber(SingleValue(x), Whole(d)) <==> d == Scaled(0x80_0000 + x % 0x80_0000, k)
  {
    hide Scaled;
    ScaledAtLeast(d, 0);
    ScaledAtLeast(0x80_0000 + x % 0x80_0000, 0);
  }

  lemma LuckyUnit(x: nat)
    requires 0x4e80_0000 <= x < 0x4f00_0000
    ensures RoundAt(x, 7) == Scaled(0x80_0000 + x % 0x80_0000, 7) <==> x == 0x4e9d_3a75
  {
    hide Pow2;
    Powers2();
    var n := x / 0x80;
    assert Scaled(n, 7) == 0x80 * n && Scaled(n + 1, 7) == 0x80 * (n + 1);
  }

  /** With a timestamp below 2^32 the union holds just the pattern. */
  lemma SingleAlone(x: nat)
    requires x < TWO32
    ensures SameNumber(SingleValue(x), Whole(ToFloat(x))) <==> x == 0 || x == LUCKY_SINGLE
  {
    hide SameNumber, ToFloat, Scaled;
    Powers2();
    var d := ToFloat(x);
    if x == 0 {
      ZeroSingle();
    } else if x < 0x3f80_0000 {
      if SameNumber(SingleValue(x), Whole(d)) {
        TinySingle(x, d);
      }
    } else if x < 0x4e80_0000 {
      SingleTooSmall(x);
    } else if x < 0x4f00_0000 {
      LuckySingle(x);
    } else if x < 0x8000_0000 {
      SingleTooLarge(x);
    } else if SameNumber(SingleValue(x), Whole(d)) {
      NegativeSingle(x, d);
      OneFloat(x);
    }
  }

  lemma OneFloat(w: nat)
    ensures w >= 1 ==> ToFloat(w) >= 1
  {
    hide ToFloat;
    ScaledAtLeast(1, 0);
    if w >= 1 {
      FloatAbove(w, 1, 0);
    }
  }

  lemma SingleTooSmall(x: nat)
    requires 0x3f80_0000 <= x < 0x4e80_0000
    ensures !SameNumber(SingleValue(x), Whole(ToFloat(x)))
  {
    hide ToFloat, Pow2, SameNumber;
    Powers2();
    var a, d := SingleValue(x), ToFloat(x);
    if SameNumber(a, Whole(d)) {
      if x < 0x4b00_0000 {
        SmallWhole(a, d, 0);
        ScaledAtLeast(a.significand, 0);
        FloatAbove(x, 0x7f, 23);
      } else {
        SmallWhole(a, d, 6);
        FloatAbove(x, 1, 30);
      }
    }
  }

  lemma SingleTooLarge(x: nat)
    requires 0x4f00_0000 <= x < 0x8000_0000
    ensures !SameNumber(SingleValue(x), Whole(ToFloat(x)))
  {
    hide ToFloat, Pow2, SameNumber;
    Powers2();
    var a, d := SingleValue(x), ToFloat(x);
    if SameNumber(a, Whole(d)) {
      BothFinite(a, Whole(d));
      LargeWhole(a, d, 8);
      FloatBelow(x, 0xff, 23);
    }
  }

  /** A number from 2^32 on, and near the word that the union holds. */
  predicate NearClock(x: nat, w: nat)
    requires x < TWO32
  {
    0x4f80_0000 <= x < 0x7f80_0000 && Near(w, 0x80_0000 + x % 0x80_0000, x / 0x80_0000 - 150)
  }

  lemma BelowClock(x: nat, w: nat)
    requires x < 0x4f80_0000 && w >= TWO32
    ensures !SameNumber(SingleValue(x), Whole(ToFloat(w)))
  {
    hide ToFloat, Pow2, SameNumber;
    Powers2();
    var a, d := SingleValue(x), ToFloat(w);
    if SameNumber(a, Whole(d)) {
      SmallWhole(a, d, 8);
      ScaledMonotone(a.significand, 8, 0x100_0000 - 1, 8);
      FloatAbove(w, 1, 32);
    }
  }

  /** With a timestamp from 2^32 on, the union's upper half is the timestamp's. */
  lemma SingleWithClock(x: nat, w: nat)
    requires x < TWO32 && w >= TWO32
    ensures SameNumber(SingleValue(x), Whole(ToFloat(w))) <==> NearClock(x, w)
  {
    hide SameNumber, ToFloat, Near, Scaled;
    if x < 0x4f80_0000 {
      BelowClock(x, w);
    } else if x < 0x7f80_0000 {
      NonNegative(x, x / 0x80_0000 - 150, ToFloat(w));
      FloatNear(w, 0x80_0000 + x % 0x80_0000, x / 0x80_0000 - 150);
    } else if x < 0x8000_0000 {
      Unordinary(x, ToFloat(w));
    } else if SameNumber(SingleValue(x), Whole(ToFloat(w))) {
      NegativeSingle(x, ToFloat(w));
      OneFloat(w);
    }
  }

  lemma Unordinary(x: nat, d: nat)
    requires 0x7f80_0000 <= x < 0x8000_0000
    ensures !SameNumber(SingleValue(x), Whole(d))
  {
  }

  // Double precision fills the union, so the timestamp does not matter.

  const LUCKY_DOUBLE: nat := 0x43d0_f43d_0000_0000

  lemma ZeroDouble()
    ensures SameNumber(DoubleValue(0), Whole(0)) && ToFloat(0) == 0
  {
    hide Scaled, ToFloat;
    ScaledAtLeast(0, 1074);
    ZeroFloat();
  }

  lemma TinyDouble(x: nat, d: nat)
    requires x < 0x3ff0_0000_0000_0000 && SameNumber(DoubleValue(x), Whole(d))
    ensures x == 0 && d == 0
  {
    hide SameNumber, Scaled, Pow2;
    Powers2Wide();
    FractionIsZero(DoubleValue(x), d, if x < 0x10_0000_0000_0000 then 52 else 53);
  }

  lemma NonNegativeDouble(x: nat, k: nat, d: nat)
    requires x < 0x7ff0_0000_0000_0000 && x / 0x10_0000_0000_0000 == k + 1075
    ensures SameNumber(DoubleValue(x), Whole(d)) <==> d == Scaled(0x10_0000_0000_0000 + x % 0x10_0000_0000_0000, k)
  {
    hide Scaled;
    ScaledAtLeast(d, 0);
    ScaledAtLeast(0x10_0000_0000_0000 + x % 0x10_0000_0000_0000, 0);
  }

  lemma DoubleTooSmall(x: nat)
    requires 0x3ff0_0000_0000_0000 <= x < 0x43d0_0000_0000_0000
    ensures !SameNumber(DoubleValue(x), Whole(ToFloat(x)))
  {
    hide ToFloat, Pow2, SameNumber;
    Powers2();
    Powers2Wide();
    var a, d := DoubleValue(x), ToFloat(x);
    if SameNumber(a, Whole(d)) {
      if x < 0x4330_0000_0000_0000 {
        SmallWhole(a, d, 0);
        ScaledAtLeast(a.significand, 0);
        FloatAbove(x, 1, 53);
      } else {
        SmallWhole(a, d, 9);
        FloatAbove(x, 1, 62);
      }
    }
  }

  lemma DoubleTooLarge(x: nat)
    requires 0x43e0_0000_0000_0000 <= x < TWO63
    ensures !SameNumber(DoubleValue(x), Whole(ToFloat(x)))
  {
    hide ToFloat, Pow2, SameNumber;
    Powers2();
    Powers2Wide();
    var a, d := DoubleValue(x), ToFloat(x);
    if SameNumber(a, Whole(d)) {
      BothFinite(a, Whole(d));
      LargeWhole(a, d, 11);
      FloatBelow(x, 0x7ff, 52);
    }
  }

  /** A multiple of 2^39 equals 2^10 times the significand only if the fraction's low 29 bits are clear. */
  lemma LuckyMultiple(y: nat, n: nat)
    requires 0x80_0000_0000 * n == 0x400 * (0x10_0000_0000_0000 + y)
    ensures n >= 0x80_0000 && y == 0x2000_0000 * (n - 0x80_0000)
  {
  }

  lemma LuckyCount(j: nat, n: nat)
    requires j < 0x80_0000 && n == 1085 * 0x2000 + j / 0x400
    requires var r := j % 0x400;
             0x80_0000 + j == if r < 0x200 || (r == 0x200 && n % 2 == 0) then n else n + 1
    ensures j == 500200
  {
  }

  /** The word of such a pattern, divided by 2^39. */
  lemma LuckyDivision(x: nat, j: nat)
    requires j < 0x80_0000 && x == 0x43d0_0000_0000_0000 + 0x2000_0000 * j
    ensures x / 0x80_0000_0000 == 1085 * 0x2000 + j / 0x400
    ensures x % 0x80_0000_0000 == 0x2000_0000 * (j % 0x400)
  {
    var n, r := 1085 * 0x2000 + j / 0x400, 0x2000_0000 * (j % 0x400);
    assert x == 0x80_0000_0000 * n + r;
    QuotientUnique(0x80_0000_0000, n, r, x / 0x80_0000_0000, x % 0x80_0000_0000);
  }

  lemma LuckyRound(x: nat)
    ensures var n, r := x / 0x80_0000_0000, x % 0x80_0000_0000;
            RoundAt(x, 39) == 0x80_0000_0000 *
              (if 2 * r < 0x80_0000_0000 || (2 * r == 0x80_0000_0000 && n % 2 == 0) then n else n + 1)
  {
    hide Pow2;
    Powers2Wide();
  }

  lemma LuckyDoubleUnit(x: nat)
    requires 0x43d0_0000_0000_0000 <= x < 0x43e0_0000_0000_0000
    ensures RoundAt(x, 39) == 0x400 * (0x10_0000_0000_0000 + x % 0x10_0000_0000_0000)
       <==> x == 0x43d0_f43d_0000_0000
  {
    hide RoundAt, Pow2;
    var y := x - 0x43d0_0000_0000_0000;
    assert x % 0x10_0000_0000_0000 == y;
    LuckyRound(x);
    if RoundAt(x, 39) == 0x400 * (0x10_0000_0000_0000 + y) {
      var n, r := x / 0x80_0000_0000, x % 0x80_0000_0000;
      var m := if 2 * r < 0x80_0000_0000 || (2 * r == 0x80_0000_0000 && n % 2 == 0) then n else n + 1;
      LuckyMultiple(y, m);
      LuckyDivision(x, m - 0x80_0000);
      LuckyCount(m - 0x80_0000, n);
    }
  }

  lemma LuckyDouble(x: nat)
    requires 0x43d0_0000_0000_0000 <= x < 0x43e0_0000_0000_0000
    ensures SameNumber(DoubleValue(x), Whole(ToFloat(x))) <==> x == 0x43d0_f43d_0000_0000
  {
    hide RoundAt, RoundFrom, DoubleValue, SameNumber, Pow2;
    Powers2();
    Powers2Wide();
    Binade(x, 0, 39);
    LuckyDoubleUnit(x);
    var q := 0x10_0000_0000_0000 + x % 0x10_0000_0000_0000;
    assert Scaled(q, 10) == 0x400 * q;
    NonNegativeDouble(x, 10, ToFloat(x));
  }

  lemma NegativeDouble(x: nat, d: nat)
    requires TWO63 <= x < TWO64 && SameNumber(DoubleValue(x), Whole(d))
    ensures d == 0
  {
    hide Scaled;
    var a := DoubleValue(x);
    assert a.significand == 0;
    ScaledAtLeast(d, -a.exponent);
    ScaledAtLeast(0, -a.exponent);
  }

  lemma DoubleAlone(x: nat)
    requires x < TWO64
    ensures SameNumber(DoubleValue(x), Whole(ToFloat(x))) <==> x == 0 || x == LUCKY_DOUBLE
  {
    hide SameNumber, ToFloat, Scaled;
    var d := ToFloat(x);
    if x == 0 {
      ZeroDouble();
    } else if x < 0x3ff0_0000_0000_0000 {
      if SameNumber(DoubleValue(x), Whole(d)) {
        TinyDouble(x, d);
      }
    } else if x < 0x43d0_0000_0000_0000 {
      DoubleTooSmall(x);
    } else if x < 0x43e0_0000_0000_0000 {
      LuckyDouble(x);
    } else if x < TWO63 {
      DoubleTooLarge(x);
    } else if SameNumber(DoubleValue(x), Whole(d)) {
      NegativeDouble(x, d);
      OneFloat(x);
    }
  }

  // Main results.

  /** When the header's deviation is the number that was sent: an integer of at most 24 significant bits;
      a single-precision 0.0, or the one lucky pattern, below timestamp 2^32; above it a number so large
      that the upper half of the timestamp happens to round it to itself; a double-precision 0.0 or the
      one lucky pattern. A negative integer never is. */
  ghost predicate DeviationSurvives(r: Report)
    requires Sendable(r)
  {
    match r.deviation
    case PosInt(u) => IsFloat(u)
    case NegInt(_) => false
    case Float(x) =>
      if r.timestamp < TWO32 then x == 0 || x == LUCKY_SINGLE
      else NearClock(x, r.timestamp - Low32(r.timestamp) + x)
    case Double(x) => x == 0 || x == LUCKY_DOUBLE
  }

  lemma SameWhole(a: int, d: nat)
    ensures SameNumber(Whole(a), Whole(d)) <==> a == d
  {
    ScaledAtLeast(if a < 0 then -a else a, 0);
  }

  lemma DeviationExactly(r: Report)
    requires Sendable(r)
    ensures SameNumber(Meant(r.deviation), Whole(DeviationOf(r))) <==> DeviationSurvives(r)
  {
    hide SameNumber, ToFloat, NearClock, IsFloat;
    match r.deviation {
      case PosInt(u) =>
        SameWhole(u, DeviationOf(r));
        ToFloatFixes(u);
      case NegInt(i) => SameWhole(i, DeviationOf(r));
      case Float(x) =>
        if r.timestamp < TWO32 {
          SingleAlone(x);
        } else {
          SingleWithClock(x, r.timestamp - Low32(r.timestamp) + x);
        }
      case Double(x) => DoubleAlone(x);
    }
  }

  /** In single precision no deviation below 2^32 but 0.0 and the lucky pattern is ever parsed as it was
      sent, and those only below timestamp 2^32. */
  lemma SmallSingleDeviation(r: Report)
    requires Sendable(r) && r.deviation.Float? && r.deviation.bits32 < 0x4f80_0000
    ensures SameNumber(Meant(r.deviation), Whole(DeviationOf(r)))
       <==> r.timestamp < TWO32 && r.deviation.bits32 in {0, LUCKY_SINGLE}
  {
    DeviationExactly(r);
    hide SameNumber, DeviationOf;
  }

  // ---------------------------------------------------------------- the values

  lemma OddFactor(a: nat, q: nat, n: nat, s: nat) returns (t: nat)
    requires a % 2 == 1 && a * q == Scaled(s, n)
    ensures q == Scaled(t, n)
  {
    if n == 0 {
      NoDoubling();
      t := q;
    } else {
      EvenProduct(a, q, Scaled(s, n - 1));
      t := OddFactor(a, q / 2, n - 1, s);
    }
  }

  lemma EvenProduct(a: nat, q: nat, h: nat)
    requires a % 2 == 1 && a * q == 2 * h
    ensures q % 2 == 0 && a * (q / 2) == h
  {
    var b, r := a / 2, q % 2;
    assert a * q == 2 * (b * q) + q;
    assert q == 2 * (q / 2);
    assert a * q == 2 * (a * (q / 2));
  }

  lemma {:induction false} SplitScale(m: nat, k: nat, j: nat)
    ensures Scaled(m, k + j) == Scaled(Scaled(m, k), j)
    decreases j
  {
    if j == 0 {
      NoDoubling();
      ScaledAtLeast(Scaled(m, k), 0);
    } else {
      SplitScale(m, k, j - 1);
      assert Scaled(m, k + j) == 2 * Scaled(m, k + j - 1);
      assert Scaled(Scaled(m, k), j) == 2 * Scaled(Scaled(m, k), j - 1);
    }
  }

  /** The low half of a double-precision pattern. */
  function LowHalf(x: nat): Binary {
    SingleValue(Low32(x))
  }

  lemma SubnormalHalf(x: nat)
    requires x < TWO64 && 0 < x % 0x8000_0000_0000_0000 < 0x10_0000_0000_0000
    ensures !SameNumber(DoubleValue(x), LowHalf(x))
  {
    hide Pow2, Scaled;
    Powers2Wide();
    var a, b := DoubleValue(x), LowHalf(x);
    assert a.exponent == -1074 && 0 < a.significand < 0x10_0000_0000_0000;
    if SameNumber(a, b) {
      assert a.significand == Scaled(b.significand, b.exponent + 1074);
      ScaledAtLeast(0, b.exponent + 1074);
      OneScaled(52);
      ScaledMonotone(1, 52, b.significand, b.exponent + 1074);
    }
  }

  lemma OneScaled(k: nat)
    ensures Scaled(1, k) == Pow2(k)
  {
    hide Pow2;
  }

  /** A normal double that equals its low half as a single has its low 29 bits clear. */
  lemma HalfShift(a: Binary, b: Binary)
    requires a.Finite? && a.significand >= 0x10_0000_0000_0000 && b.Finite? && b.significand < 0x100_0000
    requires SameNumber(a, b)
    ensures b.exponent - a.exponent >= 29
    ensures a.significand == Scaled(b.significand, b.exponent - a.exponent)
  {
    hide Pow2;
    Powers2();
    var t := b.exponent - a.exponent;
    if t <= 0 {
      ScaledAtLeast(a.significand, -t);
    } else if t < 29 {
      ScaledMonotone(b.significand, t, 0x100_0000 - 1, 28);
    }
  }

  lemma ClearBits(m: nat, t: nat)
    requires t >= 29
    ensures Scaled(m, t) % 0x2000_0000 == 0
  {
    hide Pow2;
    Powers2();
    SplitScale(m, t - 29, 29);
    var n := Scaled(m, t - 29);
    assert Scaled(n, 29) == n * 0x2000_0000;
    MultipleDivides(n, 0x2000_0000);
  }

  lemma LowBits(x: nat)
    requires x % 0x2000_0000 == 0
    ensures Low32(x) % 0x80_0000 == 0
  {
    var y := x / 0x2000_0000;
    assert x == 0x2000_0000 * y && y == 8 * (y / 8) + y % 8;
    assert x == TWO32 * (y / 8) + 0x2000_0000 * (y % 8);
    LowRest(y / 8, 0x2000_0000 * (y % 8));
  }

  lemma LowRest(n: nat, r: nat)
    requires r < TWO32
    ensures Low32(TWO32 * n + r) == r
  {
  }

  lemma NoLowBits(x: nat)
    requires x % 0x10_0000_0000_0000 == 0
    ensures Low32(x) == 0
  {
    var y := x / 0x10_0000_0000_0000;
    assert x == TWO32 * (0x10_0000 * y) + 0;
    LowRest(0x10_0000 * y, 0);
  }

  lemma BothFinite(a: Binary, b: Binary)
    requires SameNumber(a, b)
    ensures a.Finite? && b.Finite?
  {
  }

  lemma NormalHalf(x: nat)
    requires x < TWO64 && 0x10_0000_0000_0000 <= x % 0x8000_0000_0000_0000 < 0x7ff0_0000_0000_0000
    ensures !SameNumber(DoubleValue(x), LowHalf(x))
  {
    hide SameNumber, LowHalf, DoubleValue, Scaled, Pow2;
    NormalFields(x);
    var a, b := DoubleValue(x), LowHalf(x);
    HalfFields(x);
    if SameNumber(a, b) {
      BothFinite(a, b);
      var t := b.exponent - a.exponent;
      HalfShift(a, b);
      ClearBits(b.significand, t);
      ClearBelow(x);
      ClearSignificand(b.significand, t);
    }
  }

  lemma NormalFields(x: nat)
    requires x < TWO64 && 0x10_0000_0000_0000 <= x % 0x8000_0000_0000_0000 < 0x7ff0_0000_0000_0000
    ensures DoubleValue(x).Finite?
    ensures DoubleValue(x).significand == 0x10_0000_0000_0000 + x % 0x10_0000_0000_0000
  {
  }

  /** With its low 29 bits clear the pattern's lower half is a power of two or zero, and zero if all of the
      double's fraction is. */
  lemma HalfFields(x: nat)
    requires x < TWO64
    ensures LowHalf(x).Finite? ==> LowHalf(x).significand < 0x100_0000
    ensures x % 0x2000_0000 == 0 && LowHalf(x).Finite? ==> LowHalf(x).significand in {0, 0x80_0000}
    ensures x % 0x10_0000_0000_0000 == 0 && LowHalf(x).Finite? ==> LowHalf(x).significand == 0
  {
    hide Low32;
    if x % 0x2000_0000 == 0 {
      LowBits(x);
    }
    if x % 0x10_0000_0000_0000 == 0 {
      NoLowBits(x);
    }
  }

  lemma ClearBelow(x: nat)
    requires (0x10_0000_0000_0000 + x % 0x10_0000_0000_0000) % 0x2000_0000 == 0
    ensures x % 0x2000_0000 == 0
  {
  }

  lemma ClearSignificand(m: nat, t: nat)
    requires t >= 29 && m in {0, 0x80_0000}
    ensures if m == 0 then Scaled(m, t) == 0
            else Scaled(m, t) == 0x10_0000_0000_0000 || Scaled(m, t) >= 0x20_0000_0000_0000
  {
    hide Pow2;
    Powers2();
    ScaledAtLeast(0, t);
    if m == 0x80_0000 && t > 29 {
      ScaledMonotone(m, 30, m, t);
    }
  }

  lemma ZeroHalf(x: nat)
    requires x == 0 || x == TWO63
    ensures SameNumber(DoubleValue(x), LowHalf(x))
  {
    hide Scaled;
    ScaledAtLeast(0, 925);
  }

  lemma DoubleKept(x: nat)
    requires x < TWO64
    ensures SameNumber(DoubleValue(x), LowHalf(x)) <==> x == 0 || x == TWO63
  {
    hide SameNumber, DoubleValue, LowHalf;
    var y := x % 0x8000_0000_0000_0000;
    assert x == y || x == y + TWO63;
    if y == 0 {
      ZeroHalf(x);
    } else if y < 0x10_0000_0000_0000 {
      SubnormalHalf(x);
    } else if y < 0x7ff0_0000_0000_0000 {
      NormalHalf(x);
    } else {
      InfiniteHalf(x);
    }
  }

  lemma InfiniteHalf(x: nat)
    requires x < TWO64 && x % 0x8000_0000_0000_0000 >= 0x7ff0_0000_0000_0000
    ensures !SameNumber(DoubleValue(x), LowHalf(x))
  {
    hide LowHalf, Scaled;
    var y := x % 0x8000_0000_0000_0000;
    assert x == y || x == y + TWO63;
    assert y / 0x10_0000_0000_0000 == 0x7ff;
  }

  // Integers: their low 32 bits, read as a single-precision number.

  lemma OddPower(k: nat)
    requires k >= 1
    ensures (Pow2(k) - 1) % 2 == 1 && (Pow2(k) + 1) % 2 == 1
  {
  }

  lemma LargePower(k: nat) returns (m: nat)
    requires k >= 9
    ensures Pow2(k) == 512 * m
  {
    hide Pow2;
    Powers2();
    SplitScale(1, k - 9, 9);
    m := Pow2(k - 9);
    OneScaled(k);
    OneScaled(k - 9);
  }

  /** No power of two heads its own pattern, in either sign. */
  lemma HeadResidue(k: nat, h: int)
    requires k <= 40
    ensures h >= 0 ==> Pow2(k) != 512 * h + k + 150
    ensures Pow2(k) != 512 * h - k - 406
  {
    hide Pow2;
    if k >= 9 {
      var m := LargePower(k);
    } else {
      SmallPowers(k);
    }
  }

  lemma SmallPowers(k: nat)
    requires k <= 8
    ensures Pow2(k) == [1, 2, 4, 8, 16, 32, 64, 128, 256][k]
  {
    hide Pow2;
    Powers2();
    TinyPowers();
  }

  lemma TinyPowers()
    ensures Pow2(0) == 1 && Pow2(1) == 2 && Pow2(2) == 4 && Pow2(3) == 8 && Pow2(4) == 16 && Pow2(5) == 32
  {
  }

  lemma ExponentBound(q: nat, k: nat)
    requires q >= 0x80_0000 && Scaled(q, k) < TWO64
    ensures k <= 40
  {
    hide Pow2;
    Powers2Wide();
    if k >= 41 {
      SplitScale(0x80_0000, 38, 3);
      TinyPowers();
      ScaledMonotone(0x80_0000, 41, q, k);
    }
  }

  lemma OnlyPower(a: nat, q: nat, s: nat)
    requires a % 2 == 1 && 0x80_0000 <= q < 0x100_0000 && a * q == 0x80_0000 * s
    ensures q == 0x80_0000
  {
    hide Pow2;
    Powers2();
    assert Scaled(s, 23) == 0x80_0000 * s;
    var t := OddFactor(a, q, 23, s);
    assert q == 0x80_0000 * t;
  }

  lemma NoPositive(h: nat, k: nat, q: nat)
    requires 0x80_0000 <= q < 0x100_0000 && Scaled(q, k) < TWO64
    ensures Scaled(q, k) != h * TWO32 + (k + 149) * 0x80_0000 + q
  {
    hide Pow2;
    ExponentBound(q, k);
    ScaledAtLeast(q, 0);
    if Scaled(q, k) == h * TWO32 + (k + 149) * 0x80_0000 + q && k > 0 {
      OddPower(k);
      LessOnce(Pow2(k), q);
      OnlyPower(Pow2(k) - 1, q, 512 * h + k + 149);
      HeadResidue(k, h);
    }
  }

  lemma LessOnce(p: nat, q: nat)
    requires p >= 1
    ensures (p - 1) * q == q * p - q && (p + 1) * q == q * p + q
  {
  }

  lemma NoNegative(c: int, k: nat, q: nat)
    requires 0x80_0000 <= q < 0x100_0000 && Scaled(q, k) < TWO64
    ensures Scaled(q, k) + 0x8000_0000 + (k + 149) * 0x80_0000 + q != c * TWO32
  {
    hide Pow2;
    ExponentBound(q, k);
    ScaledAtLeast(q, 0);
    if Scaled(q, k) + 0x8000_0000 + (k + 149) * 0x80_0000 + q == c * TWO32 && k > 0 {
      OddPower(k);
      LessOnce(Pow2(k), q);
      OnlyPower(Pow2(k) + 1, q, 512 * c - 405 - k);
      HeadResidue(k, c);
    }
  }

  lemma PositiveFields(x: nat)
    requires 0x80_0000 <= x < 0x7f80_0000
    ensures SingleValue(x) == Finite(false, 0x80_0000 + x % 0x80_0000, x / 0x80_0000 - 150)
  {
  }

  lemma PositiveSubnormal(u: nat, x: nat)
    requires 0 < u && x < 0x80_0000
    ensures !SameNumber(Whole(u), SingleValue(x))
  {
    hide Pow2, Scaled;
    Powers2();
    OneScaled(23);
    ScaledMonotone(1, 23, u, 149);
  }

  lemma PositiveWhole(u: nat, x: nat, h: nat)
    requires 0 < u < TWO64 && 0x4b00_0000 <= x < 0x7f80_0000 && u == h * TWO32 + x
    ensures !SameNumber(Whole(u), SingleValue(x))
  {
    hide SingleValue, Scaled;
    PositiveFields(x);
    var k, q := x / 0x80_0000 - 150, 0x80_0000 + x % 0x80_0000;
    ScaledAtLeast(u, 0);
    ScaledAtLeast(q, 0);
    if SameNumber(Whole(u), SingleValue(x)) {
      assert u == Scaled(q, k) && x == (k + 149) * 0x80_0000 + q;
      NoPositive(h, k, q);
    }
  }

  lemma PositiveFraction(u: nat, x: nat, h: nat)
    requires 0 < u && 0x80_0000 <= x < 0x4b00_0000 && u == h * TWO32 + x
    ensures !SameNumber(Whole(u), SingleValue(x))
  {
    hide SingleValue, Pow2;
    PositiveFields(x);
    Powers2();
    TinyPowers();
    var n, q := 150 - x / 0x80_0000, 0x80_0000 + x % 0x80_0000;
    if SameNumber(Whole(u), SingleValue(x)) {
      assert Scaled(u, n) == q && x == (149 - n) * 0x80_0000 + q;
      ScaledMonotone(u, 1, u, n);
    }
  }

  lemma PositiveValue(u: nat)
    requires 0 < u < TWO64
    ensures !SameNumber(Whole(u), LowHalf(u))
  {
    hide SameNumber, Scaled;
    var x, h := Low32(u), u / 0x1_0000_0000;
    assert u == h * TWO32 + x;
    if x < 0x80_0000 {
      PositiveSubnormal(u, x);
    } else if x < 0x4b00_0000 {
      PositiveFraction(u, x, h);
    } else if x < 0x7f80_0000 {
      PositiveWhole(u, x, h);
    } else {
      NotPositive(u, x);
    }
  }

  lemma NotPositive(u: nat, x: nat)
    requires u > 0 && 0x7f80_0000 <= x < TWO32
    ensures !SameNumber(Whole(u), SingleValue(x))
  {
    hide Scaled;
  }

  lemma NegativeFields(x: nat)
    requires 0x80_0000 <= x < 0x7f80_0000
    ensures SingleValue(0x8000_0000 + x) == Finite(true, 0x80_0000 + x % 0x80_0000, x / 0x80_0000 - 150)
  {
  }

  lemma NegativeSubnormal(u: nat, x: nat)
    requires 0 < u && x < 0x80_0000
    ensures !SameNumber(Whole(-(u as int)), SingleValue(0x8000_0000 + x))
  {
    hide Pow2, Scaled;
    Powers2();
    OneScaled(23);
    ScaledMonotone(1, 23, u, 149);
  }

  lemma NegativeFraction(u: nat, x: nat, c: int)
    requires 0 < u && 0x80_0000 <= x < 0x4b00_0000 && u + 0x8000_0000 + x == c * TWO32
    ensures !SameNumber(Whole(-(u as int)), SingleValue(0x8000_0000 + x))
  {
    hide SingleValue, Pow2;
    NegativeFields(x);
    TinyPowers();
    var n, q := 150 - x / 0x80_0000, 0x80_0000 + x % 0x80_0000;
    if SameNumber(Whole(-(u as int)), SingleValue(0x8000_0000 + x)) {
      assert Scaled(u, n) == q && x == (149 - n) * 0x80_0000 + q;
      ScaledMonotone(u, 1, u, n);
    }
  }

  lemma NegativeWhole(u: nat, x: nat, c: int)
    requires 0 < u < TWO64 && 0x4b00_0000 <= x < 0x7f80_0000 && u + 0x8000_0000 + x == c * TWO32
    ensures !SameNumber(Whole(-(u as int)), SingleValue(0x8000_0000 + x))
  {
    hide SingleValue, Scaled;
    NegativeFields(x);
    var k, q := x / 0x80_0000 - 150, 0x80_0000 + x % 0x80_0000;
    ScaledAtLeast(u, 0);
    ScaledAtLeast(q, 0);
    if SameNumber(Whole(-(u as int)), SingleValue(0x8000_0000 + x)) {
      assert u == Scaled(q, k) && x == (k + 149) * 0x80_0000 + q;
      NoNegative(c, k, q);
    }
  }

  lemma NotNegative(u: nat, y: nat)
    requires u > 0 && y < TWO32 && (y < 0x8000_0000 || y >= 0xff80_0000)
    ensures !SameNumber(Whole(-(u as int)), SingleValue(y))
  {
    hide Scaled;
  }

  lemma WordOfNegative(u: nat) returns (c: int)
    requires 0 < u <= TWO63
    ensures u + Low32(TWO64 - u) == c * TWO32
  {
    var w := TWO64 - u;
    assert w == TWO32 * (w / 0x1_0000_0000) + Low32(w);
    c := TWO32 - w / 0x1_0000_0000;
  }

  lemma NegativeValue(i: int)
    requires -TWO63 <= i < 0
    ensures !SameNumber(Whole(i), LowHalf(i + TWO64))
  {
    hide Low32, SameNumber, SingleValue;
    var u, y := -i, Low32(i + TWO64);
    var c := WordOfNegative(u);
    if y >= 0x8000_0000 {
      var x := y - 0x8000_0000;
      if x < 0x80_0000 {
        NegativeSubnormal(u, x);
      } else if x < 0x4b00_0000 {
        NegativeFraction(u, x, c);
      } else if x < 0x7f80_0000 {
        NegativeWhole(u, x, c);
      } else {
        NotNegative(u, y);
      }
    } else {
      NotNegative(u, y);
    }
  }

  // Main results.

  /** When the stored value, which every reader takes for a single-precision number, is the number sent: any
      finite single-precision number; of the double-precision numbers and of the integers, only zero. */
  predicate ValueSurvives(item: Item)
    requires Numeric(item)
  {
    match item
    case PosInt(u) => u == 0
    case NegInt(_) => false
    case Float(x) => SingleValue(x).Finite?
    case Double(x) => x == 0 || x == TWO63
  }

  lemma ValueExactly(item: Item)
    requires Numeric(item)
    ensures SameNumber(Meant(item), SingleValue(ValueBits(item))) <==> ValueSurvives(item)
  {
    hide SameNumber;
    match item {
      case PosInt(u) =>
        if u == 0 {
          ZeroSingle();
          ZeroIsZero();
        } else {
          PositiveValue(u);
        }
      case NegInt(i) => NegativeValue(i);
      case Float(x) => SameAsItself(SingleValue(x));
      case Double(x) => DoubleKept(x);
    }
  }

  lemma SameAsItself(a: Binary)
    ensures SameNumber(a, a) <==> a.Finite?
  {
    if a.Finite? {
      ScaledAtLeast(a.significand, 0);
    }
  }

  lemma ZeroIsZero()
    ensures SameNumber(Whole(0), SingleValue(0))
  {
    hide Scaled;
    ScaledAtLeast(0, 149);
  }

  /** The i32 member of the value's union, which the parser writes for an integer and nobody reads, holds
      the integer exactly when it fits. */
  lemma IntegerExactly(item: Item)
    requires Numeric(item) && (item.PosInt? || item.NegInt?)
    ensures var i := if item.PosInt? then item.u else item.i;
            Signed(ValueBits(item), 4) == i <==> -0x8000_0000 <= i < 0x8000_0000
  {
    Powers();
  }
}
