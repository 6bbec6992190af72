/** Events, and the conversion of the deviation between the wire's integer and the header's float. */
module Events {
  import opened Bytes

  const EVENT_UPDATE: int := 0
  const EVENT_ERROR: int := 1
  const EVENT_MAX: int := 2

  const MAX_VARS_PER_EVENT: nat := 8
  const MAX_TWINS: nat := 10
  const MAX_VARS_PER_TWINS: nat := 20
  const QUEUE_SIZE: nat := 1024
  const ZMQ_BUFFER_SIZE: nat := 1024

  /** `deviation` is the value of a float that came from an unsigned integer, so it is a natural number. */
  datatype Header = Header(kind: nat, timestamp: nat, deviation: nat, twinId: nat)

  /** The value is the four bytes of the f32/i32 union. */
  datatype Update = Update(varId: nat, bits: nat)

  datatype Payload = Updates(updates: seq<Update>) | Failure(errorCode: nat, message: seq<byte>)

  datatype Event = Event(header: Header, payload: Payload)

  // ---------------------------------------------------------------- unsigned integer to float

  function Pow2(e: nat): (p: nat)
    ensures p >= 1
  {
    if e == 0 then 1 else 2 * Pow2(e - 1)
  }

  /** The nearest multiple of 2^e, ties to the even multiple. */
  function RoundAt(v: nat, e: nat): nat {
    var u := Pow2(e);
    var q, r := v / u, v % u;
    if 2 * r < u || (2 * r == u && q % 2 == 0) then Scaled(q, e) else Scaled(q + 1, e)
  }

  /** Rounding to 24 significant bits, starting from the exponent `e`. */
  function RoundFrom(v: nat, e: nat): nat
    decreases v - Pow2(e)
  {
    if v < 0x100_0000 * Pow2(e) then RoundAt(v, e) else RoundFrom(v, e + 1)
  }

  /** The value of `(float)v`. */
  function ToFloat(v: nat): nat {
    RoundFrom(v, 0)
  }

  /** A natural number with at most 24 significant bits. */
  ghost predicate IsFloat(v: nat) {
    exists m: nat, k: nat :: m <= 0x100_0000 && v == Scaled(m, k)
  }

  function Scaled(m: nat, k: nat): nat {
    m * Pow2(k)
  }

  lemma MultipleDivides(m: nat, u: nat)
    requires u >= 1
    ensures m * u / u == m && m * u % u == 0
  {
    var v := m * u;
    QuotientUnique(u, m, 0, v / u, v % u);
  }

  lemma QuotientBelow(v: nat, u: nat, c: nat)
    requires u >= 1 && v < c * u
    ensures v / u < c
  {
    var q := v / u;
    assert v == u * q + v % u;
    if q >= c {
      AtLeastFactor(u, q - c);
    }
  }

  lemma RoundAtMultiple(m: nat, e: nat)
    ensures RoundAt(Scaled(m, e), e) == Scaled(m, e)
  {
    MultipleDivides(m, Pow2(e));
  }

  lemma {:induction false} ScaledDown(m: nat, e: nat, k: nat) returns (n: nat)
    requires e <= k
    ensures Scaled(m, k) == Scaled(n, e)
    decreases k - e
  {
    if e < k {
      n := ScaledDown(2 * m, e, k - 1);
      assert Scaled(2 * m, k - 1) == Scaled(m, k);
    } else {
      n := m;
    }
  }

  lemma {:induction false} FloatStays(m: nat, k: nat, e: nat)
    requires m <= 0x100_0000 && e <= k
    ensures RoundFrom(Scaled(m, k), e) == Scaled(m, k)
    decreases k - e
  {
    var v := Scaled(m, k);
    if v < 0x100_0000 * Pow2(e) {
      var n := ScaledDown(m, e, k);
      RoundAtMultiple(n, e);
    } else if e < k {
      FloatStays(m, k, e + 1);
    } else {
      assert v == Scaled(0x80_0000, e + 1);
      RoundAtMultiple(0x80_0000, e + 1);
    }
  }

  lemma RoundAtIsScaled(v: nat, e: nat) returns (m: nat)
    requires v < 0x100_0000 * Pow2(e)
    ensures m <= 0x100_0000 && RoundAt(v, e) == Scaled(m, e)
  {
    hide Scaled, Pow2;
    var q := v / Pow2(e);
    QuotientBelow(v, Pow2(e), 0x100_0000);
    m := if RoundAt(v, e) == Scaled(q, e) then q else q + 1;
  }

  lemma {:induction false} RoundedIsFloat(v: nat, e: nat)
    ensures IsFloat(RoundFrom(v, e))
    decreases v - Pow2(e)
  {
    hide RoundAt, Scaled;
    if v < 0x100_0000 * Pow2(e) {
      var m := RoundAtIsScaled(v, e);
    } else {
      RoundedIsFloat(v, e + 1);
    }
  }

  /** The conversion lands on the numbers with 24 significant bits and moves no other. */
  lemma ToFloatFixes(v: nat)
    ensures IsFloat(ToFloat(v))
    ensures ToFloat(v) == v <==> IsFloat(v)
    ensures ToFloat(ToFloat(v)) == ToFloat(v)
  {
    RoundedIsFloat(v, 0);
    var m: nat, k: nat :| m <= 0x100_0000 && ToFloat(v) == Scaled(m, k);
    FloatStays(m, k, 0);
    if IsFloat(v) {
      var m': nat, k': nat :| m' <= 0x100_0000 && v == Scaled(m', k');
      FloatStays(m', k', 0);
    }
  }

  function Gap(a: nat, b: nat): nat {
    if a <= b then b - a else a - b
  }

  lemma ScaledOrder(a: nat, b: nat, e: nat)
    requires a < b
    ensures Scaled(b, e) >= Scaled(a, e) + Pow2(e)
    ensures b > a + 1 ==> Scaled(b, e) > Scaled(a, e) + Pow2(e)
  {
    hide Pow2;
    var u := Pow2(e);
    assert b * u == a * u + u + (b - a - 1) * u;
    AtLeastFactor(u, b - a - 1);
  }

  /** No multiple of 2^e is nearer than the chosen one, and of two equally near ones it is the even one. */
  lemma RoundAtNearest(v: nat, e: nat, n: nat)
    ensures Gap(RoundAt(v, e), v) <= Gap(Scaled(n, e), v)
    ensures Scaled(n, e) != RoundAt(v, e) && Gap(RoundAt(v, e), v) == Gap(Scaled(n, e), v) ==>
              exists q: nat :: RoundAt(v, e) == Scaled(q, e) && q % 2 == 0 && (n == q + 1 || n + 1 == q)
  {
    hide Pow2;
    var u := Pow2(e);
    var q, r := v / u, v % u;
    assert Scaled(q, e) + r == v;
    ScaledOrder(q, q + 1, e);
    assert Scaled(q + 1, e) == Scaled(q, e) + u;
    hide Scaled;
    if n < q {
      ScaledOrder(n, q, e);
    } else if n > q + 1 {
      ScaledOrder(q + 1, n, e);
    }
  }

  /** At or above 2^23 units of 2^e, a float is a whole number of them. */
  lemma FloatGrid(f: nat, v: nat, e: nat) returns (n: nat)
    requires IsFloat(f) && (e == 0 || Scaled(0x80_0000, e) <= v)
    ensures f == Scaled(n, e) || f < Scaled(n, e) <= v
  {
    var m: nat, k: nat :| m <= 0x100_0000 && f == Scaled(m, k);
    if e <= k {
      n := ScaledDown(m, e, k);
    } else {
      n := 0x80_0000;
      Pow2Monotone(k, e - 1);
      ScaledBelow(m, k, e);
    }
  }

  lemma ScaledBelow(m: nat, k: nat, e: nat)
    requires m <= 0x100_0000 && 2 * Pow2(k) <= Pow2(e)
    ensures Scaled(m, k) <= Scaled(0x80_0000, e)
  {
    hide Pow2;
    var u := Pow2(k);
    assert 0x100_0000 * u == m * u + (0x100_0000 - m) * u;
    assert (0x100_0000 - m) * u >= 0;
  }

  lemma {:induction false} RoundFromNearest(v: nat, e: nat, f: nat)
    requires IsFloat(f) && (e == 0 || Scaled(0x80_0000, e) <= v)
    ensures Gap(RoundFrom(v, e), v) <= Gap(f, v)
    ensures f != RoundFrom(v, e) && Gap(RoundFrom(v, e), v) == Gap(f, v) ==>
              exists q: nat, k: nat ::
                && RoundFrom(v, e) == Scaled(q, k) && q % 2 == 0
                && (f == Scaled(q + 1, k) || (q > 0 && f == Scaled(q - 1, k)))
    decreases v - Pow2(e)
  {
    hide RoundAt, IsFloat;
    if v < 0x100_0000 * Pow2(e) {
      var n := FloatGrid(f, v, e);
      RoundAtNearest(v, e, n);
    } else {
      assert Scaled(0x80_0000, e + 1) == 0x100_0000 * Pow2(e);
      RoundFromNearest(v, e + 1, f);
    }
  }

  /** The conversion is to the nearest float, and half way between two of them to the one with the even
      significand. */
  lemma ToFloatNearest(v: nat, f: nat)
    requires IsFloat(f)
    ensures Gap(ToFloat(v), v) <= Gap(f, v)
    ensures f != ToFloat(v) && Gap(ToFloat(v), v) == Gap(f, v) ==>
              exists q: nat, k: nat ::
                ToFloat(v) == Scaled(q, k) && q % 2 == 0 && (f == Scaled(q + 1, k) || (q > 0 && f == Scaled(q - 1, k)))
  {
    RoundFromNearest(v, 0, f);
  }

  lemma Pow2Forty()
    ensures Pow2(39) == 0x80_0000_0000 && Pow2(40) == 0x100_0000_0000
  {
    assert Pow2(10) == 0x400;
    assert Pow2(20) == 0x10_0000;
    assert Pow2(30) == 0x4000_0000;
  }

  lemma {:induction false} Pow2Monotone(e: nat, k: nat)
    requires e <= k
    ensures Pow2(e) <= Pow2(k)
  {
    if e < k {
      Pow2Monotone(e, k - 1);
    }
  }

  /** In the binade of 2^k the conversion rounds to a multiple of 2^k. */
  lemma {:induction false} Binade(v: nat, e: nat, k: nat)
    requires e <= k && v < 0x100_0000 * Pow2(k) && (e < k ==> 0x100_0000 * Pow2(k - 1) <= v)
    ensures RoundFrom(v, e) == RoundAt(v, k)
    decreases k - e
  {
    hide RoundAt;
    if e < k {
      Pow2Monotone(e, k - 1);
      Binade(v, e + 1, k);
    }
  }

  lemma RoundAtBound(v: nat, e: nat)
    ensures RoundAt(v, e) <= v + Pow2(e)
  {
    hide Pow2;
    var u := Pow2(e);
    var q := v / u;
    assert v == q * u + v % u;
    assert Scaled(q, e) == q * u && Scaled(q + 1, e) == q * u + u;
  }

  lemma {:induction false} LowerBinades(v: nat, e: nat)
    requires v < TWO63 && e <= 39
    ensures RoundFrom(v, e) <= v + 0x80_0000_0000
    decreases 39 - e
  {
    Pow2Forty();
    Pow2Monotone(e, 39);
    if v < 0x100_0000 * Pow2(e) {
      RoundAtBound(v, e);
    } else {
      LowerBinades(v, e + 1);
    }
  }

  /** The converted deviation can be converted back exactly when it is below 2^64, which fails only for
      the topmost 2^39 integers: they round up to 2^64. */
  lemma DeviationFits(v: nat)
    requires v < TWO64
    ensures ToFloat(v) <= TWO64
    ensures ToFloat(v) < TWO64 <==> v < TWO64 - 0x80_0000_0000
  {
    if v < TWO63 {
      LowerBinades(v, 0);
    } else {
      Pow2Forty();
      Binade(v, 0, 40);
    }
  }
}
