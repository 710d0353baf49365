/** The few Python built-ins the backend relies on, stated exactly: `min`, `max`,
    `abs`, `int()` on a float (truncation toward zero), `math.ceil` of an integer
    quotient, and `str()` of a non-negative integer. */
module Numeric {

  function Min(a: real, b: real): real { if a <= b then a else b }

  function Max(a: real, b: real): real { if a >= b then a else b }

  function Abs(a: real): real { if a >= 0.0 then a else -a }

  function MinInt(a: int, b: int): int { if a <= b then a else b }

  function MaxInt(a: int, b: int): int { if a >= b then a else b }

  /** Python `int(x)` for a float: the integer part, rounding toward zero. */
  function TruncToInt(x: real): (n: int)
    ensures 0.0 <= x ==> n as real <= x < n as real + 1.0
    ensures x < 0.0 ==> n as real - 1.0 < x <= n as real
  {
    if x >= 0.0 then x.Floor else -((-x).Floor)
  }

  /** `math.ceil(n / d)` for a non-negative integer `n` and a positive `d`:
      the least multiple count whose product with `d` reaches `n`. */
  function CeilDiv(n: nat, d: nat): (q: nat)
    requires d > 0
    ensures q * d >= n
    ensures q == 0 || (q - 1) * d < n
  {
    (n + d - 1) / d
  }

  /** The two facts of `CeilDiv`'s contract single out its value. */
  lemma CeilDivUnique(n: nat, d: nat, q: nat)
    requires d > 0 && q * d >= n && (q == 0 || (q - 1) * d < n)
    ensures q == CeilDiv(n, d)
  {
    var c := CeilDiv(n, d);
    if q < c {
      MulMono(q, c - 1, d);
      assert false;
    } else if c < q {
      MulMono(c, q - 1, d);
      assert false;
    }
  }

  lemma MulMono(a: int, b: int, k: nat)
    requires a <= b
    ensures a * k <= b * k
  {
    assert (b - a) * k >= 0;
  }

  /** Products of naturals grow with both factors. */
  lemma ProductMono(a: nat, b: nat, a2: nat, b2: nat)
    requires a <= a2 && b <= b2
    ensures a * b <= a2 * b2
  {
    MulMono(a, a2, b);
    MulMono(b, b2, a2);
  }

  /** Scaling by a positive real keeps the order of two integers. */
  lemma MulMonoReal(a: int, b: int, t: real)
    requires a <= b && t > 0.0
    ensures a as real * t <= b as real * t
  {
    assert (b as real - a as real) * t >= 0.0;
  }

  /** Scaling by a positive real brackets `q * t` between the scaled floor of `q`
      and the scaled next integer. */
  lemma FloorScaled(q: real, t: real)
    requires t > 0.0
    ensures q.Floor as real * t <= q * t < (q.Floor + 1) as real * t
  {
    assert (q - q.Floor as real) * t >= 0.0;
    assert ((q.Floor + 1) as real - q) * t > 0.0;
  }

  /** The floor of a quotient `n / d` brackets `n` between multiples of `d`. */
  lemma QuotientFloorBracket(n: real, d: real, q: real)
    requires d > 0.0 && q == n / d
    ensures q.Floor as real * d <= n < (q.Floor + 1) as real * d
  {
    assert q * d == n;
    FloorScaled(q, d);
    assert q * d < (q.Floor + 1) as real * d;
    assert n < (q.Floor + 1) as real * d;
  }

  /** Row-major index arithmetic: cell `c` of row `r` sits at `r * cols + c`. */
  lemma RowMajorDivMod(r: nat, c: nat, cols: nat)
    requires c < cols
    ensures (r * cols + c) / cols == r && (r * cols + c) % cols == c
  {
    var a := r * cols + c;
    var q, m := a / cols, a % cols;
    assert a == q * cols + m;
    if q > r {
      MulMono(r + 1, q, cols);
      assert false;
    } else if q < r {
      MulMono(q + 1, r, cols);
      assert false;
    }
  }

  /** Euclidean division of a natural number by a positive one, in the terms the
      solver does not derive on its own once the divisor is a product. */
  lemma DivBounds(p: nat, n: nat)
    requires n >= 1
    ensures 0 <= p / n <= p && 0 <= p % n < n && (p / n) * n + p % n == p
  {
  }

  function DigitChar(d: nat): char
    requires d < 10
  {
    "0123456789"[d]
  }

  function DigitValue(ch: char): nat
  {
    if '0' <= ch <= '9' then (ch as int - '0' as int) as nat else 0
  }

  /** Python `str(n)` for a non-negative integer: its decimal digits. */
  function NatToString(n: nat): (s: string)
    ensures |s| >= 1
    ensures forall i :: 0 <= i < |s| ==> '0' <= s[i] <= '9'
    ensures s[0] != '0' || n == 0
  {
    if n < 10 then [DigitChar(n)] else NatToString(n / 10) + [DigitChar(n % 10)]
  }

  /** Python `str(n)` for any integer: a minus sign before the digits of a
      negative number. */
  function IntToString(n: int): (s: string)
    ensures n >= 0 ==> s == NatToString(n)
    ensures n < 0 ==> |s| >= 2 && s[0] == '-' && s[1..] == NatToString(-n)
  {
    if n >= 0 then NatToString(n) else "-" + NatToString(-n)
  }

  /** Reads a string of decimal digits back as a number. */
  function ParseDigits(s: string): nat
  {
    if |s| == 0 then 0 else ParseDigits(s[..|s| - 1]) * 10 + DigitValue(s[|s| - 1])
  }

  lemma {:induction false} ParseNatToString(n: nat)
    ensures ParseDigits(NatToString(n)) == n
  {
    var s := NatToString(n);
    if n < 10 {
      assert s[..|s| - 1] == [];
    } else {
      var t := NatToString(n / 10);
      assert s[..|s| - 1] == t;
      ParseNatToString(n / 10);
    }
  }

  /** Distinct numbers give distinct decimal strings. */
  lemma NatToStringInjective(a: nat, b: nat)
    requires NatToString(a) == NatToString(b)
    ensures a == b
  {
    ParseNatToString(a);
    ParseNatToString(b);
  }
}
