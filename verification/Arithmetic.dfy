/** Powers of two and the division laws that cut numbers into digits. */
module Arithmetic {

  function PowerOfTwo(n: nat): (p: nat)
    ensures p >= 1
  {
    if n == 0 then 1 else 2 * PowerOfTwo(n - 1)
  }

  lemma {:induction false} PowerAdd(a: nat, b: nat)
    ensures PowerOfTwo(a + b) == PowerOfTwo(a) * PowerOfTwo(b)
  {
    if a == 0 {
    } else {
      PowerAdd(a - 1, b);
      Associate(2, PowerOfTwo(a - 1), PowerOfTwo(b));
    }
  }

  lemma {:induction false} Associate(a: int, b: int, c: int)
    ensures a * (b * c) == (a * b) * c
  {
  }

  lemma {:induction false} PowerSixteen()
    ensures PowerOfTwo(16) == 0x1_0000
  {
    assert PowerOfTwo(4) == 16;
    PowerAdd(4, 4);
    PowerAdd(8, 8);
  }

  lemma {:induction false} MulAtMost(x: int, y: int, m: nat)
    requires x <= y
    ensures x * m <= y * m
  {
  }

  lemma {:induction false} MulNext(x: int, m: int)
    ensures (x + 1) * m == x * m + m
  {
  }

  lemma {:induction false} QuotientIsUnique(z: int, m: nat, x: int, y: nat, q: int, r: nat)
    requires y < m && r < m && z == x * m + y && z == q * m + r
    ensures x == q
  {
    MulNext(x, m);
    MulNext(q, m);
    if x < q {
      MulAtMost(x + 1, q, m);
    } else if x > q {
      MulAtMost(q + 1, x, m);
    }
  }

  /** The quotient, by what characterises it. */
  function Quotient(z: nat, m: nat): nat
    requires m >= 1
  {
    if z < m then 0 else Quotient(z - m, m) + 1
  }

  lemma {:induction false} QuotientBounds(z: nat, m: nat)
    requires m >= 1
    ensures Quotient(z, m) * m <= z < Quotient(z, m) * m + m
    decreases z
  {
    if z < m {
    } else {
      QuotientBounds(z - m, m);
      MulNext(Quotient(z - m, m), m);
    }
  }

  /** Which is what division computes. */
  lemma {:induction false} QuotientIsDivision(z: nat, m: nat)
    requires m >= 1
    ensures Quotient(z, m) == z / m
  {
    var q := Quotient(z, m);
    QuotientBounds(z, m);
    QuotientIsUnique(z, m, z / m, z % m, q, z - q * m);
  }

  lemma {:induction false} QuotientIs(z: nat, m: nat, x: nat, y: nat)
    requires y < m && z == x * m + y
    ensures Quotient(z, m) == x
  {
    var q := Quotient(z, m);
    QuotientBounds(z, m);
    QuotientIsUnique(z, m, x, y, q, z - q * m);
  }

  /** A digit and a remainder are less than the whole. */
  lemma {:induction false} TwoDigits(t: nat, r: nat, a: nat, b: nat)
    requires r < a && t < b
    ensures 0 <= t * a + r < b * a
  {
    MulAtMost(0, t, a);
    MulAtMost(t + 1, b, a);
    MulNext(t, a);
  }

  lemma {:induction false} Regroup(s: int, b: int, t: int, a: int)
    ensures (s * b + t) * a == s * (b * a) + t * a
  {
    Associate(s, b, a);
    Distribute(s * b, t, a);
  }

  lemma {:induction false} Distribute(x: int, y: int, a: int)
    ensures (x + y) * a == x * a + y * a
  {
  }

  /** Dividing twice is dividing by the product. */
  lemma {:induction false} QuotientTwice(x: nat, a: nat, b: nat)
    requires a >= 1 && b >= 1
    ensures b * a >= 1 && Quotient(x, b * a) == Quotient(Quotient(x, a), b)
  {
    var q := Quotient(x, a);
    var s := Quotient(q, b);
    QuotientBounds(x, a);
    QuotientBounds(q, b);
    var r, t := x - q * a, q - s * b;
    MulAtMost(1, b, a);
    TwoDigits(t, r, a, b);
    assert q == s * b + t;
    Regroup(s, b, t, a);
    QuotientIs(x, b * a, s, t * a + r);
  }

  /** Dropping a last digit of sixteen bits together with further bits. */
  lemma {:induction false} DropSixteen(high: nat, g: nat, rest: nat)
    requires g < 0x1_0000
    ensures Quotient(high * 0x1_0000 + g, PowerOfTwo(rest + 16)) == Quotient(high, PowerOfTwo(rest))
  {
    PowerSixteen();
    PowerAdd(rest, 16);
    QuotientTwice(high * 0x1_0000 + g, 0x1_0000, PowerOfTwo(rest));
    QuotientIs(high * 0x1_0000 + g, 0x1_0000, high, g);
  }

  /** Dividing a number by the lower part of its base splits the last digit. */
  lemma {:induction false} QuotientSplit(high: nat, top: nat, unit: nat, g: nat)
    requires unit >= 1 && g < top * unit
    ensures Quotient(g, unit) < top
    ensures high * (top * unit) >= 0 && Quotient(high * (top * unit) + g, unit) == high * top + Quotient(g, unit)
  {
    var u := Quotient(g, unit);
    QuotientBounds(g, unit);
    var v := g - u * unit;
    if u >= top { MulAtMost(top, u, unit); }
    MulAtMost(0, high, top);
    Regroup(high, top, u, unit);
    MulAtMost(0, high * top + u, unit);
    Distribute(high * top, u, unit);
    MulAtMost(0, high * top, unit);
    Associate(high, top, unit);
    QuotientIs(high * (top * unit) + g, unit, high * top + u, v);
  }

  /** Two digits determine a number and are determined by it. */
  lemma {:induction false} DigitsAgree(x: nat, y: nat, u: nat, v: nat, base: nat)
    requires u < base && v < base
    ensures x * base + u == y * base + v <==> x == y && u == v
  {
    if x * base + u == y * base + v { QuotientIsUnique(x * base + u, base, x, u, y, v); }
  }
}
