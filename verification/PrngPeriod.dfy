/** The generator's state runs through all 2^64 values before it repeats. */
module PrngPeriod {
  import opened Int32
  import Prng

  /** One step of the state, as `Prng.Generator.Int` makes it. */
  function Next(x: nat): nat {
    (x * Prng.MULTIPLIER + 1) % Pow2(64)
  }

  function State(x: nat, n: nat): nat {
    if n == 0 then x else Next(State(x, n - 1))
  }

  /** 1 + a + ... + a^(n-1). */
  function Sum(a: nat, n: nat): (s: nat) {
    if n == 0 then 0 else a * Sum(a, n - 1) + 1
  }

  predicate Divides(d: nat, x: int)
    requires d > 0
  {
    x % d == 0
  }

  lemma DividesBy(d: nat, x: int, q: int)
    requires d > 0 && x == d * q
    ensures Divides(d, x)
  {
    ModUnique(x, d, q, 0);
  }

  /** Powers of two see through odd factors. */
  lemma {:induction false} OddFactor(k: nat, u: nat, c: nat)
    ensures Divides(Pow2(k), u * (2 * c + 1)) <==> Divides(Pow2(k), u)
    decreases k
  {
    if k > 0 {
      var p := Pow2(k - 1);
      var v := u / 2;
      Distribute(u, 2 * c, 1);
      assert u * (2 * c) == 2 * (u * c);
      if u % 2 == 1 {
        var w := u * c + v;
        assert u * (2 * c + 1) == 2 * w + 1;
        OddIsOdd(p, w);
        OddIsOdd(p, v);
      } else {
        OddFactor(k - 1, v, c);
        assert u * (2 * c + 1) == 2 * (v * (2 * c + 1));
        Doubles(p, v);
        Doubles(p, v * (2 * c + 1));
      }
    }
  }

  lemma OddIsOdd(p: nat, w: nat)
    requires p > 0
    ensures !Divides(2 * p, 2 * w + 1)
  {
    var x, q := 2 * w + 1, (2 * w + 1) / (2 * p);
    assert x == 2 * p * q + x % (2 * p);
    assert 2 * p * q == 2 * (p * q);
  }

  lemma Doubles(p: nat, v: nat)
    requires p > 0
    ensures Divides(2 * p, 2 * v) <==> Divides(p, v)
  {
    var q, r := v / p, v % p;
    assert v == p * q + r;
    assert 2 * v == 2 * p * q + 2 * r;
    ModUnique(2 * v, 2 * p, q, 2 * r);
  }

  lemma {:induction false} SumAdd(a: nat, m: nat, n: nat)
    requires a > 0
    ensures Sum(a, m + n) == ((a - 1) * Sum(a, m) + 1) * Sum(a, n) + Sum(a, m)
    decreases n
  {
    if n > 0 {
      SumAdd(a, m, n - 1);
      SumAddStep(a, (a - 1) * Sum(a, m) + 1, Sum(a, n - 1), Sum(a, m));
    }
  }

  lemma SumAddStep(a: int, g: int, s: int, t: int)
    requires g == (a - 1) * t + 1
    ensures a * (g * s + t) + 1 == g * (a * s + 1) + t
  {
    assert a * (g * s + t) == a * (g * s) + a * t;
    assert g * (a * s + 1) == g * (a * s) + g;
    assert a * (g * s) == g * (a * s);
    assert (a - 1) * t == a * t - t;
  }

  /** For a multiplier that is 1 modulo 4, summing twice as far multiplies the sum by twice an odd number. */
  lemma SumDouble(b: nat, m: nat)
    ensures var s := Sum(4 * b + 1, m); Sum(4 * b + 1, 2 * m) == 2 * (s * (2 * (b * s) + 1))
  {
    var a, s := 4 * b + 1, Sum(4 * b + 1, m);
    SumAdd(a, m, m);
    hide Sum;
    DoubleIdentity(b, s);
  }

  lemma DoubleIdentity(b: int, s: int)
    ensures (4 * b * s + 1) * s + s == 2 * (s * (2 * (b * s) + 1))
  {
    assert 4 * b * s == 4 * (b * s);
    assert (4 * (b * s) + 1) * s == 4 * (b * s) * s + s;
    assert s * (2 * (b * s) + 1) == 2 * (b * s) * s + s;
  }

  /** Such a sum has as many factors of two as its number of terms. */
  lemma {:induction false} SumFactors(k: nat, b: nat, n: nat)
    ensures Divides(Pow2(k), Sum(4 * b + 1, n)) <==> Divides(Pow2(k), n)
    decreases k
  {
    if k > 0 {
      var p, m := Pow2(k - 1), n / 2;
      var s := Sum(4 * b + 1, m);
      SumDouble(b, m);
      hide Sum;
      if n % 2 == 0 {
        SumFactors(k - 1, b, m);
        NonNegative(b, s);
        var c: nat := b * s;
        NonNegative(s, 2 * c + 1);
        Doubles(p, m);
        Doubles(p, s * (2 * c + 1));
        OddFactor(k - 1, s, c);
      } else {
        assert Sum(4 * b + 1, 2 * m + 1) % 2 == 1 by {
          SumDouble(b, m);
          var s := Sum(4 * b + 1, m);
          var half := s * (2 * (b * s) + 1);
          assert Sum(4 * b + 1, 2 * m + 1) == (4 * b + 1) * (2 * half) + 1;
          hide Sum;
          OddIdentity(4 * b + 1, half);
        }
        var t: nat := Sum(4 * b + 1, 2 * m);
        OddIsOdd(p, m);
        OddIsOdd(p, Sum(4 * b + 1, n) / 2);
      }
    }
  }

  lemma OddIdentity(a: nat, half: int)
    ensures (a * (2 * half) + 1) % 2 == 1
  {
    assert a * (2 * half) == 2 * (a * half);
  }

  const QUARTER: nat := (Prng.MULTIPLIER - 1) / 4

  /** The state after `n` steps, modulo 2^64, in closed form. */
  lemma {:induction false} Closed(x: nat, n: nat, d: nat)
    requires d == (Prng.MULTIPLIER - 1) * x + 1
    ensures Divides(Pow2(64), State(x, n) - (x + Sum(Prng.MULTIPLIER, n) * d))
  {
    hide Pow2;
    if n == 0 {
      DividesBy(Pow2(64), 0, 0);
    } else {
      Closed(x, n - 1, d);
      var y, s := State(x, n - 1), Sum(Prng.MULTIPLIER, n - 1);
      ClosedStep(Prng.MULTIPLIER, x, s, d, Pow2(64), y, Next(y), Prng.MULTIPLIER * s + 1);
    }
  }

  lemma {:induction false} ClosedStep(a: int, x: int, s: int, d: int, p: nat, y: nat, y': nat, s': int)
    requires p > 0 && a > 0 && d == (a - 1) * x + 1 && Divides(p, y - (x + s * d))
    requires y' == (y * a + 1) % p && s' == a * s + 1
    ensures Divides(p, y' - (x + s' * d))
  {
    var q, r := (y - (x + s * d)) / p, (y * a + 1) / p;
    assert y - (x + s * d) == p * q && y * a + 1 == p * r + (y * a + 1) % p;
    ClosedIdentity(a, x, s, d, p, q, y);
    Distribute(p, a * q, 0 - r);
    DividesBy(p, y' - (x + s' * d), a * q - r);
  }

  lemma {:induction false} ClosedIdentity(a: int, x: int, s: int, d: int, p: int, q: int, y: int)
    requires d == (a - 1) * x + 1 && y == x + s * d + p * q
    ensures y * a + 1 == x + (a * s + 1) * d + p * (a * q)
  {
    assert y * a == x * a + s * d * a + p * q * a;
    assert (a * s + 1) * d == a * s * d + d;
    assert s * d * a == a * s * d && p * q * a == p * (a * q);
    assert (a - 1) * x == a * x - x;
  }

  /** A state recurs after exactly the multiples of 2^64 steps. */
  lemma Recurs(x: nat, n: nat)
    requires x < Pow2(64)
    ensures State(x, n) == x <==> Divides(Pow2(64), n)
  {
    hide Pow2;
    hide State;
    hide Sum;
    hide Divides;
    var a, p, b := Prng.MULTIPLIER, Pow2(64), QUARTER;
    assert a == 4 * b + 1;
    var s, c := Sum(a, n), 2 * (b * x);
    assert (a - 1) * x + 1 == 2 * c + 1;
    Closed(x, n, 2 * c + 1);
    NonNegative(b, x);
    OddFactor(64, s, c);
    SumFactors(64, b, n);
    StateBelow(x, n);
    NonNegative(s, 2 * c + 1);
    SameResidue(p, State(x, n), x, s * (2 * c + 1));
  }

  lemma StateBelow(x: nat, n: nat)
    requires x < Pow2(64)
    ensures State(x, n) < Pow2(64)
  {
  }

  lemma SameResidue(p: nat, y: nat, x: nat, t: nat)
    requires p > 0 && y < p && x < p && Divides(p, y - (x + t))
    ensures y == x <==> Divides(p, t)
  {
    var q := (y - (x + t)) / p;
    assert y - (x + t) == p * q;
    if y == x {
      Distribute(p, q, 0 - q);
      DividesBy(p, t, 0 - q);
    }
    if Divides(p, t) {
      var r := t / p;
      assert t == p * r;
      Distribute(p, q, r);
      var k := q + r;
      var z := y - x;
      assert z == 0 by {
        if k >= 1 {
          AtLeast(p, k);
        } else if k <= -1 {
          AtLeast(p, 0 - k);
          Distribute(p, k, 0 - k);
        }
      }
    }
  }

  lemma {:induction false} StateAdd(x: nat, m: nat, n: nat)
    ensures State(x, m + n) == State(State(x, m), n)
    decreases n
  {
    if n > 0 {
      StateAdd(x, m, n - 1);
    }
  }

  /** From any state, 2^64 steps visit 2^64 different states and then return. */
  lemma FullPeriod(x: nat)
    requires x < Pow2(64)
    ensures forall i: nat, j: nat :: i < j < Pow2(64) ==> State(x, i) != State(x, j)
    ensures State(x, Pow2(64)) == x
  {
    hide Pow2;
    DividesBy(Pow2(64), Pow2(64), 1);
    Recurs(x, Pow2(64));
    forall i: nat, j: nat | i < j < Pow2(64)
      ensures State(x, i) != State(x, j)
    {
      StateAdd(x, i, j - i);
      StateBelow(x, i);
      Recurs(State(x, i), j - i);
      ModUnique(j - i, Pow2(64), 0, j - i);
    }
  }
}
