/** The 32-bit operators of ECMAScript, on integers. */
module Int32 {

  function Pow2(n: nat): (p: nat)
    ensures p > 0
  {
    if n == 0 then 1 else 2 * Pow2(n - 1)
  }

  const WORD: nat := 0x1_0000_0000

  /** ToUint32 and, below, the signed reading of the same 32 bits. */
  function Unsigned(x: int): (u: nat)
    ensures u < WORD
  {
    x % WORD
  }

  function Signed(u: nat): int {
    if u >= 0x8000_0000 then u - WORD else u
  }

  function BitAnd(x: nat, y: nat): nat
    decreases x
  {
    if x == 0 then 0 else (if x % 2 == 1 && y % 2 == 1 then 1 else 0) + 2 * BitAnd(x / 2, y / 2)
  }

  function BitOr(x: nat, y: nat): nat
    decreases x + y
  {
    if x == 0 && y == 0 then 0 else (if x % 2 == 1 || y % 2 == 1 then 1 else 0) + 2 * BitOr(x / 2, y / 2)
  }

  /** `x & y`, `x | y`, `x << n`, `x >>> n`. */
  function And(x: int, y: int): int {
    Signed(BitAnd(Unsigned(x), Unsigned(y)))
  }

  function Or(x: int, y: int): int {
    Signed(BitOr(Unsigned(x), Unsigned(y)))
  }

  function Shl(x: int, n: nat): int {
    Signed(Unsigned(Unsigned(x) * Pow2(n % 32)))
  }

  function UShr(x: int, n: nat): int {
    Unsigned(x) / Pow2(n % 32)
  }

  lemma {:induction false} Pow2Add(m: nat, n: nat)
    ensures Pow2(m + n) == Pow2(m) * Pow2(n)
  {
    if m > 0 {
      Pow2Add(m - 1, n);
    }
  }

  lemma Pow2Values()
    ensures Pow2(0) == 1 && Pow2(1) == 2 && Pow2(4) == 16 && Pow2(8) == 256 && Pow2(16) == 0x1_0000 && Pow2(32) == WORD
  {
    assert Pow2(1) == 2 && Pow2(2) == 4 && Pow2(3) == 8 && Pow2(4) == 16;
    Pow2Add(4, 4);
    Pow2Add(8, 8);
    Pow2Add(16, 16);
  }

  lemma {:induction false} BitAndMask(x: nat, n: nat)
    ensures BitAnd(x, Pow2(n) - 1) == x % Pow2(n)
    decreases n
  {
    if n == 0 {
      AndZero(x);
    } else {
      BitAndMask(x / 2, n - 1);
      var p := Pow2(n - 1);
      assert (Pow2(n) - 1) / 2 == p - 1 && (Pow2(n) - 1) % 2 == 1;
      HalfMod(x, p);
    }
  }

  lemma HalfMod(x: nat, p: nat)
    requires p > 0
    ensures x % (2 * p) == x % 2 + 2 * ((x / 2) % p)
  {
    var q, r := (x / 2) / p, (x / 2) % p;
    assert x == 2 * p * q + (x % 2 + 2 * r) by {
      assert x / 2 == p * q + r;
    }
    ModUnique(x, 2 * p, q, x % 2 + 2 * r);
  }

  lemma ModUnique(x: int, d: int, q: int, r: int)
    requires d > 0 && x == d * q + r && 0 <= r < d
    ensures x % d == r && x / d == q
  {
    var q', r' := x / d, x % d;
    assert x == d * q' + r';
    Distribute(d, q, -q');
    if q > q' {
      AtLeast(d, q - q');
    } else if q < q' {
      AtLeast(d, q' - q);
      Distribute(d, q', -q);
    }
  }

  lemma Distribute(d: int, a: int, b: int)
    ensures d * (a + b) == d * a + d * b
  {
  }

  lemma NonNegative(a: nat, b: nat)
    ensures a * b >= 0
  {
  }

  lemma QuotientBelow(v: nat, d: nat, m: nat)
    requires d > 0 && v < d * m
    ensures v / d < m
  {
    var q := v / d;
    assert v == d * q + v % d;
    Distribute(d, m, 0 - q);
    if m - q <= 0 {
      var b := m - q;
      assert d * b <= 0 by {
        var c: nat := 0 - b;
        NonNegative(d, c);
        Distribute(d, b, c);
      }
    }
  }

  lemma AtLeast(d: int, n: int)
    requires d >= 0 && n >= 1
    ensures d * n >= d
  {
    Distribute(d, n - 1, 1);
    assert d * (n - 1) >= 0;
  }

  lemma AndZero(x: nat)
    ensures BitAnd(x, 0) == 0
  {
  }

  /** Where no bit is set twice, `|` adds. */
  lemma {:induction false} BitOrDisjoint(x: nat, y: nat, z: nat, m: nat)
    requires x < Pow2(m) && z == y * Pow2(m)
    ensures BitOr(x, z) == x + z
    decreases m
  {
    if m == 0 {
      OrZero(z);
    } else {
      NonNegative(y, Pow2(m - 1));
      var half := y * Pow2(m - 1);
      assert z == 2 * half;
      BitOrDisjoint(x / 2, y, half, m - 1);
      assert BitOr(x, 2 * half) == x % 2 + 2 * BitOr(x / 2, half);
    }
  }

  lemma OrZero(y: nat)
    ensures BitOr(0, y) == y
  {
  }

  lemma {:induction false} Pow2Grows(m: nat, n: nat)
    requires m <= n
    ensures Pow2(m) <= Pow2(n)
  {
    if m < n {
      Pow2Grows(m, n - 1);
    }
  }

  lemma {:induction false} BitAndBelow(x: nat, y: nat)
    ensures BitAnd(x, y) <= x
    decreases x
  {
    if x != 0 {
      BitAndBelow(x / 2, y / 2);
    }
  }

  lemma SmallUnsigned(x: nat)
    requires x < WORD
    ensures Unsigned(x) == x
  {
  }

  lemma UnsignedSigned(u: nat)
    requires u < WORD
    ensures Unsigned(Signed(u)) == u && -0x8000_0000 <= Signed(u) < 0x8000_0000
  {
    if u >= 0x8000_0000 {
      ModUnique(u - WORD, WORD, -1, u);
    }
  }

  lemma AndSmall(x: nat, y: nat)
    requires x < WORD / 2 && y < WORD / 2
    ensures And(x, y) == BitAnd(x, y)
  {
    BitAndBelow(x, y);
    SmallUnsigned(x);
    SmallUnsigned(y);
    hide BitAnd;
    hide Unsigned;
  }

  lemma OrSmall(x: nat, y: nat)
    requires x < WORD && y < WORD && BitOr(x, y) < WORD / 2
    ensures Or(x, y) == BitOr(x, y)
  {
    SmallUnsigned(x);
    SmallUnsigned(y);
    hide BitOr;
    hide Unsigned;
  }

  lemma ShlSmall(x: nat, n: nat, z: nat)
    requires x < WORD && n < 32 && z == x * Pow2(n) && z < WORD / 2
    ensures Shl(x, n) == z
  {
    hide Pow2;
    assert n % 32 == n && Unsigned(x) == x;
    assert Unsigned(x) * Pow2(n % 32) == z;
  }

  lemma UShrSmall(x: nat, n: nat)
    requires x < WORD && n < 32
    ensures UShr(x, n) == x / Pow2(n)
  {
    hide Pow2;
    assert n % 32 == n && Unsigned(x) == x;
  }

  lemma {:induction false} OrCommutes(x: nat, y: nat)
    ensures BitOr(x, y) == BitOr(y, x)
    decreases x + y
  {
    if x != 0 || y != 0 {
      OrCommutes(x / 2, y / 2);
    }
  }
}
