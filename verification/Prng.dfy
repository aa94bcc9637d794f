/** The 64-bit linear congruential generator of tools/prng.js, on four 16-bit limbs. */
module Prng {
  import opened Int32

  type Limb = x: int | 0 <= x < 0x1_0000

  const BASE: nat := 0x1_0000
  const MULTIPLIER: nat := 0x5851_f42d_4c95_7f2d

  /** A product under a name, for steps that treat it as one quantity. */
  function Times(x: int, y: int): int {
    x * y
  }

  /** Limbs, least significant first, as a number. */
  function Val(s: seq<Limb>): (v: nat) {
    if s == [] then 0 else s[0] + BASE * Val(s[1..])
  }

  /** BASE to the power `n`. */
  function Weight(n: nat): (w: nat)
    ensures w > 0
  {
    if n == 0 then 1 else BASE * Weight(n - 1)
  }

  lemma {:induction false} ValSnoc(s: seq<Limb>, x: Limb)
    ensures Val(s + [x]) == Val(s) + x * Weight(|s|)
    decreases |s|
  {
    if s == [] {
      assert s + [x] == [x];
      assert Val([x]) == x + BASE * Val([]);
    } else {
      assert (s + [x])[0] == s[0] && (s + [x])[1..] == s[1..] + [x];
      ValSnoc(s[1..], x);
      assert BASE * (x * Weight(|s| - 1)) == x * Weight(|s|);
    }
  }

  lemma {:induction false} ValConcat(s: seq<Limb>, t: seq<Limb>)
    ensures Val(s + t) == Val(s) + Weight(|s|) * Val(t)
    decreases |s|
  {
    if s == [] {
      assert s + t == t;
    } else {
      assert (s + t)[0] == s[0] && (s + t)[1..] == s[1..] + t;
      ValConcat(s[1..], t);
      assert BASE * (Weight(|s| - 1) * Val(t)) == Weight(|s|) * Val(t);
    }
  }

  lemma TakeNext(s: seq<Limb>, i: nat)
    requires i < |s|
    ensures s[..i] + [s[i]] == s[..i + 1]
  {
  }

  lemma ValPush(s: seq<Limb>, x: Limb, w: nat)
    requires w == Weight(|s|)
    ensures Val(s + [x]) == Val(s) + Times(x, w)
  {
    ValSnoc(s, x);
  }

  lemma {:induction false} ValBound(s: seq<Limb>)
    ensures Val(s) < Weight(|s|)
    decreases |s|
  {
    if s != [] {
      ValBound(s[1..]);
      assert BASE * Val(s[1..]) + BASE <= BASE * Weight(|s| - 1);
    }
  }

  lemma ValPrefix(s: seq<Limb>, n: nat)
    requires n <= |s|
    ensures Val(s[..n]) == Val(s) % Weight(n)
  {
    assert s == s[..n] + s[n..];
    ValConcat(s[..n], s[n..]);
    ValBound(s[..n]);
    ModUnique(Val(s), Weight(n), Val(s[n..]), Val(s[..n]));
  }

  lemma Weights()
    ensures Weight(4) == Pow2(64) && Weight(1) == Pow2(16) == BASE
  {
    Pow2Values();
    Pow2Add(32, 32);
    assert Weight(2) == WORD && Weight(3) == BASE * WORD && Weight(4) == WORD * WORD;
  }

  lemma Split16(t: nat)
    requires t < WORD
    ensures And(t, 0xffff) == t % BASE && UShr(t, 16) == t / BASE
  {
    Pow2Values();
    BitAndMask(t, 16);
    UShrSmall(t, 16);
    assert Unsigned(t) == t && Unsigned(0xffff) == Pow2(16) - 1;
  }

  /** After `i` rounds of the inner loop of `mul`, adding `a * x` at limb `j` of `w`, with `k` carried. */
  ghost predicate RowDone(a: seq<Limb>, x: Limb, j: nat, i: nat, w: seq<Limb>, r: seq<Limb>, k: Limb)
    requires |a| == 4 && |w| == |r| == 8 && i <= 4 && j <= 3
  {
    && r[..j] == w[..j] && r[j + i..] == w[j + i..]
    && Val(r[j..j + i]) + k * Weight(i) == Val(a[..i]) * x + Val(w[j..j + i])
  }

  lemma RowStarts(a: seq<Limb>, x: Limb, j: nat, w: seq<Limb>)
    requires |a| == 4 && |w| == 8 && j <= 3
    ensures RowDone(a, x, j, 0, w, w, 0)
  {
    assert w[j..j] == a[..0] == [];
  }

  lemma {:induction false} RowAdvances(a: seq<Limb>, x: Limb, j: nat, i: nat, w: seq<Limb>, r: seq<Limb>, k: Limb,
                                       t: nat, low: Limb)
    requires |a| == 4 && |w| == |r| == 8 && i < 4 && j <= 3
    requires RowDone(a, x, j, i, w, r, k) && t == a[i] * x + r[i + j] + k && t < WORD && low == t % BASE
    ensures RowDone(a, x, j, i + 1, w, r[i + j := low], t / BASE)
  {
    var r' := r[i + j := low];
    assert r[j + i..][0] == r[i + j] && w[j + i..][0] == w[i + j];
    assert r'[j + i + 1..] == r[j + i..][1..] && w[j + i + 1..] == w[j + i..][1..];
    assert r'[..j] == r[..j];
    SliceNext(w, j, i);
    SliceNext(r', j, i);
    assert r'[j..j + i] == r[j..j + i];
    RowStep(a, x, w[j..j + i], r[j..j + i], i, w[i + j], k, t);
  }

  lemma SliceNext(s: seq<Limb>, j: nat, i: nat)
    requires i + j < |s|
    ensures s[j..j + i + 1] == s[j..j + i] + [s[i + j]]
  {
  }

  lemma {:induction false} RowEnds(a: seq<Limb>, x: Limb, j: nat, w: seq<Limb>, r: seq<Limb>, k: Limb)
    requires |a| == 4 && |w| == |r| == 8 && j <= 3
    requires RowDone(a, x, j, 4, w, r, k)
    ensures var r' := r[j + 4 := k];
            Val(r'[j..j + 5]) == Val(a) * x + Val(w[j..j + 4]) && r'[..j] == w[..j] && r'[j + 5..] == w[j + 5..]
  {
    var r' := r[j + 4 := k];
    SliceNext(r', j, 4);
    assert r'[j..j + 4] == r[j..j + 4];
    ValSnoc(r[j..j + 4], k);
    assert a[..4] == a;
    assert r[j + 5..] == r[j + 4..][1..] && w[j + 5..] == w[j + 4..][1..];
  }

  /** The inner loop of `mul`: adds `a * x`, shifted by `j` limbs, to `r`. */
  method AddRow(a: seq<Limb>, x: Limb, j: nat, r: array<Limb>)
    requires |a| == 4 && r.Length == 8 && j <= 3
    modifies r
    ensures Val(r[..][j..j + 5]) == Val(a) * x + Val(old(r[..])[j..j + 4])
    ensures r[..][..j] == old(r[..])[..j] && r[..][j + 5..] == old(r[..])[j + 5..]
  {
    hide RowDone;
    hide Val;
    hide And;
    hide UShr;
    var k: Limb := 0;
    ghost var w := r[..];
    RowStarts(a, x, j, w);
    for i := 0 to 4
      invariant RowDone(a, x, j, i, w, r[..], k)
    {
      FitsWord(a[i], x, r[i + j], k);
      var t := a[i] * x + r[i + j] + k;
      Split16(t);
      ghost var before := r[..];
      r[i + j] := And(t, 0xffff);
      assert r[..] == before[i + j := r[i + j]];
      RowAdvances(a, x, j, i, w, before, k, t, r[i + j]);
      k := UShr(t, 16);
    }
    ghost var row := r[..];
    r[j + 4] := k;
    assert r[..] == row[j + 4 := k];
    RowEnds(a, x, j, w, row, k);
  }

  /** The intermediate `a[i] * b[j] + r[i+j] + k` is a 32-bit word, and no smaller bound would do. */
  lemma FitsWord(x: Limb, y: Limb, d: Limb, k: Limb)
    ensures 0 <= x * y + d + k < WORD
    ensures x == y == d == k == 0xffff ==> x * y + d + k == WORD - 1
  {
    assert 0 <= x * y <= 0xffff * 0xffff by {
      NonNegative(x, y);
      var z: nat := 0xffff - x;
      NonNegative(z, y);
      Distribute(y, 0xffff, 0 - x);
      Distribute(y, z, 0);
    }
  }

  lemma {:induction false} RowStep(a: seq<Limb>, x: Limb, was: seq<Limb>, now: seq<Limb>, i: nat, d: Limb, k: Limb,
                                   t: nat)
    requires i < |a| && |was| == |now| == i && t == a[i] * x + d + k
    requires Val(now) + k * Weight(i) == Val(a[..i]) * x + Val(was)
    ensures Val(now + [t % BASE]) + t / BASE * Weight(i + 1) == Val(a[..i + 1]) * x + Val(was + [d])
  {
    var w := Weight(i);
    assert Weight(i + 1) == BASE * w;
    hide Val;
    hide Weight;
    ValPush(now, t % BASE, w);
    ValPush(was, d, w);
    ValPush(a[..i], a[i], w);
    TakeNext(a, i);
    RowArithmetic(Val(now), Val(a[..i]), Val(was), a[i], x, d, k, t % BASE, t / BASE, w, Weight(i + 1),
                  Val(a[..i + 1]));
  }

  lemma {:induction false} RowArithmetic(now: int, va: int, was: int, ai: int, x: int, d: int, k: int, lo: int, hi: int,
                      w: int, w': int, va': int)
    requires lo + BASE * hi == ai * x + d + k && now + k * w == va * x + was && w' == BASE * w && va' == va + ai * w
    ensures now + lo * w + hi * w' == va' * x + (was + d * w)
  {
    assert (lo + BASE * hi) * w == (ai * x + d + k) * w;
    assert (lo + BASE * hi) * w == lo * w + hi * w';
    assert (ai * x + d + k) * w == ai * w * x + d * w + k * w;
    assert (va + ai * w) * x == va * x + ai * w * x;
  }

  /** `mul`: the product modulo 2^64. */
  method Mul(a: seq<Limb>, b: seq<Limb>) returns (s: seq<Limb>)
    requires |a| == 4 && |b| == 4
    ensures |s| == 4 && Val(s) == Val(a) * Val(b) % Pow2(64)
  {
    var r := new Limb[8](i => 0);
    ValZeros(r[..][..4]);
    assert Val([]) == 0 && b[..0] == [];
    hide Val;
    for j := 0 to 4
      invariant Val(r[..][..j + 4]) == Times(Val(a), Val(b[..j]))
      invariant forall i :: j + 4 <= i < 8 ==> r[i] == 0
    {
      ghost var w := r[..];
      AddRow(a, b[j], j, r);
      forall i | j + 5 <= i < 8 ensures r[i] == 0 {
        assert r[..][j + 5..][i - j - 5] == w[j + 5..][i - j - 5];
      }
      RowsStep(a, b, j, w, r[..]);
    }
    assert r[..][..8] == r[..] && b[..4] == b;
    s := r[..4];
    Weights();
    ValPrefix(r[..], 4);
    assert r[..][..4] == s;
  }

  lemma ValAt(s: seq<Limb>, j: nat, n: nat)
    requires j <= n <= |s|
    ensures Val(s[..n]) == Val(s[..j]) + Times(Weight(j), Val(s[j..n]))
  {
    assert s[..n] == s[..j] + s[j..n];
    ValConcat(s[..j], s[j..n]);
  }

  lemma RowsStep(a: seq<Limb>, b: seq<Limb>, j: nat, w: seq<Limb>, r: seq<Limb>)
    requires j <= 3 && j < |b| && |w| == |r| == 8 && w[..j] == r[..j]
    requires Val(w[..j + 4]) == Times(Val(a), Val(b[..j]))
    requires Val(r[j..j + 5]) == Times(Val(a), b[j]) + Val(w[j..j + 4])
    ensures Val(r[..j + 5]) == Times(Val(a), Val(b[..j + 1]))
  {
    hide Val;
    hide Weight;
    hide Times;
    TakeNext(b, j);
    ValPush(b[..j], b[j], Weight(j));
    ValAt(w, j, j + 4);
    ValAt(r, j, j + 5);
    RowsArithmetic(Val(w[..j]), Weight(j), Val(w[j..j + 4]), Val(r[j..j + 5]), Val(a), Val(b[..j]), b[j],
                   Val(b[..j + 1]));
  }

  lemma {:induction false} RowsArithmetic(low: int, w: int, was: int, now: int, va: int, vb: int, bj: int, vb': int)
    requires low + Times(w, was) == Times(va, vb) && now == Times(va, bj) + was && vb' == vb + Times(bj, w)
    ensures low + Times(w, now) == Times(va, vb')
  {
    assert w * (va * bj + was) == w * (va * bj) + w * was;
    assert va * (vb + bj * w) == va * vb + va * (bj * w);
    assert w * (va * bj) == va * (bj * w);
  }

  /** `add`, for an addend of one limb: the sum modulo 2^64. */
  method Add(a: seq<Limb>, n: Limb) returns (r: seq<Limb>)
    requires |a| == 4
    ensures |r| == 4 && Val(r) == (Val(a) + n) % Pow2(64)
  {
    r := [0, 0, 0, 0];
    var k: Limb := n;
    for i := 0 to 4
      invariant |r| == 4
      invariant Val(r[..i]) + k * Weight(i) == Val(a[..i]) + n
    {
      var t := a[i] + k;
      Split16(t);
      ghost var before := r[..i];
      r := r[i := And(t, 0xffff)];
      assert r[..i + 1] == before + [And(t, 0xffff)];
      AddStep(a, i, before, k, t, n);
      k := UShr(t, 16);
    }
    assert r[..4] == r && a[..4] == a;
    Weights();
    ValBound(r);
    ModUnique(Val(a) + n, Pow2(64), k, Val(r));
  }

  lemma {:induction false} AddStep(a: seq<Limb>, i: nat, now: seq<Limb>, k: Limb, t: nat, n: nat)
    requires i < |a| && |now| == i && t == a[i] + k
    requires Val(now) + k * Weight(i) == Val(a[..i]) + n
    ensures Val(now + [t % BASE]) + t / BASE * Weight(i + 1) == Val(a[..i + 1]) + n
  {
    var w := Weight(i);
    assert Weight(i + 1) == BASE * w;
    hide Val;
    hide Weight;
    ValPush(now, t % BASE, w);
    ValPush(a[..i], a[i], w);
    TakeNext(a, i);
    RowArithmetic(Val(now), Val(a[..i]), n, a[i], 1, 0, k, t % BASE, t / BASE, w, Weight(i + 1), Val(a[..i + 1]));
  }

  lemma DivDiv(v: nat, p: nat, q: nat, pq: nat)
    requires p > 0 && q > 0 && pq == p * q && pq > 0
    ensures v / p / q == v / pq
  {
    var x := v / p;
    assert v == p * x + v % p && x == q * (x / q) + x % q;
    Distribute(p, q * (x / q), x % q);
    assert p * (q * (x / q)) == pq * (x / q);
    NonNegative(p, x % q);
    Distribute(p, q, 0 - 1 - x % q);
    NonNegative(p, q - 1 - x % q);
    assert p * (x % q) + p <= p * q;
    ModUnique(v, pq, x / q, p * (x % q) + v % p);
  }

  lemma {:induction false} ValZeros(s: seq<Limb>)
    requires forall i :: 0 <= i < |s| ==> s[i] == 0
    ensures Val(s) == 0
    decreases |s|
  {
    if s != [] {
      ValZeros(s[1..]);
    }
  }

  /** Moving every limb down by one place. */
  lemma DropLimb(w: seq<Limb>, v: nat, d: nat)
    requires |w| == 5 && w[4] == 0 && Val(w[..4]) == v / Pow2(d)
    ensures Val(w[1..]) == v / Pow2(d + 16)
  {
    assert w[..4][0] == w[0] && w[..4][1..] == w[1..4];
    assert w[1..] == w[1..4] + [w[4]];
    ValSnoc(w[1..4], 0);
    assert Val(w[1..4]) == v / Pow2(d) / BASE;
    Pow2Add(d, 16);
    Pow2Values();
    DivDiv(v, Pow2(d), BASE, Pow2(d + 16));
  }

  /** Shifting the limb `x`, above which the number is `v`, right by the bits of `p`. */
  lemma ShiftLimb(x: Limb, v: nat, p: nat, q: nat)
    requires p > 0 && q > 0 && p * q == BASE
    ensures var low := x / p + v % p * q;
            && 0 <= low < BASE && 0 <= x / p < q
            && (x + BASE * v) / p == low + BASE * (v / p)
            && (x + BASE * v) % p == x % p
  {
    var h, c, y, z := v / p, v % p, x / p, x % p;
    assert p * y + z + BASE * (p * h + c) == p * (y + c * q + BASE * h) + z by {
      assert p * (y + c * q + BASE * h) == p * y + p * (c * q) + p * (BASE * h);
      assert p * (c * q) == c * (p * q);
      assert p * (BASE * h) == BASE * (p * h);
    }
    ShiftedLimbFits(y, c, p, q, x);
    ModUnique(x + BASE * v, p, y + c * q + BASE * h, z);
  }

  lemma ShiftedLimbFits(h: nat, c: nat, p: nat, q: nat, x: Limb)
    requires p * q == BASE && p * h <= x && c < p
    ensures h < q && h + c * q < BASE
  {
    if h >= q {
      Distribute(p, q, h - q);
      NonNegative(p, h - q);
    }
    Distribute(q, c, p - c);
    AtLeast(q, p - c);
  }

  /** The new limb, as `(s >>> n) | k` computes it. */
  lemma ShiftedLimb(x: Limb, c: nat, n: nat, k: Limb)
    requires n <= 16 && k == c * Pow2(16 - n) && 0 <= x / Pow2(n) < Pow2(16 - n)
    ensures Or(UShr(x, n), k) == x / Pow2(n) + k
  {
    var y: nat := x / Pow2(n);
    Pow2Grows(16 - n, 16);
    Pow2Values();
    UShrSmall(x, n);
    BitOrDisjoint(y, c, k, 16 - n);
    OrSmall(y, k);
  }

  /** The new carry, as `(s & ((1 << n) - 1)) << (16 - n)` computes it. */
  lemma ShiftedCarry(x: Limb, n: nat)
    requires n <= 16
    ensures Shl(And(x, Shl(1, n) - 1), 16 - n) == x % Pow2(n) * Pow2(16 - n) < BASE
  {
    var p, q := Pow2(n), Pow2(16 - n);
    Pow2Grows(n, 16);
    Pow2Values();
    Pow2Add(n, 16 - n);
    hide Shl;
    hide And;
    hide Pow2;
    ShlSmall(1, n, p);
    BitAndMask(x, n);
    AndSmall(x, p - 1);
    var z: nat := x % p;
    CarryFits(z, p, q);
    ShlSmall(z, 16 - n, z * q);
  }

  lemma CarryFits(z: nat, p: nat, q: nat)
    requires z < p && p * q == BASE && q > 0
    ensures 0 <= z * q < BASE
  {
    Distribute(q, p, 0 - z);
    AtLeast(q, p - z);
    NonNegative(z, q);
  }

  /** The inner loop of the word shift. */
  method DropWord(r: array<Limb>)
    requires r.Length == 5
    modifies r
    ensures r[..4] == old(r[..])[1..] && r[4] == old(r[4])
  {
    ghost var w := r[..];
    for j := 0 to 4
      invariant forall m :: 0 <= m < j ==> r[m] == w[m + 1]
      invariant forall m :: j <= m < 5 ==> r[m] == w[m]
    {
      r[j] := r[j + 1];
    }
  }

  /** With limbs from `i` up shifted right by the bits of `p`, `k` is what the next limb down receives. */
  ghost predicate Shifted(w: seq<Limb>, r: seq<Limb>, i: nat, p: nat, q: nat, k: Limb)
    requires |w| == |r| == 4 && i <= 4 && p > 0
  {
    r[..i] == w[..i] && Val(r[i..]) == Val(w[i..]) / p && k == Times(Val(w[i..]) % p, q)
  }

  lemma ShiftStarts(w: seq<Limb>, i: nat, p: nat, q: nat)
    requires |w| == 4 && i <= 4 && p > 0 && forall j :: i <= j < 4 ==> w[j] == 0
    ensures Shifted(w, w, i, p, q, 0)
  {
    ValZeros(w[i..]);
  }

  lemma {:induction false} ShiftAdvances(w: seq<Limb>, r: seq<Limb>, i: nat, p: nat, q: nat, k: Limb, low: Limb,
                                         carry: Limb)
    requires |w| == |r| == 4 && 0 < i <= 4 && p > 0 && q > 0 && p * q == BASE && Shifted(w, r, i, p, q, k)
    requires low == w[i - 1] / p + k && carry == Times(w[i - 1] % p, q)
    ensures Shifted(w, r[i - 1 := low], i - 1, p, q, carry)
  {
    var r', x := r[i - 1 := low], w[i - 1];
    assert r'[..i - 1] == r[..i][..i - 1] == w[..i][..i - 1] == w[..i - 1];
    assert r'[i - 1..][0] == low && r'[i - 1..][1..] == r[i..];
    assert w[i - 1..][0] == x && w[i - 1..][1..] == w[i..];
    assert Val(r'[i - 1..]) == low + BASE * Val(r[i..]);
    assert Val(w[i - 1..]) == x + BASE * Val(w[i..]);
    hide Val;
    ShiftLimb(x, Val(w[i..]), p, q);
  }

  /** The second loop of `shr`, for a distance of at most one limb. */
  method ShiftBits(r: array<Limb>, n: nat, i0: nat)
    requires r.Length == 5 && n <= 16 && i0 <= 4 && forall j :: i0 <= j < 4 ==> r[j] == 0
    modifies r
    ensures Val(r[..4]) == Val(old(r[..4])) / Pow2(n)
  {
    hide Shifted;
    hide Val;
    hide Pow2;
    hide Or;
    hide UShr;
    hide Shl;
    hide And;
    hide Times;
    var i := i0;
    var k: Limb := 0;
    ghost var w := r[..4];
    ghost var p, q := Pow2(n), Pow2(16 - n);
    LimbParts(n);
    ShiftStarts(w, i, p, q);
    while i > 0
      invariant 0 <= i <= 4 && Shifted(w, r[..4], i, p, q, k)
    {
      var x := r[i - 1];
      ghost var before := r[..4];
      ShiftOperators(w, before, i, n, k);
      r[i - 1] := Or(UShr(x, n), k);
      assert r[..4] == before[i - 1 := r[i - 1]];
      ShiftAdvances(w, before, i, p, q, k, r[i - 1], Shl(And(x, Shl(1, n) - 1), 16 - n));
      k := Shl(And(x, Shl(1, n) - 1), 16 - n);
      i := i - 1;
    }
    ShiftEnds(w, r[..4], p, q, k);
  }

  lemma LimbParts(n: nat)
    requires n <= 16
    ensures Pow2(n) > 0 && Pow2(16 - n) > 0 && Pow2(n) * Pow2(16 - n) == BASE
  {
    Pow2Add(n, 16 - n);
    Pow2Values();
  }

  lemma ShiftOperators(w: seq<Limb>, r: seq<Limb>, i: nat, n: nat, k: Limb)
    requires |w| == |r| == 4 && 0 < i <= 4 && n <= 16
    requires Shifted(w, r, i, Pow2(n), Pow2(16 - n), k)
    ensures r[i - 1] == w[i - 1]
    ensures 0 <= Or(UShr(w[i - 1], n), k) == w[i - 1] / Pow2(n) + k < BASE
    ensures 0 <= Shl(And(w[i - 1], Shl(1, n) - 1), 16 - n) == Times(w[i - 1] % Pow2(n), Pow2(16 - n)) < BASE
  {
    var x, p, q := w[i - 1], Pow2(n), Pow2(16 - n);
    assert r[..i][i - 1] == w[..i][i - 1];
    Pow2Add(n, 16 - n);
    Pow2Values();
    hide Val;
    ShiftLimb(x, Val(w[i..]), p, q);
    ShiftedLimb(x, Val(w[i..]) % p, n, k);
    ShiftedCarry(x, n);
    NonNegative(x % p, q);
    hide Or;
    hide Shl;
  }

  lemma ShiftEnds(w: seq<Limb>, r: seq<Limb>, p: nat, q: nat, k: Limb)
    requires |w| == |r| == 4 && p > 0 && Shifted(w, r, 0, p, q, k)
    ensures Val(r) == Val(w) / p
  {
    assert r[0..] == r && w[0..] == w;
  }

  /** `shr`: floor division by a power of two. */
  method Shr(a: seq<Limb>, n0: nat) returns (s: seq<Limb>)
    requires |a| == 4 && n0 <= 64
    ensures |s| == 4 && Val(s) == Val(a) / Pow2(n0)
  {
    hide Val;
    var r := new Limb[5](j requires 0 <= j < 5 => if j < 4 then a[j] else 0);
    var n, i := n0, 4;
    assert r[..4] == a && Pow2(0) == 1;
    hide Pow2;
    while n > 16
      invariant n0 - n == 16 * (4 - i) && i <= 4 && n >= 0
      invariant Val(r[..4]) == Val(a) / Pow2(n0 - n)
      invariant forall j :: i <= j < 5 ==> r[j] == 0
    {
      ghost var w := r[..];
      assert w[..4] == r[..4];
      DropLimb(w, Val(a), n0 - n);
      DropWord(r);
      forall j | i - 1 <= j < 4 ensures r[j] == 0 {
        assert r[j] == r[..4][j] == w[1..][j] == w[j + 1];
      }
      n, i := n - 16, i - 1;
    }
    ShiftBits(r, n, i);
    s := r[..4];
    Pow2Add(n0 - n, n);
    DivDiv(Val(a), Pow2(n0 - n), Pow2(n), Pow2(n0));
  }

  class Generator {
    var s: seq<Limb>

    constructor ()
      ensures s == [0, 0, 0, 0]
    {
      s := [0, 0, 0, 0];
    }

    method Seed(n0: int)
      modifies this
      ensures |s| == 4 && Val(s) == (n0 - 1) % WORD
    {
      var n := Or(n0 - 1, 0);
      SeedWords(n0 - 1);
      s := [And(n, 0xffff), UShr(n, 16), 0, 0];
      assert s[1..][0] == s[1] && s[1..][1..] == [0, 0];
      ValZeros([0, 0]);
    }

    /** `int`: one step of the generator, and the top 31 bits of its new state. */
    method Int() returns (v: int)
      requires |s| == 4
      modifies this
      ensures |s| == 4 && Val(s) == (Val(old(s)) * MULTIPLIER + 1) % Pow2(64)
      ensures v == Val(s) / Pow2(33) && 0 <= v < 0x8000_0000
    {
      MultiplierLimbs();
      hide Val;
      hide Pow2;
      ghost var x := Val(s);
      s := Mul(s, [0x7f2d, 0x4c95, 0xf42d, 0x5851]);
      s := Add(s, 1);
      var r := Shr(s, 33);
      StepMod(x * MULTIPLIER);
      TopBits(s, r);
      v := Or(Shl(r[1], 16), r[0]);
    }
  }

  /** `(n - 1)|0` keeps the low 32 bits, which the two limbs of the seed then hold. */
  lemma SeedWords(m: int)
    ensures var n := Or(m, 0);
            0 <= And(n, 0xffff) < BASE && 0 <= UShr(n, 16) < BASE && And(n, 0xffff) + BASE * UShr(n, 16) == m % WORD
  {
    var u := Unsigned(m);
    OrZero(u);
    OrCommutes(0, u);
    UnsignedSigned(u);
    Split16(u);
    SmallUnsigned(u);
    assert Or(m, 0) == Signed(u);
    hide Unsigned;
    hide Signed;
    hide Or;
    hide BitAnd;
  }

  lemma MultiplierLimbs()
    ensures Val([0x7f2d, 0x4c95, 0xf42d, 0x5851]) == MULTIPLIER
  {
    var m: seq<Limb> := [0x7f2d, 0x4c95, 0xf42d, 0x5851];
    assert m[1..][1..][1..] == [0x5851] && m[1..][1..][0] == 0xf42d && m[1..][0] == 0x4c95;
    assert Val([0x5851]) == 0x5851 + BASE * Val([]);
    assert Val(m[1..][1..]) == 0x5851_f42d;
    assert Val(m[1..]) == 0x5851_f42d_4c95;
  }

  lemma StepMod(x: nat)
    ensures (x % Pow2(64) + 1) % Pow2(64) == (x + 1) % Pow2(64)
  {
    var m, y := Pow2(64), x % Pow2(64) + 1;
    assert x + 1 == m * (x / m) + y;
    assert y == m * (y / m) + y % m;
    Distribute(m, x / m, y / m);
    ModUnique(x + 1, m, x / m + y / m, y % m);
  }

  /** The state shifted right by 33 bits fills two limbs, the upper one by 15 bits. */
  lemma TopBits(s: seq<Limb>, r: seq<Limb>)
    requires |s| == |r| == 4 && Val(r) == Val(s) / Pow2(33)
    ensures Or(Shl(r[1], 16), r[0]) == Val(r) < 0x8000_0000
  {
    Pow2Values();
    Pow2Add(31, 1);
    assert Pow2(31) == 0x8000_0000;
    TopBound(Val(s), Val(r), s);
    assert r[1..][0] == r[1] && r[1..][1..] == r[2..];
    assert Val(r) == r[0] + BASE * r[1] + BASE * BASE * Val(r[2..]);
    assert Val(r[2..]) == 0 && r[1] < 0x8000;
    hide Val;
    Pow2Values();
    hide Pow2;
    ShlSmall(r[1], 16, r[1] * BASE);
    BitOrDisjoint(r[0], r[1], r[1] * BASE, 16);
    OrCommutes(r[0], r[1] * BASE);
    OrSmall(r[1] * BASE, r[0]);
  }

  lemma TopBound(v: nat, t: nat, s: seq<Limb>)
    requires |s| == 4 && v == Val(s) && t == v / Pow2(33)
    ensures t < Pow2(31)
  {
    ValBound(s);
    Weights();
    Pow2Add(33, 31);
    QuotientBelow(v, Pow2(33), Pow2(31));
  }
}
