/**
 Finding the end of a part's data. The parser never backs up by more than the
 byte in hand, so on a mismatch it forgets how much of the delimiter it had
 seen. These lemmas say for which boundaries that is harmless, and that for
 every other boundary there is a body it gets wrong.
 */
module MultipartMatching {
  import opened Bytes
  import opened MultipartMachine

  predicate OccursAt(pat: seq<byte>, s: seq<byte>, k: nat) {
    k + |pat| <= |s| && s[k..k + |pat|] == pat
  }

  ghost predicate FirstAt(pat: seq<byte>, s: seq<byte>, k: nat) {
    OccursAt(pat, s, k) && forall j: nat :: j < k ==> !OccursAt(pat, s, j)
  }

  ghost predicate Absent(pat: seq<byte>, s: seq<byte>) {
    forall k: nat :: !OccursAt(pat, s, k)
  }

  predicate Suffix(s: seq<byte>, t: seq<byte>) {
    |s| <= |t| && t[|t| - |s|..] == s
  }

  /**
   After a mismatch no shorter match can still be under way: wherever a prefix
   of the delimiter also ends a longer prefix, both continue with the same byte.
   */
  ghost predicate Restartable(pat: seq<byte>) {
    forall j, k :: 0 < j < k < |pat| && Suffix(pat[..j], pat[..k]) ==> pat[j] == pat[k]
  }

  predicate InData(m: Machine) {
    m.phase.PartData? || m.phase.PartDataAlmostBoundary? || m.phase.PartDataBoundary?
  }

  /** How many bytes of the delimiter have matched. */
  function Matched(b: seq<byte>, m: Machine): (n: nat)
    requires WellFormed(b, m) && InData(m)
    ensures n <= |Delimiter(b)| - 1
    ensures Held(b, m) == Delimiter(b)[..n]
  {
    assert Delimiter(b)[..0] == [] && Delimiter(b)[..1] == [CR];
    assert m.phase.PartDataBoundary? ==> Delimiter(b)[..2 + m.index] == [CR, LF] + b[..m.index];
    |Held(b, m)|
  }

  /** One byte of data, in terms of the delimiter alone. */
  lemma StepInData(b: seq<byte>, m: Machine, c: byte)
    requires WellFormed(b, m) && InData(m)
    ensures var pat, n, o := Delimiter(b), Matched(b, m), Step(b, m, c);
            && o.ok
            && (if c == pat[n] && n + 1 == |pat| then
                  o.m.phase.PartDataAlmostEnd? && o.toks == [PartEnd]
                else if c == pat[n] then
                  InData(o.m) && Matched(b, o.m) == n + 1 && o.toks == []
                else
                  && InData(o.m) && Matched(b, o.m) == (if c == CR then 1 else 0)
                  && o.toks == DataTokens(Held(b, m) + if c == CR then [] else [c]))
  {
    var pat, n := Delimiter(b), Matched(b, m);
    if m.phase.PartDataBoundary? {
      assert pat[n] == b[m.index];
    }
    if c != pat[n] {
      if c == CR {
        assert Held(b, m) + [] == Held(b, m);
      } else {
        DataTokensConcat(Held(b, m), [c]);
      }
    }
  }

  /** The machine after reading a body that does not contain the delimiter. */
  ghost predicate Scanned(b: seq<byte>, m: Machine, s: seq<byte>)
    requires WellFormed(b, m)
  {
    var pat, o := Delimiter(b), Run(b, m, s);
    && o.ok && InData(o.m)
    && Suffix(Held(b, o.m), s)
    && o.toks == DataTokens(s[..|s| - |Held(b, o.m)|])
  }

  /** No proper prefix of `pat` that ends `s` is longer than `n`. */
  ghost predicate Longest(pat: seq<byte>, n: nat, s: seq<byte>) {
    forall j :: 0 < j < |pat| && Suffix(pat[..j], s) ==> j <= n
  }

  /** Every prefix of the delimiter that ends `s` has been noticed. */
  ghost predicate Tight(b: seq<byte>, m: Machine, s: seq<byte>)
    requires WellFormed(b, m) && InData(m)
  {
    Longest(Delimiter(b), Matched(b, m), s)
  }

  lemma SuffixSnoc(p: seq<byte>, d: byte, s: seq<byte>, c: byte)
    ensures Suffix(p + [d], s + [c]) <==> c == d && Suffix(p, s)
  {
    var t, q := s + [c], p + [d];
    if Suffix(q, t) {
      assert t[|t| - 1] == t[|t| - |q|..][|q| - 1];
      assert s[|s| - |p|..] == t[|t| - |q|..][..|p|];
    }
    if c == d && Suffix(p, s) {
      assert t[|t| - |q|..] == s[|s| - |p|..] + [c];
    }
  }

  /** The prefixes of `pat` one byte longer that end `t + [c]` are those that end `t` and go on with `c`. */
  lemma PrefixSnoc(pat: seq<byte>, j: nat, t: seq<byte>, c: byte)
    requires 0 < j <= |pat|
    ensures Suffix(pat[..j], t + [c]) <==> c == pat[j - 1] && Suffix(pat[..j - 1], t)
  {
    assert pat[..j] == pat[..j - 1] + [pat[j - 1]];
    SuffixSnoc(pat[..j - 1], pat[j - 1], t, c);
  }

  lemma SuffixOccurs(pat: seq<byte>, s: seq<byte>)
    requires Suffix(pat, s)
    ensures OccursAt(pat, s, |s| - |pat|)
  {
  }

  /** What a byte leaves matched: one more, or its own start of the delimiter, or nothing. */
  function MatchedNext(pat: seq<byte>, n: nat, c: byte): nat
    requires n < |pat|
  {
    if c == pat[n] then n + 1 else if c == CR then 1 else 0
  }

  lemma LongestAt(pat: seq<byte>, n: nat, t: seq<byte>, c: byte, j: nat)
    requires Restartable(pat) && n < |pat| && pat[0] == CR
    requires Longest(pat, n, t) && Suffix(pat[..n], t)
    requires 0 < j < |pat| && Suffix(pat[..j], t + [c])
    ensures j <= MatchedNext(pat, n, c)
  {
    PrefixSnoc(pat, j, t, c);
    if j > 1 && c != pat[n] {
      var p := pat[..j - 1];
      var q := pat[..n];
      assert Suffix(p, q) by {
        assert q[|q| - |p|..] == t[|t| - |p|..];
      }
      assert false;
    }
  }

  /** One more byte keeps the matcher tight. */
  lemma StaysTight(b: seq<byte>, m: Machine, t: seq<byte>, c: byte)
    requires WellFormed(b, m) && InData(m) && Restartable(Delimiter(b))
    requires Tight(b, m, t) && Suffix(Held(b, m), t)
    requires InData(Step(b, m, c).m)
    ensures Tight(b, Step(b, m, c).m, t + [c])
  {
    StepInData(b, m, c);
    var pat := Delimiter(b);
    var n := Matched(b, m);
    assert Longest(pat, MatchedNext(pat, n, c), t + [c]) by {
      hide Restartable;
      hide Suffix;
      hide MatchedNext;
      forall j | 0 < j < |pat| && Suffix(pat[..j], t + [c]) ensures j <= MatchedNext(pat, n, c) {
        LongestAt(pat, n, t, c, j);
      }
    }
    hide Step;
    hide Held;
    hide WellFormed;
    hide Longest;
    hide Suffix;
  }

  /** The data bytes released so far and the bytes held back make up the input. */
  lemma StaysScanned(b: seq<byte>, m: Machine, t: seq<byte>, c: byte)
    requires WellFormed(b, m) && m.phase.PartData?
    requires Scanned(b, m, t)
    requires InData(Step(b, Run(b, m, t).m, c).m)
    ensures Scanned(b, m, t + [c])
  {
    var o := Run(b, m, t);
    var p := Step(b, o.m, c);
    var n := Matched(b, o.m);
    StepInData(b, o.m, c);
    RunConcat(b, m, t, [c]);
    RunOne(b, o.m, c);
    hide Run;
    hide Step;
    hide Held;
    HeldBack(Delimiter(b), n, Matched(b, p.m), t, c);
    var x := if c == CR then [] else [c];
    DataTokensConcat(t[..|t| - n], Delimiter(b)[..n] + x);
  }

  lemma HeldBack(pat: seq<byte>, n: nat, n': nat, t: seq<byte>, c: byte)
    requires n < |pat| && n' <= |pat| && Suffix(pat[..n], t) && pat[0] == CR
    requires n' == if c == pat[n] then n + 1 else if c == CR then 1 else 0
    ensures Suffix(pat[..n'], t + [c])
    ensures (t + [c])[..|t| + 1 - n'] ==
            if c == pat[n] then t[..|t| - n] else t[..|t| - n] + (pat[..n] + if c == CR then [] else [c])
  {
    if c == pat[n] {
      PrefixSnoc(pat, n + 1, t, c);
    } else if c == CR {
      assert pat[..1] == [CR];
    }
  }

  lemma OccursInPrefix(pat: seq<byte>, s: seq<byte>, n: nat, k: nat)
    requires n <= |s| && OccursAt(pat, s[..n], k)
    ensures OccursAt(pat, s, k)
  {
    assert s[k..k + |pat|] == s[..n][k..k + |pat|];
  }

  lemma AbsentPrefix(pat: seq<byte>, s: seq<byte>, n: nat)
    requires Absent(pat, s) && n <= |s|
    ensures Absent(pat, s[..n])
  {
    forall k: nat ensures !OccursAt(pat, s[..n], k) {
      if OccursAt(pat, s[..n], k) {
        OccursInPrefix(pat, s, n, k);
      }
    }
  }

  lemma {:induction false} Scan(b: seq<byte>, m: Machine, s: seq<byte>)
    requires WellFormed(b, m) && m.phase.PartData? && Restartable(Delimiter(b))
    requires Absent(Delimiter(b), s)
    ensures Scanned(b, m, s) && Tight(b, Run(b, m, s).m, s)
    decreases |s|
  {
    if s == [] {
      assert DataTokens(s[..0]) == [];
    } else {
      var t, c := s[..|s| - 1], s[|s| - 1];
      assert s == t + [c];
      var pat := Delimiter(b);
      AbsentPrefix(pat, s, |s| - 1);
      Scan(b, m, t);
      var m1 := Run(b, m, t).m;
      var n := Matched(b, m1);
      if c == pat[n] && n + 1 == |pat| {
        PrefixSnoc(pat, |pat|, t, c);
        assert pat[..|pat|] == pat;
        SuffixOccurs(pat, s);
        assert false;
      }
      StepInData(b, m1, c);
      StaysScanned(b, m, t, c);
      StaysTight(b, m1, t, c);
      RunConcat(b, m, t, [c]);
      RunOne(b, m1, c);
    }
  }

  /** A body without the delimiter is delivered whole, but for the prefix of a delimiter it may end in. */
  lemma WithoutDelimiter(b: seq<byte>, m: Machine, s: seq<byte>)
    requires WellFormed(b, m) && m.phase.PartData? && Restartable(Delimiter(b))
    requires Absent(Delimiter(b), s)
    ensures var o := Run(b, m, s);
            && o.ok && InData(o.m)
            && o.toks + DataTokens(Held(b, o.m)) == DataTokens(s)
  {
    Scan(b, m, s);
    var h := Held(b, Run(b, m, s).m);
    assert s == s[..|s| - |h|] + h;
    DataTokensConcat(s[..|s| - |h|], h);
  }

  /** The data of a part ends exactly at the first delimiter. */
  lemma UpToDelimiter(b: seq<byte>, m: Machine, s: seq<byte>, k: nat)
    requires WellFormed(b, m) && m.phase.PartData? && Restartable(Delimiter(b))
    requires FirstAt(Delimiter(b), s, k)
    ensures var o := Run(b, m, s[..k + |Delimiter(b)|]);
            && o.ok && o.m.phase.PartDataAlmostEnd?
            && o.toks == DataTokens(s[..k]) + [PartEnd]
  {
    var pat := Delimiter(b);
    var n := |pat| - 1;
    var t, c := s[..k + n], pat[n];
    BeforeDelimiter(pat, s, k);
    Scan(b, m, t);
    var m1 := Run(b, m, t).m;
    StepInData(b, m1, c);
    RunConcat(b, m, t, [c]);
    RunOne(b, m1, c);
    hide Step;
    hide Held;
    hide WellFormed;
    hide FirstAt;
    hide Absent;
  }

  /** What is read before the last byte of the first delimiter. */
  lemma BeforeDelimiter(pat: seq<byte>, s: seq<byte>, k: nat)
    requires 0 < |pat| && FirstAt(pat, s, k)
    ensures var t := s[..k + |pat| - 1];
            && Absent(pat, t) && Suffix(pat[..|pat| - 1], t)
            && s[..k + |pat|] == t + [pat[|pat| - 1]] && t[..k] == s[..k]
  {
    var n := |pat| - 1;
    var t := s[..k + n];
    assert s[k..k + |pat|][..n] == t[k..] && s[k..k + |pat|][n] == s[k + n];
    forall j: nat ensures !OccursAt(pat, t, j) {
      if OccursAt(pat, t, j) {
        OccursInPrefix(pat, s, |t|, j);
      }
    }
  }

  /** Too few bytes to complete a match from here. */
  lemma {:induction false} TooShort(b: seq<byte>, m: Machine, t: seq<byte>)
    requires WellFormed(b, m) && InData(m)
    requires Matched(b, m) + |t| < |Delimiter(b)|
    ensures Run(b, m, t).ok && InData(Run(b, m, t).m) && Matched(b, Run(b, m, t).m) <= Matched(b, m) + |t|
    ensures PartEnd !in Run(b, m, t).toks
    decreases |t|
  {
    if t != [] {
      StepInData(b, m, t[0]);
      TooShort(b, Step(b, m, t[0]).m, t[1..]);
    }
  }

  /** Reading a proper prefix of the delimiter holds all of it back. */
  lemma {:induction false} ReadPrefix(b: seq<byte>, m: Machine, k: nat)
    requires WellFormed(b, m) && m.phase.PartData? && k < |Delimiter(b)|
    ensures var o := Run(b, m, Delimiter(b)[..k]);
            o.ok && InData(o.m) && Matched(b, o.m) == k && o.toks == []
  {
    var pat := Delimiter(b);
    if k == 0 {
    } else {
      ReadPrefix(b, m, k - 1);
      assert pat[..k] == pat[..k - 1] + [pat[k - 1]];
      var m1 := Run(b, m, pat[..k - 1]).m;
      RunConcat(b, m, pat[..k - 1], [pat[k - 1]]);
      RunOne(b, m1, pat[k - 1]);
      StepInData(b, m1, pat[k - 1]);
    }
  }

  /** The matcher loses the second of two overlapping delimiters when the first one breaks off. */
  lemma LosesOverlap(b: seq<byte>, m: Machine, j: nat, k: nat)
    requires WellFormed(b, m) && m.phase.PartData?
    requires 0 < j < k < |Delimiter(b)| && Delimiter(b)[j] != Delimiter(b)[k]
    ensures var o := Run(b, m, Delimiter(b)[..k] + Delimiter(b)[j..]);
            o.ok && PartEnd !in o.toks
  {
    var pat := Delimiter(b);
    ReadPrefix(b, m, k);
    var m1 := Run(b, m, pat[..k]).m;
    StepInData(b, m1, pat[j]);
    RunConcat(b, m, pat[..k], pat[j..]);
    hide Step;
    hide Held;
    var o := Step(b, m1, pat[j]);
    assert pat[j..][0] == pat[j] && pat[j..][1..] == pat[j + 1..];
    assert Run(b, m1, pat[j..]) == After(1, o.toks, Run(b, o.m, pat[j + 1..]));
    TooShort(b, o.m, pat[j + 1..]);
    hide Run;
    assert PartEnd !in o.toks;
    assert Run(b, m, pat[..k] + pat[j..]).toks == o.toks + Run(b, o.m, pat[j + 1..]).toks;
  }

  lemma NotRestartable(pat: seq<byte>) returns (j: nat, k: nat)
    requires !Restartable(pat)
    ensures 0 < j < k < |pat| && Suffix(pat[..j], pat[..k]) && pat[j] != pat[k]
  {
    hide Suffix;
    j, k :| 0 < j < k < |pat| && Suffix(pat[..j], pat[..k]) && pat[j] != pat[k];
  }

  /** A boundary whose delimiter is not restartable: a body with a delimiter in it that goes unseen. */
  lemma MissedDelimiter(b: seq<byte>, m: Machine) returns (s: seq<byte>, at: nat)
    requires WellFormed(b, m) && m.phase.PartData? && !Restartable(Delimiter(b))
    ensures OccursAt(Delimiter(b), s, at)
    ensures Run(b, m, s).ok && PartEnd !in Run(b, m, s).toks
  {
    var pat := Delimiter(b);
    var j, k := NotRestartable(pat);
    s, at := pat[..k] + pat[j..], k - j;
    // Overlapping two copies of the delimiter at a prefix that is also a suffix of the first.
    assert OccursAt(pat, pat[..k] + pat[j..], k - j) by {
      assert j < k < |pat| && Suffix(pat[..j], pat[..k]);
      var s, at := pat[..k] + pat[j..], k - j;
      assert s[at..k] == pat[..k][at..] == pat[..j];
      assert s[at..at + |pat|] == s[at..k] + pat[j..];
      assert pat[..j] + pat[j..] == pat;
    }
    hide *;
    LosesOverlap(b, m, j, k);
  }

  /** Part data ends at the first delimiter, whatever the body. */
  ghost predicate StopsAtFirst(b: seq<byte>, m: Machine)
    requires WellFormed(b, m)
  {
    forall s: seq<byte>, k: nat :: FirstAt(Delimiter(b), s, k) ==>
      var o := Run(b, m, s[..k + |Delimiter(b)|]);
      o.ok && o.toks == DataTokens(s[..k]) + [PartEnd]
  }

  lemma FirstOf(pat: seq<byte>, s: seq<byte>, at: nat) returns (k: nat)
    requires OccursAt(pat, s, at)
    ensures k <= at && FirstAt(pat, s, k)
  {
    k := 0;
    while !OccursAt(pat, s, k)
      invariant k <= at
      invariant forall j: nat :: j < k ==> !OccursAt(pat, s, j)
      decreases at - k
    {
      k := k + 1;
    }
  }

  /** The matcher is right for every body exactly when the delimiter is restartable. */
  lemma MatcherIsExact(b: seq<byte>, m: Machine)
    requires WellFormed(b, m) && m.phase.PartData?
    ensures StopsAtFirst(b, m) <==> Restartable(Delimiter(b))
  {
    var pat := Delimiter(b);
    if Restartable(pat) {
      forall s: seq<byte>, k: nat | FirstAt(pat, s, k)
        ensures var o := Run(b, m, s[..k + |pat|]);
                o.ok && o.toks == DataTokens(s[..k]) + [PartEnd]
      {
        UpToDelimiter(b, m, s, k);
      }
    } else {
      var s, at := MissedDelimiter(b, m);
      var k := FirstOf(pat, s, at);
      var o := Run(b, m, s[..k + |pat|]);
      assert s == s[..k + |pat|] + s[k + |pat|..];
      RunConcat(b, m, s[..k + |pat|], s[k + |pat|..]);
      if o.ok {
        assert PartEnd !in o.toks;
        assert (DataTokens(s[..k]) + [PartEnd])[k] == PartEnd;
      }
    }
  }

  /** No boundary a Content-Type header can carry contains a CR, and all of those are restartable. */
  lemma WithoutCR(b: seq<byte>)
    requires CR !in b
    ensures Restartable(Delimiter(b))
  {
    var pat := Delimiter(b);
    forall j, k | 0 < j < k < |pat|
      ensures !Suffix(pat[..j], pat[..k])
    {
      assert pat[k - j] != CR by {
        assert k - j == 1 || pat[k - j] == b[k - j - 2];
      }
      assert pat[..k][k - j..][0] == pat[k - j] && pat[..j][0] == CR;
    }
  }
}
