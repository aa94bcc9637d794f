/** What the digits of an address stand for, spelt out. */
module Ipv6Digits {
  import opened Common
  import opened Ipv6
  import opened Ipv6RoundTrip

  const DECIMALS := "0123456789"
  const SMALL_HEX := "0123456789abcdef"
  const CAPITAL_HEX := "0123456789ABCDEF"

  /** The digits of `n` to the base 10, leading zeros allowed. */
  predicate IsDecimal(s: string, n: nat) {
    if s == "" then n == 0 else s[|s| - 1] == DECIMALS[n % 10] && IsDecimal(s[..|s| - 1], n / 10)
  }

  /** The digits of `n` to the base 16 in any case, leading zeros allowed. */
  predicate IsHexadecimal(s: string, n: nat) {
    if s == "" then n == 0
    else s[|s| - 1] in [SMALL_HEX[n % 16], CAPITAL_HEX[n % 16]] && IsHexadecimal(s[..|s| - 1], n / 16)
  }

  // ----- groups -----

  lemma HexDigitMeans(c: char, d: nat)
    requires d < 16
    ensures c in [SMALL_HEX[d], CAPITAL_HEX[d]] <==> IsHexDigit(c) && HexDigit(c) == d
  {
    assert SMALL_HEX[d] == if d < 10 then ('0' as int + d) as char else ('a' as int + d - 10) as char;
    assert CAPITAL_HEX[d] == if d < 10 then ('0' as int + d) as char else ('A' as int + d - 10) as char;
  }

  lemma {:induction false} HexNumberMeans(s: string, n: nat)
    ensures AllHex(s) && HexNumber(s) == n <==> IsHexadecimal(s, n)
    decreases |s|
  {
    if s != "" {
      var front, last := s[..|s| - 1], s[|s| - 1];
      assert AllHex(s) <==> AllHex(front) && IsHexDigit(last);
      HexNumberMeans(front, n / 16);
      HexDigitMeans(last, n % 16);
      hide IsHexDigit;
    }
  }

  /** One to four hexadecimal digits, and the words they are read as, one after the other. */
  lemma GroupsExactly(parts: seq<string>, ws: seq<nat>)
    ensures AllWords(parts) && Values(parts) == ws <==>
            |parts| == |ws| && forall k :: 0 <= k < |parts| ==> 1 <= |parts[k]| <= 4 && IsHexadecimal(parts[k], ws[k])
  {
    forall k | 0 <= k < |parts| && k < |ws|
      ensures AllHex(parts[k]) && HexNumber(parts[k]) == ws[k] <==> IsHexadecimal(parts[k], ws[k])
    {
      HexNumberMeans(parts[k], ws[k]);
    }
    hide AllHex;
    hide IsHexadecimal;
    if AllWords(parts) && Values(parts) == ws {
      forall k | 0 <= k < |parts| ensures IsHexadecimal(parts[k], ws[k]) {
        assert Values(parts)[k] == ws[k];
      }
    }
    if |parts| == |ws| && forall k :: 0 <= k < |parts| ==> 1 <= |parts[k]| <= 4 && IsHexadecimal(parts[k], ws[k]) {
      assert AllWords(parts);
      assert Values(parts) == ws;
    }
  }

  // ----- quads -----

  lemma DigitMeans(c: char, d: nat)
    requires d < 10
    ensures c == DECIMALS[d] <==> IsDigit(c) && c as int - '0' as int == d
  {
    assert DECIMALS[d] == ('0' as int + d) as char;
  }

  lemma {:induction false} NumberMeans(s: string, n: nat)
    ensures AllDigits(s) && Number(s) == n <==> IsDecimal(s, n)
    decreases |s|
  {
    if s != "" {
      var front, last := s[..|s| - 1], s[|s| - 1];
      assert AllDigits(s) <==> AllDigits(front) && IsDigit(last);
      NumberMeans(front, n / 10);
      DigitMeans(last, n % 10);
      hide DECIMALS;
    }
  }

  predicate IsOctet(s: string, n: nat) {
    1 <= |s| <= 3 && n < 256 && IsDecimal(s, n)
  }

  function Dotted(a: string, b: string, c: string, d: string): string {
    a + ("." + (b + ("." + (c + ("." + d)))))
  }

  /** Four numbers of up to three digits and up to 255 with dots between them, in that order. */
  ghost predicate IsDotted(x: string, v4: seq<nat>) {
    && |v4| == 4
    && exists a, b, c, d :: x == Dotted(a, b, c, d)
        && IsOctet(a, v4[0]) && IsOctet(b, v4[1]) && IsOctet(c, v4[2]) && IsOctet(d, v4[3])
  }

  lemma DottedSplits(a: string, b: string, c: string, d: string)
    requires AllDigits(a) && AllDigits(b) && AllDigits(c) && AllDigits(d)
    ensures Split(Dotted(a, b, c, d), '.') == [a, b, c, d]
  {
    assert Lacks(a, '.') && Lacks(b, '.') && Lacks(c, '.') && Lacks(d, '.');
    hide *;
    SplitOne(d, '.');
    SplitAt(c, '.', d);
    SplitAt(b, '.', c + ("." + d));
    SplitAt(a, '.', b + ("." + (c + ("." + d))));
    DottedIs(a, b, c, d);
  }

  lemma DottedIs(a: string, b: string, c: string, d: string)
    ensures Dotted(a, b, c, d) == a + (['.'] + (b + (['.'] + (c + (['.'] + d)))))
  {
  }

  lemma {:induction false} Unsplit(s: string, c: char) returns (rest: string)
    ensures |Split(s, c)| == 1 ==> s == Split(s, c)[0]
    ensures |Split(s, c)| > 1 ==> s == Split(s, c)[0] + ([c] + rest) && Split(s, c)[1..] == Split(rest, c)
    decreases |s|
  {
    rest := "";
    if s != "" {
      if s[0] == c {
        rest := s[1..];
        assert s == "" + ([c] + rest);
      } else {
        rest := Unsplit(s[1..], c);
      }
    }
  }

  lemma SplitDotted(x: string)
    requires |Split(x, '.')| == 4
    ensures var p := Split(x, '.'); x == Dotted(p[0], p[1], p[2], p[3])
  {
    hide *;
    var p := Split(x, '.');
    var y := Unsplit(x, '.');
    var z := Unsplit(y, '.');
    var t := Unsplit(z, '.');
    var u := Unsplit(t, '.');
    DottedIs(p[0], p[1], p[2], p[3]);
    assert p[1..][0] == p[1] && p[1..][1..] == p[2..] && p[2..][0] == p[2] && p[2..][1..] == p[3..]
           && p[3..][0] == p[3];
  }

  /** What `parseIPv4` reads, and the numbers it finds. */
  lemma QuadsExactly(x: string, v4: seq<nat>)
    ensures ParsedIPv4(x) == Some(v4) <==> IsDotted(x, v4)
  {
    hide Split;
    hide Number;
    hide IsDecimal;
    hide Dotted;
    if ParsedIPv4(x) == Some(v4) {
      var p := Split(x, '.');
      SplitDotted(x);
      NumberMeans(p[0], v4[0]);
      NumberMeans(p[1], v4[1]);
      NumberMeans(p[2], v4[2]);
      NumberMeans(p[3], v4[3]);
    }
    if IsDotted(x, v4) {
      var a, b, c, d :| x == Dotted(a, b, c, d)
        && IsOctet(a, v4[0]) && IsOctet(b, v4[1]) && IsOctet(c, v4[2]) && IsOctet(d, v4[3]);
      NumberMeans(a, v4[0]);
      NumberMeans(b, v4[1]);
      NumberMeans(c, v4[2]);
      NumberMeans(d, v4[3]);
      DottedSplits(a, b, c, d);
      assert v4 == [v4[0], v4[1], v4[2], v4[3]];
    }
  }
}
