/** `parseIPv4` and `parseIPv6` of validation.js: addresses in text form. */
module Ipv6 {
  import opened Common

  // ----- digits -----

  predicate IsDigit(c: char) {
    '0' <= c <= '9'
  }

  predicate IsHexDigit(c: char) {
    IsDigit(c) || 'a' <= c <= 'f' || 'A' <= c <= 'F'
  }

  function HexDigit(c: char): (d: nat)
    requires IsHexDigit(c)
    ensures d < 16
  {
    if IsDigit(c) then c as int - '0' as int
    else if 'a' <= c <= 'f' then c as int - 'a' as int + 10
    else c as int - 'A' as int + 10
  }

  predicate AllHex(s: string) {
    forall i :: 0 <= i < |s| ==> IsHexDigit(s[i])
  }

  predicate AllDigits(s: string) {
    forall i :: 0 <= i < |s| ==> IsDigit(s[i])
  }

  /** `parseInt(s, 16)` of hexadecimal digits. */
  function HexNumber(s: string): nat
    requires AllHex(s)
  {
    if s == "" then 0 else HexNumber(s[..|s| - 1]) * 16 + HexDigit(s[|s| - 1])
  }

  function Number(s: string): nat
    requires AllDigits(s)
  {
    if s == "" then 0 else Number(s[..|s| - 1]) * 10 + (s[|s| - 1] as int - '0' as int)
  }

  /** `toString(16)` */
  function ToHex(n: nat): (s: string)
    ensures s != "" && AllHex(s) && HexNumber(s) == n
  {
    var d: string := [if n % 16 < 10 then (n % 16 + '0' as int) as char else (n % 16 - 10 + 'a' as int) as char];
    if n < 16 then assert d[..0] == ""; d
    else
      var s := ToHex(n / 16) + d;
      assert s[..|s| - 1] == ToHex(n / 16);
      s
  }

  // ----- splitting -----

  /** `split` at one character. */
  function Split(s: string, c: char): (parts: seq<string>)
    ensures parts != []
  {
    if s == "" then [""]
    else if s[0] == c then [""] + Split(s[1..], c)
    else
      var rest := Split(s[1..], c);
      [[s[0]] + rest[0]] + rest[1..]
  }

  /** `split(/::/)` */
  function SplitGap(s: string): (parts: seq<string>)
    ensures parts != []
    decreases |s|
  {
    if s == "" then [""]
    else if |s| > 1 && s[0] == ':' && s[1] == ':' then [""] + SplitGap(s[2..])
    else
      var rest := SplitGap(s[1..]);
      [[s[0]] + rest[0]] + rest[1..]
  }

  // ----- the words of an address -----

  predicate IsWord(s: string) {
    1 <= |s| <= 4 && AllHex(s)
  }

  predicate AllWords(parts: seq<string>) {
    forall k :: 0 <= k < |parts| ==> IsWord(parts[k])
  }

  function Values(parts: seq<string>): (ws: seq<nat>)
    requires AllWords(parts)
  {
    seq(|parts|, k requires 0 <= k < |parts| => HexNumber(parts[k]))
  }

  function Zeros(n: nat): seq<nat> {
    seq(n, _ => 0)
  }

  function OrZero(s: string): string {
    if s == "" then "0" else s
  }

  predicate IsPlain(x: string) {
    x != "" && forall i :: 0 <= i < |x| ==> IsHexDigit(x[i]) || x[i] == ':'
  }

  /** What `parseIPv6` makes of hexadecimal digits and colons. */
  function ParsedPlain(x: string): Option<seq<nat>> {
    if !IsPlain(x) then None
    else
      var gap := SplitGap(x);
      if |gap| > 2 then None
      else
        var prefix := Split(OrZero(gap[0]), ':');
        var suffix := if |gap| > 1 then Split(OrZero(gap[1]), ':') else [];
        if suffix != [] && |prefix| + |suffix| > 7 then None
        else if suffix == [] && |prefix| != 8 then None
        else if !AllWords(prefix) || !AllWords(suffix) then None
        else Some(Values(prefix) + Zeros(8 - |prefix| - |suffix|) + Values(suffix))
  }

  /** Where the part after the last colon starts, if something stands before that colon. */
  function LastColon(x: string): (k: nat)
    ensures k < |x| || k == 0
    ensures k > 0 ==> x[k] == ':' && forall i :: k < i < |x| ==> x[i] != ':'
  {
    if x == "" then 0
    else if x[|x| - 1] == ':' then |x| - 1
    else LastColon(x[..|x| - 1])
  }

  /** `(\d{1,3})\.(\d{1,3})\.(\d{1,3})\.(\d{1,3})` */
  predicate IsQuad(x: string) {
    var parts := Split(x, '.');
    |parts| == 4 && forall k :: 0 <= k < 4 ==> 1 <= |parts[k]| <= 3 && AllDigits(parts[k])
  }

  /** `parseIPv4` */
  function ParsedIPv4(x: string): (r: Option<seq<nat>>)
    ensures r.Some? ==> |r.value| == 4 && forall k :: 0 <= k < 4 ==> r.value[k] < 256
  {
    if !IsQuad(x) then None
    else
      var parts := Split(x, '.');
      var ns := [Number(parts[0]), Number(parts[1]), Number(parts[2]), Number(parts[3])];
      if ns[0] > 255 || ns[1] > 255 || ns[2] > 255 || ns[3] > 255 then None else Some(ns)
  }

  /** An address that ends with a dotted quad: what stands before it, and the quad. */
  predicate EndsWithQuad(x: string) {
    var k := LastColon(x);
    k > 0 && IsPlain(x[..k]) && IsQuad(x[k + 1..])
  }

  function Parsed(x: string): Option<seq<nat>> {
    if EndsWithQuad(x) then
      var k := LastColon(x);
      match ParsedIPv4(x[k + 1..])
      case None => None
      case Some(v4) =>
        ParsedPlain(x[..k] + ":" + ToHex(v4[0] * 256 + v4[1]) + ":" + ToHex(v4[2] * 256 + v4[3]))
    else ParsedPlain(x)
  }

  // ----- the loops of `parseIPv6` -----

  /** Appends the values of the parts, unless one of them is no word. */
  method PushWords(parts: seq<string>, words: seq<nat>) returns (ok: bool, all: seq<nat>)
    requires forall k :: 0 <= k < |parts| ==> AllHex(parts[k])
    ensures ok == AllWords(parts)
    ensures ok ==> all == words + Values(parts)
  {
    all := words;
    for i := 0 to |parts|
      invariant AllWords(parts[..i]) && all == words + Values(parts[..i])
    {
      if |parts[i]| <= 4 && parts[i] != "" && HexNumber(parts[i]) <= 0xFFFF {
        all := all + [HexNumber(parts[i])];
        assert parts[..i + 1] == parts[..i] + [parts[i]];
        assert Values(parts[..i + 1]) == Values(parts[..i]) + [HexNumber(parts[i])];
      } else {
        NoWord(parts, i);
        return false, all;
      }
    }
    assert parts[..|parts|] == parts;
    ok := true;
  }

  /** Four digits never exceed 16 bits. */
  lemma {:induction false} WordFits(s: string)
    requires AllHex(s) && |s| <= 4
    ensures HexNumber(s) <= 0xFFFF
    ensures |s| <= 3 ==> HexNumber(s) <= 0xFFF
    ensures |s| <= 2 ==> HexNumber(s) <= 0xFF
    ensures |s| <= 1 ==> HexNumber(s) <= 0xF
    decreases |s|
  {
    if s != "" {
      WordFits(s[..|s| - 1]);
    }
  }

  lemma NoWord(parts: seq<string>, i: nat)
    requires i < |parts| && AllHex(parts[i])
    requires |parts[i]| > 4 || parts[i] == "" || HexNumber(parts[i]) > 0xFFFF
    ensures !AllWords(parts)
  {
    if |parts[i]| <= 4 {
      WordFits(parts[i]);
    }
  }

  lemma {:induction false} PartsHex(s: string)
    requires forall i :: 0 <= i < |s| ==> IsHexDigit(s[i]) || s[i] == ':'
    ensures forall k :: 0 <= k < |Split(s, ':')| ==> AllHex(Split(s, ':')[k])
    decreases |s|
  {
    if s != "" {
      PartsHex(s[1..]);
    }
  }

  lemma {:induction false} GapPlain(s: string)
    requires forall i :: 0 <= i < |s| ==> IsHexDigit(s[i]) || s[i] == ':'
    ensures forall k :: 0 <= k < |SplitGap(s)| ==>
      forall i :: 0 <= i < |SplitGap(s)[k]| ==> IsHexDigit(SplitGap(s)[k][i]) || SplitGap(s)[k][i] == ':'
    decreases |s|
  {
    if s != "" {
      if |s| > 1 && s[0] == ':' && s[1] == ':' {
        GapPlain(s[2..]);
      } else {
        GapPlain(s[1..]);
      }
    }
  }

  method ParsePlain(x: string) returns (r: Option<seq<nat>>)
    ensures r == ParsedPlain(x)
  {
    if !IsPlain(x) {
      return None;
    }
    var gap := SplitGap(x);
    if |gap| > 2 {
      return None;
    }
    var prefix := Split(OrZero(gap[0]), ':');
    var suffix: seq<string> := if |gap| > 1 then Split(OrZero(gap[1]), ':') else [];
    if (if |suffix| != 0 then |prefix| + |suffix| > 7 else (|gap| < 2 && |prefix| < 8) || |prefix| > 8) {
      return None;
    }
    GapPlain(x);
    PartsHex(OrZero(gap[0]));
    if |gap| > 1 {
      PartsHex(OrZero(gap[1]));
    }
    var ok, words := PushWords(prefix, []);
    if !ok {
      return None;
    }
    assert [] + Values(prefix) == Values(prefix);
    for i := 0 to 8 - |prefix| - |suffix|
      invariant words == Values(prefix) + Zeros(i)
    {
      words := words + [0];
    }
    ok, words := PushWords(suffix, words);
    if !ok {
      return None;
    }
    r := Some(words);
  }

  lemma QuadAfterColon(x: string)
    requires EndsWithQuad(x)
    ensures 0 < LastColon(x) < |x|
  {
  }

  method ParseIPv6(x: string) returns (r: Option<seq<nat>>)
    ensures r == Parsed(x)
  {
    hide ParsedPlain;
    hide EndsWithQuad;
    hide ToHex;
    var y := x;
    if EndsWithQuad(x) {
      QuadAfterColon(x);
      var k := LastColon(x);
      var v4 := ParsedIPv4(x[k + 1..]);
      if v4.None? {
        return None;
      }
      y := x[..k] + ":" + ToHex(v4.value[0] * 256 + v4.value[1]) + ":" + ToHex(v4.value[2] * 256 + v4.value[3]);
    }
    r := ParsePlain(y);
  }
}
