/** The text forms of section 2.2 of RFC 4291 that `parseIPv6` reads, and what it makes of them. */
module Ipv6RoundTrip {
  import opened Common
  import opened Ipv6

  function Join(parts: seq<string>): string {
    if parts == [] then "" else if |parts| == 1 then parts[0] else parts[0] + (":" + Join(parts[1..]))
  }

  predicate Lacks(s: string, c: char) {
    forall i :: 0 <= i < |s| ==> s[i] != c
  }

  // ----- splitting and joining -----

  lemma {:induction false} SplitOne(s: string, c: char)
    requires Lacks(s, c)
    ensures Split(s, c) == [s]
    decreases |s|
  {
    if s != "" {
      SplitOne(s[1..], c);
      assert [s[0]] + s[1..] == s;
    }
  }

  lemma {:induction false} SplitAt(s: string, c: char, t: string)
    requires Lacks(s, c)
    ensures Split(s + ([c] + t), c) == [s] + Split(t, c)
    decreases |s|
  {
    var x := s + ([c] + t);
    if s == "" {
      assert x[1..] == t;
    } else {
      assert x[1..] == s[1..] + ([c] + t);
      SplitAt(s[1..], c, t);
      assert [s[0]] + s[1..] == s;
      assert [[s[0]] + s[1..]] + Split(t, c) == [s] + Split(t, c);
    }
  }

  lemma WordLacks(s: string)
    requires IsWord(s)
    ensures s != "" && Lacks(s, ':') && Lacks(s, '.')
  {
  }

  lemma {:induction false} SplitJoin(parts: seq<string>)
    requires parts != [] && AllWords(parts)
    ensures Split(Join(parts), ':') == parts
    decreases |parts|
  {
    WordLacks(parts[0]);
    if |parts| == 1 {
      SplitOne(parts[0], ':');
    } else {
      SplitJoin(parts[1..]);
      SplitAt(parts[0], ':', Join(parts[1..]));
    }
  }

  lemma {:induction false} JoinSplit(s: string)
    ensures Join(Split(s, ':')) == s
    decreases |s|
  {
    if s != "" {
      var rest := Split(s[1..], ':');
      JoinSplit(s[1..]);
      if s[0] == ':' {
        assert ([""] + rest)[1..] == rest;
      } else {
        var all := [[s[0]] + rest[0]] + rest[1..];
        assert all[1..] == rest[1..];
        assert [s[0]] + s[1..] == s;
        if |rest| > 1 {
          assert [s[0]] + rest[0] + (":" + Join(rest[1..])) == [s[0]] + (rest[0] + (":" + Join(rest[1..])));
        }
      }
    }
  }

  // ----- the gap -----

  /** No "::" in it, and no colon at its end. */
  predicate Gapless(s: string) {
    && (forall i :: 0 <= i && i + 1 < |s| && s[i] == ':' ==> s[i + 1] != ':')
    && (s != "" ==> s[|s| - 1] != ':')
  }

  lemma {:induction false} JoinGapless(parts: seq<string>)
    requires AllWords(parts)
    ensures Gapless(Join(parts)) && (parts != [] ==> Join(parts) != "" && IsHexDigit(Join(parts)[0]))
    ensures forall i :: 0 <= i < |Join(parts)| ==> IsHexDigit(Join(parts)[i]) || Join(parts)[i] == ':'
    decreases |parts|
  {
    if |parts| > 1 {
      JoinGapless(parts[1..]);
      WordLacks(parts[0]);
    }
  }

  lemma {:induction false} SplitGapless(s: string)
    requires Gapless(s)
    ensures SplitGap(s) == [s]
    decreases |s|
  {
    if s != "" {
      SplitGapless(s[1..]);
      assert [s[0]] + s[1..] == s;
    }
  }

  lemma {:induction false} SplitAtGap(s: string, t: string)
    requires Gapless(s)
    ensures SplitGap(s + ("::" + t)) == [s] + SplitGap(t)
    decreases |s|
  {
    var x := s + ("::" + t);
    if s == "" {
      assert x[2..] == t;
    } else {
      assert x[1..] == s[1..] + ("::" + t);
      assert !(x[0] == ':' && x[1] == ':');
      SplitAtGap(s[1..], t);
      assert [s[0]] + s[1..] == s;
      assert [[s[0]] + s[1..]] + SplitGap(t) == [s] + SplitGap(t);
    }
  }

  lemma {:induction false} UnsplitGap(s: string)
    ensures |SplitGap(s)| == 1 ==> SplitGap(s)[0] == s
    ensures |SplitGap(s)| == 2 ==> SplitGap(s)[0] + ("::" + SplitGap(s)[1]) == s
    decreases |s|
  {
    if s == "" {
    } else if |s| > 1 && s[0] == ':' && s[1] == ':' {
      UnsplitGap(s[2..]);
      assert "" + ("::" + s[2..]) == s;
    } else {
      var rest := SplitGap(s[1..]);
      UnsplitGap(s[1..]);
      assert [s[0]] + s[1..] == s;
      if |rest| == 2 {
        assert [s[0]] + rest[0] + ("::" + rest[1]) == [s[0]] + (rest[0] + ("::" + rest[1]));
      }
    }
  }

  // ----- the forms -----

  /** How many groups the code counts for one side of a gap: an empty side counts as one. */
  function Slots(parts: seq<string>): nat {
    if parts == [] then 1 else |parts|
  }

  function GapWords(left: seq<string>, right: seq<string>): seq<nat>
    requires AllWords(left) && AllWords(right) && |left| + |right| <= 8
  {
    Values(left) + Zeros(8 - |left| - |right|) + Values(right)
  }

  lemma SideSplits(parts: seq<string>)
    requires AllWords(parts)
    ensures var side := Split(OrZero(Join(parts)), ':');
            |side| == Slots(parts) && AllWords(side) && side == if parts == [] then ["0"] else parts
  {
    if parts == [] {
      SplitOne("0", ':');
    } else {
      JoinGapless(parts);
      SplitJoin(parts);
    }
  }

  /** Counting an empty side as a group of zero yields the same words. */
  lemma SidesMean(left: seq<string>, right: seq<string>)
    requires AllWords(left) && AllWords(right) && Slots(left) + Slots(right) <= 8
    ensures var l, r := if left == [] then ["0"] else left, if right == [] then ["0"] else right;
            Values(l) + Zeros(8 - |l| - |r|) + Values(r) == GapWords(left, right)
  {
    var zero := "0";
    assert zero[..0] == "";
    assert HexNumber(zero) == 0;
  }

  /** Without a gap. */
  lemma ParsedWhole(x: string)
    requires IsPlain(x) && |SplitGap(x)| == 1
    ensures var parts := Split(OrZero(SplitGap(x)[0]), ':');
            ParsedPlain(x) == if |parts| == 8 && AllWords(parts) then Some(Values(parts)) else None
  {
    var parts := Split(OrZero(SplitGap(x)[0]), ':');
    var none: seq<string> := [];
    if |parts| == 8 && AllWords(parts) {
      assert var none: seq<string> := []; AllWords(none) && Values(parts) + Zeros(0) + Values(none) == Values(parts);
    }
    hide Split;
    hide SplitGap;
    hide OrZero;
    hide IsPlain;
    hide Values;
    hide Zeros;
  }

  /** With one gap. */
  lemma ParsedHalves(x: string)
    requires IsPlain(x) && |SplitGap(x)| == 2
    ensures var p, q := Split(OrZero(SplitGap(x)[0]), ':'), Split(OrZero(SplitGap(x)[1]), ':');
            ParsedPlain(x) ==
            if |p| + |q| <= 7 && AllWords(p) && AllWords(q) then Some(Values(p) + Zeros(8 - |p| - |q|) + Values(q))
            else None
  {
    hide Split;
    hide SplitGap;
    hide OrZero;
    hide IsPlain;
    hide Values;
    hide Zeros;
  }

  lemma FullPlain(parts: seq<string>)
    requires AllWords(parts) && parts != []
    ensures ParsedPlain(Join(parts)) == if |parts| == 8 then Some(Values(parts)) else None
  {
    var x := Join(parts);
    JoinGapless(parts);
    SplitGapless(x);
    SplitJoin(parts);
    ParsedWhole(x);
    hide ParsedPlain;
    hide Split;
    hide SplitGap;
    hide Join;
    hide Gapless;
  }

  lemma GapPlainForm(left: seq<string>, right: seq<string>)
    requires AllWords(left) && AllWords(right)
    ensures ParsedPlain(Join(left) + ("::" + Join(right))) ==
            if Slots(left) + Slots(right) <= 7 then Some(GapWords(left, right)) else None
  {
    var x := Join(left) + ("::" + Join(right));
    GapIsPlain(left, right);
    GapSplits(left, right);
    SideSplits(left);
    SideSplits(right);
    ParsedHalves(x);
    hide *;
    hide Slots;
    if Slots(left) + Slots(right) <= 7 {
      SidesMean(left, right);
    }
  }

  lemma GapIsPlain(left: seq<string>, right: seq<string>)
    requires AllWords(left) && AllWords(right)
    ensures IsPlain(Join(left) + ("::" + Join(right)))
  {
    JoinGapless(left);
    JoinGapless(right);
    hide Join;
    hide AllWords;
    hide Gapless;
    hide IsHexDigit;
  }

  lemma GapSplits(left: seq<string>, right: seq<string>)
    requires AllWords(left) && AllWords(right)
    ensures SplitGap(Join(left) + ("::" + Join(right))) == [Join(left), Join(right)]
  {
    hide *;
    JoinGapless(left);
    JoinGapless(right);
    SplitAtGap(Join(left), Join(right));
    SplitGapless(Join(right));
  }

  /** The texts without a dotted quad that are read at all. */
  ghost predicate IsForm(x: string, ws: seq<nat>) {
    || (exists parts :: AllWords(parts) && |parts| == 8 && x == Join(parts) && ws == Values(parts))
    || (exists left, right ::
          AllWords(left) && AllWords(right) && Slots(left) + Slots(right) <= 7
          && x == Join(left) + ("::" + Join(right)) && ws == GapWords(left, right))
  }

  lemma SideUnsplits(s: string) returns (parts: seq<string>)
    requires AllWords(Split(OrZero(s), ':'))
    ensures AllWords(parts) && Join(parts) == s && Slots(parts) == |Split(OrZero(s), ':')|
    ensures Split(OrZero(s), ':') == if parts == [] then ["0"] else parts
  {
    if s == "" {
      parts := [];
      SplitOne("0", ':');
    } else {
      parts := Split(s, ':');
      JoinSplit(s);
    }
  }

  lemma FormsAreRead(x: string, ws: seq<nat>)
    requires IsForm(x, ws)
    ensures ParsedPlain(x) == Some(ws)
  {
    hide ParsedPlain;
    hide Values;
    hide Join;
    hide IsWord;
    if parts :| AllWords(parts) && |parts| == 8 && x == Join(parts) && ws == Values(parts) {
      FullPlain(parts);
    } else {
      var left, right :|
        AllWords(left) && AllWords(right) && Slots(left) + Slots(right) <= 7
        && x == Join(left) + ("::" + Join(right)) && ws == GapWords(left, right);
      GapPlainForm(left, right);
    }
  }

  lemma WholeIsForm(x: string, ws: seq<nat>)
    requires ParsedPlain(x) == Some(ws) && |SplitGap(x)| == 1
    ensures IsForm(x, ws)
  {
    UnsplitGap(x);
    ParsedWhole(x);
    hide ParsedPlain;
    hide Split;
    hide SplitGap;
    hide Values;
    hide Join;
    var parts := SideUnsplits(x);
    assert parts == Split(OrZero(x), ':');
  }

  lemma HalvesAreForm(x: string, ws: seq<nat>)
    requires ParsedPlain(x) == Some(ws) && |SplitGap(x)| == 2
    ensures IsForm(x, ws)
  {
    hide *;
    UnsplitGap(x);
    ReadIsPlain(x);
    ParsedHalves(x);
    var left := SideUnsplits(SplitGap(x)[0]);
    var right := SideUnsplits(SplitGap(x)[1]);
    SidesMean(left, right);
    GapIsForm(left, right);
  }

  lemma ReadIsPlain(x: string)
    requires ParsedPlain(x).Some?
    ensures IsPlain(x)
  {
  }

  lemma GapIsForm(left: seq<string>, right: seq<string>)
    requires AllWords(left) && AllWords(right) && Slots(left) + Slots(right) <= 7
    ensures |left| + |right| <= 8 && IsForm(Join(left) + ("::" + Join(right)), GapWords(left, right))
  {
    hide GapWords;
    hide Join;
    hide AllWords;
  }

  lemma ReadIsForm(x: string, ws: seq<nat>)
    requires ParsedPlain(x) == Some(ws)
    ensures IsForm(x, ws)
  {
    hide IsForm;
    if |SplitGap(x)| == 1 {
      WholeIsForm(x, ws);
    } else {
      HalvesAreForm(x, ws);
    }
  }

  lemma ReadsPlainExactly(x: string, ws: seq<nat>)
    ensures ParsedPlain(x) == Some(ws) <==> IsForm(x, ws)
  {
    hide *;
    if IsForm(x, ws) {
      FormsAreRead(x, ws);
    }
    if ParsedPlain(x) == Some(ws) {
      ReadIsForm(x, ws);
    }
  }

  /** Whatever is read is eight words of 16 bits. */
  lemma EightWords(x: string)
    ensures Parsed(x).Some? ==> |Parsed(x).value| == 8 && forall k :: 0 <= k < 8 ==> Parsed(x).value[k] < 0x1_0000
  {
    hide ParsedPlain;
    hide ParsedIPv4;
    hide EndsWithQuad;
    hide ToHex;
    if EndsWithQuad(x) {
      QuadAfterColon(x);
      var v4 := ParsedIPv4(x[LastColon(x) + 1..]);
      if v4.Some? {
        var ns := v4.value;
        PlainEightWords(x[..LastColon(x)] + ":" + ToHex(ns[0] * 256 + ns[1]) + ":" + ToHex(ns[2] * 256 + ns[3]));
      }
    } else {
      PlainEightWords(x);
    }
  }

  lemma PlainEightWords(x: string)
    ensures var r := ParsedPlain(x); r.Some? ==> |r.value| == 8 && forall k :: 0 <= k < 8 ==> r.value[k] < 0x1_0000
  {
    var r := ParsedPlain(x);
    if r.Some? {
      var gap := SplitGap(x);
      var prefix := Split(OrZero(gap[0]), ':');
      var suffix := if |gap| > 1 then Split(OrZero(gap[1]), ':') else [];
      ValuesFit(prefix);
      ValuesFit(suffix);
      hide Split;
      hide SplitGap;
    }
  }

  lemma ValuesFit(parts: seq<string>)
    requires AllWords(parts)
    ensures forall k :: 0 <= k < |parts| ==> Values(parts)[k] < 0x1_0000
  {
    forall k | 0 <= k < |parts| ensures Values(parts)[k] < 0x1_0000 {
      WordFits(parts[k]);
    }
  }

  // ----- an embedded IPv4 address -----

  lemma {:induction false} LastColonAt(s: string, t: string)
    requires s != "" && Lacks(t, ':')
    ensures LastColon(s + (":" + t)) == |s|
    decreases |t|
  {
    var x := s + (":" + t);
    if t != "" {
      assert x[..|x| - 1] == s + (":" + t[..|t| - 1]);
      LastColonAt(s, t[..|t| - 1]);
    }
  }

  lemma {:induction false} ToHexIsWord(n: nat)
    requires n < 0x1_0000
    ensures IsWord(ToHex(n)) && HexNumber(ToHex(n)) == n
  {
    HexLength(n, 4, 0x1_0000);
  }

  lemma {:induction false} HexLength(n: nat, digits: nat, bound: nat)
    requires 1 <= digits <= 4 && n < bound
    requires bound == (if digits == 1 then 16 else if digits == 2 then 256 else if digits == 3 then 4096 else 65536)
    ensures |ToHex(n)| <= digits
    decreases digits
  {
    if n >= 16 {
      HexLength(n / 16, digits - 1, bound / 16);
    }
  }

  lemma MixedValues(parts: seq<string>, s: string, t: string)
    requires AllWords(parts) && IsWord(s) && IsWord(t)
    ensures AllWords(parts + [s, t]) && Values(parts + [s, t]) == Values(parts) + [HexNumber(s), HexNumber(t)]
  {
    hide HexNumber;
    hide IsWord;
  }

  // ----- what `parseIPv6` makes of all this -----

  lemma PlainIsParsed(x: string)
    requires IsPlain(x)
    ensures Parsed(x) == ParsedPlain(x)
  {
    var k := LastColon(x);
    if k > 0 {
      var t := x[k + 1..];
      assert Lacks(t, '.') by {
        assert forall i :: 0 <= i < |t| ==> t[i] == x[k + 1 + i];
      }
      SplitOne(t, '.');
    }
    hide ParsedPlain;
  }

  /** Groups without a gap: eight of them, or nothing. */
  lemma FullForm(parts: seq<string>)
    requires AllWords(parts) && parts != []
    ensures Parsed(Join(parts)) == if |parts| == 8 then Some(Values(parts)) else None
  {
    assert IsPlain(Join(parts)) by {
      JoinGapless(parts);
      hide Join;
      hide AllWords;
    }
    PlainIsParsed(Join(parts));
    FullPlain(parts);
  }

  /**
   * A gap between two lists of groups, either of which may be empty: read as the groups with zeros
   * in between, unless there is no room for one group on each side of the gap besides the ones given.
   */
  lemma GapForm(left: seq<string>, right: seq<string>)
    requires AllWords(left) && AllWords(right)
    ensures Parsed(Join(left) + ("::" + Join(right))) ==
            if Slots(left) + Slots(right) <= 7 then Some(GapWords(left, right)) else None
  {
    GapIsPlain(left, right);
    PlainIsParsed(Join(left) + ("::" + Join(right)));
    GapPlainForm(left, right);
  }

  /** An address in the shortened form: the `n` groups from `i` on, all zero, are left out. */
  lemma ShortForm(parts: seq<string>, i: nat, n: nat)
    requires |parts| == 8 && AllWords(parts) && n > 0 && i + n <= 8
    requires forall k :: i <= k < i + n ==> HexNumber(parts[k]) == 0
    ensures Parsed(Join(parts[..i]) + ("::" + Join(parts[i + n..]))) == Some(Values(parts)) <==>
            !(n == 1 && (i == 0 || i == 7))
  {
    assert Slots(parts[..i]) + Slots(parts[i + n..]) <= 7 <==> !(n == 1 && (i == 0 || i == 7)) by {
      assert |parts[..i]| == i && |parts[i + n..]| == 8 - i - n;
    }
    hide *;
    hide Slots;
    assert AllWords(parts[..i]) && AllWords(parts[i + n..])
           && GapWords(parts[..i], parts[i + n..]) == Values(parts) by {
      assert |parts| == 8 && AllWords(parts) && i + n <= 8;
      assert forall k :: i <= k < i + n ==> HexNumber(parts[k]) == 0;
      hide IsWord;
      var ws := GapWords(parts[..i], parts[i + n..]);
      forall k | 0 <= k < 8 ensures ws[k] == Values(parts)[k] {
      }
    }
    GapForm(parts[..i], parts[i + n..]);
  }

  // ----- texts that end with a dotted quad -----

  /** Every group with a colon after it. */
  function WithColons(parts: seq<string>): string {
    if parts == [] then "" else parts[0] + (":" + WithColons(parts[1..]))
  }

  predicate FitsQuad(left: seq<string>, right: seq<string>) {
    AllWords(left) && AllWords(right) && Slots(left) + |right| <= 5
  }

  /** Six words: those of the groups, with zeros for the gap. */
  function SixWords(left: seq<string>, right: seq<string>): seq<nat>
    requires FitsQuad(left, right)
  {
    Values(left) + Zeros(6 - |left| - |right|) + Values(right)
  }

  /** What may stand before the last two groups, or before a quad: six groups, or fewer and a gap. */
  ghost predicate IsFront(front: string, ws: seq<nat>) {
    || (exists parts :: AllWords(parts) && |parts| == 6 && front == WithColons(parts) && ws == Values(parts))
    || (exists left, right ::
          FitsQuad(left, right) && front == Join(left) + ("::" + WithColons(right)) && ws == SixWords(left, right))
  }

  /** A dotted quad in the place of the last two groups. */
  ghost predicate IsQuadForm(x: string, ws: seq<nat>) {
    exists front, quad, six ::
      x == front + quad && IsFront(front, six) && ParsedIPv4(quad).Some?
      && ws == six + QuadWords(ParsedIPv4(quad).value)
  }

  function QuadWords(v4: seq<nat>): seq<nat>
    requires |v4| == 4
  {
    [v4[0] * 256 + v4[1], v4[2] * 256 + v4[3]]
  }

  lemma {:induction false} JoinEnds(parts: seq<string>, s: string, t: string)
    ensures Join(parts + [s, t]) == WithColons(parts) + (s + (":" + t))
    decreases |parts|
  {
    var all := parts + [s, t];
    if parts == [] {
      assert all == [s, t] && all[1..] == [t];
    } else {
      assert all[1..] == parts[1..] + [s, t] && all[0] == parts[0];
      JoinEnds(parts[1..], s, t);
      var w := WithColons(parts[1..]);
      assert parts[0] + (":" + (w + (s + (":" + t)))) == parts[0] + (":" + w) + (s + (":" + t));
    }
  }

  lemma {:induction false} WithColonsShape(parts: seq<string>)
    requires AllWords(parts)
    ensures parts == [] ==> WithColons(parts) == ""
    ensures |parts| > 0 ==> |WithColons(parts)| > 1 && WithColons(parts)[|WithColons(parts)| - 1] == ':'
    ensures forall i :: 0 <= i < |WithColons(parts)| ==> IsHexDigit(WithColons(parts)[i]) || WithColons(parts)[i] == ':'
    decreases |parts|
  {
    if parts != [] {
      WithColonsShape(parts[1..]);
    }
  }

  /** Plain text and a colon. */
  predicate EndsPlain(front: string) {
    |front| > 1 && front[|front| - 1] == ':' && IsPlain(front[..|front| - 1])
  }

  lemma FrontShape(front: string, ws: seq<nat>)
    requires IsFront(front, ws)
    ensures EndsPlain(front)
  {
    hide Join;
    hide WithColons;
    hide IsHexDigit;
    hide IsWord;
    hide Values;
    if parts :| AllWords(parts) && |parts| == 6 && front == WithColons(parts) {
      WithColonsShape(parts);
    } else {
      var left, right :| FitsQuad(left, right) && front == Join(left) + ("::" + WithColons(right));
      JoinGapless(left);
      WithColonsShape(right);
      GapEndsPlain(Join(left), WithColons(right));
    }
  }

  lemma GapEndsPlain(a: string, b: string)
    requires b == "" || b[|b| - 1] == ':'
    requires forall i :: 0 <= i < |a| ==> IsHexDigit(a[i]) || a[i] == ':'
    requires forall i :: 0 <= i < |b| ==> IsHexDigit(b[i]) || b[i] == ':'
    ensures EndsPlain(a + ("::" + b))
  {
    hide IsHexDigit;
  }

  /** What follows the last colon is determined by the text. */
  lemma LastPiece(a: string, s: string, b: string, t: string)
    requires a != "" && b != "" && Lacks(s, ':') && Lacks(t, ':') && a + (":" + s) == b + (":" + t)
    ensures a == b && s == t
  {
    LastColonAt(a, s);
    LastColonAt(b, t);
    var x := a + (":" + s);
    assert x[..|a|] == a && x[|a| + 1..] == s;
    assert x[..|b|] == b && x[|b| + 1..] == t;
  }

  lemma FrontPiece(front: string, s: string, other: string, t: string)
    requires |front| > 1 && front[|front| - 1] == ':' && |other| > 1 && other[|other| - 1] == ':'
    requires Lacks(s, ':') && Lacks(t, ':') && front + s == other + t
    ensures front == other && s == t
  {
    var a, b := front[..|front| - 1], other[..|other| - 1];
    assert front == a + ":" && other == b + ":";
    assert a + (":" + s) == front + s && b + (":" + t) == other + t;
    LastPiece(a, s, b, t);
  }

  /** Two groups after such a front. */
  lemma {:induction false} FrontPieces(front: string, s: string, t: string, other: string, u: string, v: string)
    requires |front| > 1 && front[|front| - 1] == ':' && |other| > 1 && other[|other| - 1] == ':'
    requires Lacks(s, ':') && Lacks(t, ':') && Lacks(u, ':') && Lacks(v, ':')
    requires front + (s + (":" + t)) == other + (u + (":" + v))
    ensures front == other && s == u && t == v
  {
    assert front + (s + (":" + t)) == (front + s) + (":" + t);
    assert other + (u + (":" + v)) == (other + u) + (":" + v);
    LastPiece(front + s, t, other + u, v);
    FrontPiece(front, s, other, u);
  }

  lemma LastTwo(parts: seq<string>)
    requires |parts| >= 2 && AllWords(parts)
    ensures var n := |parts| - 2;
            parts == parts[..n] + [parts[n], parts[n + 1]] && AllWords(parts[..n])
            && IsWord(parts[n]) && IsWord(parts[n + 1])
  {
    hide IsWord;
  }

  lemma SixAndTwo(left: seq<string>, right: seq<string>, s: string, t: string)
    requires FitsQuad(left, right) && IsWord(s) && IsWord(t)
    ensures AllWords(right + [s, t]) && Slots(left) + Slots(right + [s, t]) <= 7
    ensures GapWords(left, right + [s, t]) == SixWords(left, right) + [HexNumber(s), HexNumber(t)]
  {
    MixedValues(right, s, t);
    hide IsWord;
    hide HexNumber;
    hide Values;
    assert 8 - |left| - |right + [s, t]| == 6 - |left| - |right|;
  }

  lemma FullTail(front: string, s: string, t: string, parts: seq<string>)
    requires EndsPlain(front) && IsWord(s) && IsWord(t)
    requires AllWords(parts) && |parts| == 8 && front + (s + (":" + t)) == Join(parts)
    ensures exists six :: IsFront(front, six) && Values(parts) == six + [HexNumber(s), HexNumber(t)]
  {
    LastTwo(parts);
    var init := parts[..6];
    JoinEnds(init, parts[6], parts[7]);
    WithColonsShape(init);
    WordsLack(s, t, parts[6], parts[7]);
    EndsColon(front);
    FrontPieces(front, s, t, WithColons(init), parts[6], parts[7]);
    MixedValues(init, s, t);
    assert IsFront(WithColons(init), Values(init)) by {
      assert AllWords(init) && |init| == 6;
      hide WithColons;
      hide Values;
      hide IsWord;
    }
    hide *;
    hide EndsPlain;
  }

  lemma EndsColon(front: string)
    requires EndsPlain(front)
    ensures |front| > 1 && front[|front| - 1] == ':'
  {
  }

  lemma WordsLack(s: string, t: string, u: string, v: string)
    requires IsWord(s) && IsWord(t) && IsWord(u) && IsWord(v)
    ensures Lacks(s, ':') && Lacks(t, ':') && Lacks(u, ':') && Lacks(v, ':')
  {
  }

  /** After a gap there are two groups at least, if two groups end the text. */
  lemma TwoAfterGap(front: string, s: string, t: string, left: seq<string>, right: seq<string>)
    requires EndsPlain(front) && IsWord(s) && IsWord(t) && AllWords(left) && AllWords(right)
    requires front + (s + (":" + t)) == Join(left) + ("::" + Join(right))
    ensures |right| >= 2
  {
    assert (right == [] ==> Join(right) == "")
           && (|right| == 1 ==> Join(right) == right[0]);
    hide *;
    WordLacks(s);
    WordLacks(t);
    if right == [] {
      assert front + (s + (":" + t)) == (front + (s + ":")) + t;
      assert Join(left) + ("::" + "") == Join(left) + "::";
      NoWordAfterGap(front + (s + ":"), t, Join(left));
    } else if |right| == 1 {
      assert IsWord(right[0]);
      WordLacks(right[0]);
      OneAfterGap(front, s, t, Join(left), right[0]);
    }
  }

  lemma EndOf(a: string, t: string)
    requires t != ""
    ensures a + t != "" && (a + t)[|a + t| - 1] == t[|t| - 1]
  {
  }

  lemma NoWordAfterGap(a: string, t: string, b: string)
    requires t != "" && Lacks(t, ':')
    ensures a + t != b + "::"
  {
    EndOf(a, t);
    EndOf(b, "::");
  }

  lemma OneAfterGap(front: string, s: string, t: string, a: string, u: string)
    requires s != "" && Lacks(s, ':') && Lacks(t, ':') && Lacks(u, ':')
    ensures front + (s + (":" + t)) != a + ("::" + u)
  {
    if front + (s + (":" + t)) == a + ("::" + u) {
      assert front + (s + (":" + t)) == (front + s) + (":" + t);
      assert a + ("::" + u) == (a + ":") + (":" + u);
      LastPiece(front + s, t, a + ":", u);
      NoColonEnd(front, s, a);
    }
  }

  lemma NoColonEnd(a: string, t: string, b: string)
    requires t != "" && Lacks(t, ':')
    ensures a + t != b + ":"
  {
    EndOf(a, t);
    EndOf(b, ":");
  }

  lemma GapTail(front: string, s: string, t: string, left: seq<string>, right: seq<string>)
    requires EndsPlain(front) && IsWord(s) && IsWord(t)
    requires AllWords(left) && AllWords(right) && Slots(left) + Slots(right) <= 7
    requires front + (s + (":" + t)) == Join(left) + ("::" + Join(right))
    ensures exists six :: IsFront(front, six) && GapWords(left, right) == six + [HexNumber(s), HexNumber(t)]
  {
    TwoAfterGap(front, s, t, left, right);
    LastTwo(right);
    var n := |right| - 2;
    var init := right[..n];
    GapFrontIs(front, s, t, left, init, right[n], right[n + 1]);
    assert FitsQuad(left, right[..|right| - 2]) by {
      hide IsWord;
    }
    hide *;
    hide EndsPlain;
    SixAndTwo(left, init, s, t);
    assert IsFront(Join(left) + ("::" + WithColons(init)), SixWords(left, init)) by {
      hide WithColons;
      hide SixWords;
      hide FitsQuad;
      hide Join;
    }
  }

  lemma {:induction false} GapFrontIs(front: string, s: string, t: string, left: seq<string>, right: seq<string>,
                                      u: string, v: string)
    requires EndsPlain(front) && IsWord(s) && IsWord(t) && IsWord(u) && IsWord(v) && AllWords(right)
    requires front + (s + (":" + t)) == Join(left) + ("::" + Join(right + [u, v]))
    ensures front == Join(left) + ("::" + WithColons(right)) && s == u && t == v
  {
    hide *;
    JoinEnds(right, u, v);
    WithColonsShape(right);
    WordsLack(s, t, u, v);
    EndsColon(front);
    var other := Join(left) + ("::" + WithColons(right));
    assert other + (u + (":" + v)) == Join(left) + ("::" + (WithColons(right) + (u + (":" + v))));
    var b := WithColons(right);
    assert var x := Join(left) + ("::" + b); |x| > 1 && x[|x| - 1] == ':';
    FrontPieces(front, s, t, other, u, v);
  }

  /** Exactly such fronts may precede the last two groups. */
  lemma TailOfForm(front: string, s: string, t: string, ws: seq<nat>)
    requires EndsPlain(front) && IsWord(s) && IsWord(t) && IsForm(front + (s + (":" + t)), ws)
    ensures exists six :: IsFront(front, six) && ws == six + [HexNumber(s), HexNumber(t)]
  {
    hide EndsPlain;
    hide IsFront;
    hide IsWord;
    hide HexNumber;
    hide Join;
    hide Values;
    hide GapWords;
    var x := front + (s + (":" + t));
    if parts :| AllWords(parts) && |parts| == 8 && x == Join(parts) && ws == Values(parts) {
      FullTail(front, s, t, parts);
    } else {
      var left, right :|
        AllWords(left) && AllWords(right) && Slots(left) + Slots(right) <= 7
        && x == Join(left) + ("::" + Join(right)) && ws == GapWords(left, right);
      GapTail(front, s, t, left, right);
    }
  }

  lemma FullFront(parts: seq<string>, s: string, t: string)
    requires AllWords(parts) && |parts| == 6 && IsWord(s) && IsWord(t)
    ensures IsForm(WithColons(parts) + (s + (":" + t)), Values(parts) + [HexNumber(s), HexNumber(t)])
  {
    JoinEnds(parts, s, t);
    MixedValues(parts, s, t);
    hide WithColons;
    hide Values;
    hide HexNumber;
    hide IsWord;
    hide Join;
  }

  lemma GapFront(left: seq<string>, right: seq<string>, s: string, t: string)
    requires FitsQuad(left, right) && IsWord(s) && IsWord(t)
    ensures IsForm(Join(left) + ("::" + WithColons(right)) + (s + (":" + t)),
                   SixWords(left, right) + [HexNumber(s), HexNumber(t)])
  {
    JoinEnds(right, s, t);
    SixAndTwo(left, right, s, t);
    assert AllWords(left) && AllWords(right);
    hide *;
    GapIsForm(left, right + [s, t]);
    assert Join(left) + ("::" + WithColons(right)) + (s + (":" + t))
        == Join(left) + ("::" + (WithColons(right) + (s + (":" + t))));
  }

  lemma FormOfFront(front: string, s: string, t: string, six: seq<nat>)
    requires IsFront(front, six) && IsWord(s) && IsWord(t)
    ensures IsForm(front + (s + (":" + t)), six + [HexNumber(s), HexNumber(t)])
  {
    hide IsForm;
    hide IsWord;
    hide HexNumber;
    hide Join;
    hide WithColons;
    hide Values;
    hide FitsQuad;
    hide SixWords;
    if parts :| AllWords(parts) && |parts| == 6 && front == WithColons(parts) && six == Values(parts) {
      FullFront(parts, s, t);
    } else {
      var left, right :|
        FitsQuad(left, right) && front == Join(left) + ("::" + WithColons(right)) && six == SixWords(left, right);
      GapFront(left, right, s, t);
    }
  }

  lemma {:induction false} SplitCovers(s: string, c: char, i: nat) returns (k: nat)
    requires i < |s| && s[i] != c
    ensures k < |Split(s, c)| && s[i] in Split(s, c)[k]
    decreases |s|
  {
    var rest := Split(s[1..], c);
    if i == 0 {
      k := 0;
      var first := [s[0]] + rest[0];
      assert first[0] == s[0];
    } else {
      var j := SplitCovers(s[1..], c, i - 1);
      if s[0] == c {
        k := j + 1;
      } else {
        k := j;
        if j == 0 {
          SeqTail([s[0]], rest[0], s[i]);
        }
      }
    }
  }

  lemma SeqTail(s: string, t: string, x: char)
    requires x in t
    ensures x in s + t
  {
    var j :| 0 <= j < |t| && t[j] == x;
    assert (s + t)[|s| + j] == x;
  }

  /** A quad has digits and dots only. */
  lemma QuadLacks(quad: string)
    requires IsQuad(quad)
    ensures Lacks(quad, ':') && '.' in quad
  {
    var parts := Split(quad, '.');
    forall i | 0 <= i < |quad| ensures quad[i] != ':' {
      if quad[i] != '.' {
        var k := SplitCovers(quad, '.', i);
        assert AllDigits(parts[k]);
      }
    }
    if '.' !in quad {
      SplitOne(quad, '.');
    }
  }

  /** The text in which two groups stand for the quad. */
  function WithGroups(front: string, v4: seq<nat>): string
    requires |v4| == 4
  {
    front + (ToHex(v4[0] * 256 + v4[1]) + (":" + ToHex(v4[2] * 256 + v4[3])))
  }

  lemma QuadSplits(x: string) returns (front: string, quad: string)
    requires EndsWithQuad(x)
    ensures x == front + quad && EndsPlain(front) && IsQuad(quad)
    ensures Parsed(x) == match ParsedIPv4(quad) case None => None case Some(v4) => ParsedPlain(WithGroups(front, v4))
  {
    hide ParsedPlain;
    hide ToHex;
    hide IsQuad;
    hide IsHexDigit;
    var k := LastColon(x);
    front, quad := x[..k + 1], x[k + 1..];
    assert front[..k] == x[..k] && front == x[..k] + ":";
    if ParsedIPv4(quad).Some? {
      var v4 := ParsedIPv4(quad).value;
      var s, t := ToHex(v4[0] * 256 + v4[1]), ToHex(v4[2] * 256 + v4[3]);
      assert x[..k] + ":" + s + ":" + t == front + (s + (":" + t));
    }
  }

  lemma QuadEnds(front: string, quad: string)
    requires EndsPlain(front) && IsQuad(quad)
    ensures EndsWithQuad(front + quad) && '.' in front + quad
  {
    QuadLacks(quad);
    var x, head := front + quad, front[..|front| - 1];
    assert x == head + (":" + quad);
    LastColonAt(head, quad);
    assert x[..|head|] == head && x[|head| + 1..] == quad;
    hide IsQuad;
    hide IsHexDigit;
    assert x[|front|..] == quad;
  }

  /** A text has one front and one quad at most. */
  lemma QuadOnce(front: string, quad: string, ws: seq<nat>)
    requires EndsPlain(front) && IsQuad(quad)
    ensures IsQuadForm(front + quad, ws) <==>
            ParsedIPv4(quad).Some? && exists six :: IsFront(front, six) && ws == six + QuadWords(ParsedIPv4(quad).value)
  {
    QuadLacks(quad);
    if IsQuadForm(front + quad, ws) {
      var f, q, six :| front + quad == f + q && IsFront(f, six) && ParsedIPv4(q).Some?
        && ws == six + QuadWords(ParsedIPv4(q).value);
      FrontShape(f, six);
      QuadLacks(q);
      hide *;
      EndsColon(front);
      EndsColon(f);
      FrontPiece(front, quad, f, q);
    }
    hide IsFront;
    hide EndsPlain;
    hide IsQuad;
    hide QuadWords;
  }

  lemma GroupsAreRead(front: string, v4: seq<nat>, ws: seq<nat>)
    requires EndsPlain(front) && |v4| == 4 && forall k :: 0 <= k < 4 ==> v4[k] < 256
    ensures ParsedPlain(WithGroups(front, v4)) == Some(ws) <==>
              exists six :: IsFront(front, six) && ws == six + QuadWords(v4)
  {
    var m, n := v4[0] * 256 + v4[1], v4[2] * 256 + v4[3];
    assert m < 0x1_0000 && n < 0x1_0000;
    assert QuadWords(v4) == [m, n] && WithGroups(front, v4) == front + (ToHex(m) + (":" + ToHex(n)));
    ToHexIsWord(m);
    ToHexIsWord(n);
    hide *;
    WordsAreRead(front, ToHex(m), ToHex(n), ws);
  }

  lemma WordsAreRead(front: string, s: string, t: string, ws: seq<nat>)
    requires EndsPlain(front) && IsWord(s) && IsWord(t)
    ensures ParsedPlain(front + (s + (":" + t))) == Some(ws) <==>
              exists six :: IsFront(front, six) && ws == six + [HexNumber(s), HexNumber(t)]
  {
    assert AllHex(s) && AllHex(t);
    hide *;
    ReadsPlainExactly(front + (s + (":" + t)), ws);
    if IsForm(front + (s + (":" + t)), ws) {
      TailOfForm(front, s, t, ws);
    }
    if six :| IsFront(front, six) && ws == six + [HexNumber(s), HexNumber(t)] {
      FormOfFront(front, s, t, six);
    }
  }

  lemma QuadsAreRead(x: string, ws: seq<nat>)
    requires EndsWithQuad(x)
    ensures Parsed(x) == Some(ws) <==> IsQuadForm(x, ws)
    ensures !IsForm(x, ws)
  {
    hide *;
    var front, quad := QuadSplits(x);
    QuadEnds(front, quad);
    QuadOnce(front, quad, ws);
    var v4 := ParsedIPv4(quad);
    if v4.Some? {
      GroupsAreRead(front, v4.value, ws);
    }
    NoDots(x, ws);
  }

  lemma NoDots(x: string, ws: seq<nat>)
    requires '.' in x
    ensures !IsForm(x, ws)
  {
    if IsForm(x, ws) {
      FormsAreRead(x, ws);
      ReadIsPlain(x);
    }
  }

  lemma NoQuadNoForm(x: string, ws: seq<nat>)
    requires !EndsWithQuad(x)
    ensures !IsQuadForm(x, ws)
  {
    hide EndsWithQuad;
    hide IsFront;
    hide EndsPlain;
    hide IsQuad;
    hide QuadWords;
    if IsQuadForm(x, ws) {
      var front, quad, six :|
        x == front + quad && IsFront(front, six) && ParsedIPv4(quad).Some?
        && ws == six + QuadWords(ParsedIPv4(quad).value);
      FrontShape(front, six);
      QuadEnds(front, quad);
    }
  }

  /** The texts that `parseIPv6` reads, and the words it finds in them. */
  lemma ReadsExactly(x: string, ws: seq<nat>)
    ensures Parsed(x) == Some(ws) <==> IsForm(x, ws) || IsQuadForm(x, ws)
  {
    hide EndsWithQuad;
    hide IsForm;
    hide IsQuadForm;
    hide ParsedPlain;
    hide ToHex;
    hide ParsedIPv4;
    if EndsWithQuad(x) {
      QuadsAreRead(x, ws);
    } else {
      NoQuadNoForm(x, ws);
      ReadsPlainExactly(x, ws);
    }
  }
}
