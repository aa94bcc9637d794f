/** `urldecode` of util.c, and the `encodeURIComponent` whose output it reads. */
module UrlEncoding {
  import opened Bytes
  import opened CStrings
  import opened Common

  /** `isxdigit` in the C locale. */
  predicate IsHex(c: byte) {
    48 <= c <= 57 || 65 <= c <= 70 || 97 <= c <= 102
  }

  function Hex(c: byte): (n: nat)
    requires IsHex(c)
    ensures n < 16
  {
    if c <= 57 then c - 48 else if c <= 70 then c - 65 + 10 else c - 97 + 10
  }

  function HexByte(hi: byte, lo: byte): byte
    requires IsHex(hi) && IsHex(lo)
  {
    16 * Hex(hi) + Hex(lo)
  }

  function Prepend(front: seq<byte>, rest: Option<seq<byte>>): Option<seq<byte>> {
    if rest.Some? then Some(front + rest.value) else None
  }

  function Decode(s: seq<byte>): Option<seq<byte>>
    decreases |s|
  {
    if s == [] then
      Some([])
    else if s[0] == PERCENT then
      if |s| >= 3 && IsHex(s[1]) && IsHex(s[2]) then Prepend([HexByte(s[1], s[2])], Decode(s[3..])) else None
    else
      Prepend([if s[0] == PLUS then SPACE else s[0]], Decode(s[1..]))
  }

  // ----- decoding in place -----

  /** `done` has been written up to `c`; from `p` on the string is as it was. */
  ghost predicate Decoding(b0: seq<byte>, b: seq<byte>, off: nat, s: seq<byte>, c: nat, p: nat, done: seq<byte>) {
    && |b| == |b0| && off + |s| < |b| && off <= c <= p <= off + |s|
    && c == off + |done| && b[off..c] == done
    && b[..off] == b0[..off] && b[p..] == b0[p..]
    && Decode(s) == Prepend(done, Decode(s[p - off..]))
  }

  lemma DecodingStarts(b: seq<byte>, off: nat, s: seq<byte>)
    requires off + |s| < |b|
    ensures Decoding(b, b, off, s, off, off, [])
  {
    assert s[0..] == s;
    assert Decode(s).Some? ==> [] + Decode(s).value == Decode(s).value;
  }

  lemma {:induction false} DecodesByte(b0: seq<byte>, b: seq<byte>, off: nat, s: seq<byte>, c: nat, p: nat,
                                       done: seq<byte>, p': nat, x: byte)
    requires Decoding(b0, b, off, s, c, p, done)
    requires p < p' <= off + |s|
    requires Decode(s[p - off..]) == Prepend([x], Decode(s[p' - off..]))
    ensures Decoding(b0, b[c := x], off, s, c + 1, p', done + [x])
  {
    hide Decode;
    var b' := b[c := x];
    assert b'[off..c + 1] == b[off..c] + [x];
    assert b'[..off] == b[..off];
    assert b'[p'..] == b[p..][p' - p..] == b0[p..][p' - p..] == b0[p'..];
    var rest := Decode(s[p' - off..]);
    assert rest.Some? ==> done + ([x] + rest.value) == done + [x] + rest.value;
  }

  /** What the decoder does with the next byte of the string. */
  lemma DecodesNext(s: seq<byte>, k: nat)
    requires k < |s|
    ensures if s[k] == PERCENT then
              if k + 3 <= |s| && IsHex(s[k + 1]) && IsHex(s[k + 2]) then
                Decode(s[k..]) == Prepend([HexByte(s[k + 1], s[k + 2])], Decode(s[k + 3..]))
              else
                Decode(s[k..]) == None
            else
              Decode(s[k..]) == Prepend([if s[k] == PLUS then SPACE else s[k]], Decode(s[k + 1..]))
  {
    var t := s[k..];
    assert t[0] == s[k] && t[1..] == s[k + 1..];
    if k + 3 <= |s| {
      assert t[1] == s[k + 1] && t[2] == s[k + 2] && t[3..] == s[k + 3..];
    }
  }

  /** The bytes the loop looks at are still those of the string. */
  lemma {:induction false} Peek(b0: seq<byte>, b: seq<byte>, off: nat, s: seq<byte>, c: nat, p: nat, done: seq<byte>,
                                k: nat)
    requires Decoding(b0, b, off, s, c, p, done) && Holds(b0, off, s) && p <= k <= off + |s|
    ensures off <= c <= p && off + |s| < |b|
    ensures b[k] == if k < off + |s| then s[k - off] else NUL
  {
    hide Decode;
    assert b[k] == b[p..][k - p] == b0[p..][k - p] == b0[k];
    if k < off + |s| {
      assert b0[k] == b0[off..off + |s|][k - off];
    }
  }

  lemma Rest(b0: seq<byte>, b: seq<byte>, p: nat, q: nat)
    requires p <= q <= |b| == |b0| && b[p..] == b0[p..]
    ensures b[q..] == b0[q..]
  {
    assert b[q..] == b[p..][q - p..] && b0[q..] == b0[p..][q - p..];
  }

  /** What the decoder leaves: only the bytes of the string and its NUL may have changed. */
  ghost predicate Decoded(b0: seq<byte>, b: seq<byte>, off: nat, s: seq<byte>, ok: bool) {
    && ok == Decode(s).Some?
    && |b| == |b0| && off + |s| < |b|
    && b[..off] == b0[..off] && b[off + |s| + 1..] == b0[off + |s| + 1..]
    && (ok ==> Holds(b, off, Decode(s).value) && |Decode(s).value| <= |s|)
  }

  lemma {:induction false} DecodingFails(b0: seq<byte>, b: seq<byte>, off: nat, s: seq<byte>, c: nat, p: nat,
                                         done: seq<byte>)
    requires Decoding(b0, b, off, s, c, p, done) && p < off + |s| && Decode(s[p - off..]) == None
    ensures Decoded(b0, b, off, s, false)
  {
    hide Decode;
    Rest(b0, b, p, off + |s| + 1);
  }

  lemma {:induction false} DecodingEnds(b0: seq<byte>, b: seq<byte>, off: nat, s: seq<byte>, c: nat, done: seq<byte>)
    requires Decoding(b0, b, off, s, c, off + |s|, done)
    ensures c < |b| && Decoded(b0, b[c := NUL], off, s, true)
  {
    assert Decode(s) == Some(done) by {
      assert s[|s|..] == [] && done + [] == done;
    }
    hide Decode;
    var p := off + |s|;
    Rest(b0, b, p, p + 1);
    Terminate(b, off, c, p + 1);
  }

  lemma Terminate(b: seq<byte>, off: nat, c: nat, p: nat)
    requires off <= c < p <= |b|
    ensures var b' := b[c := NUL];
            b'[..off] == b[..off] && b'[p..] == b[p..] && b'[off..c] == b[off..c] && b'[c] == NUL
  {
  }

  /**
   * The decoded string takes the place of the encoded one, which is never shorter; no byte outside
   * it changes. An escape without its two digits stops the decoder.
   */
  method UrlDecode(buf: array<byte>, off: int, ghost s: seq<byte>) returns (ok: bool)
    requires off != NULL ==> Holds(buf[..], off, s) && NUL !in s
    modifies buf
    ensures off == NULL ==> ok && buf[..] == old(buf[..])
    ensures off != NULL ==> Decoded(old(buf[..]), buf[..], off, s, ok)
  {
    hide Decode;
    hide Decoding;
    hide Decoded;
    hide Prepend;
    hide HexByte;
    if off == NULL {
      return true;
    }
    ghost var b0, done: seq<byte> := buf[..], [];
    var c: nat, p: nat := off, off;
    DecodingStarts(b0, off, s);
    Peek(b0, b0, off, s, c, p, done, p);
    while buf[p] != NUL
      invariant off <= c <= p <= off + |s| < buf.Length
      invariant Decoding(b0, buf[..], off, s, c, p, done)
      invariant buf[p] == if p < off + |s| then s[p - off] else NUL
      decreases off + |s| - p
    {
      ghost var b := buf[..];
      ghost var was := p;
      DecodesNext(s, p - off);
      Peek(b0, b, off, s, c, p, done, p + 1);
      var x := buf[p];
      if x == PERCENT {
        if p + 2 <= off + |s| {
          Peek(b0, b, off, s, c, p, done, p + 2);
        }
        if !IsHex(buf[p + 1]) || !IsHex(buf[p + 2]) {
          DecodingFails(b0, b, off, s, c, p, done);
          return false;
        }
        x := HexByte(buf[p + 1], buf[p + 2]);
        p := p + 3;
      } else {
        if x == PLUS {
          x := SPACE;
        }
        p := p + 1;
      }
      DecodesByte(b0, b, off, s, c, was, done, p, x);
      buf[c] := x;
      assert buf[..] == b[c := x];
      done := done + [x];
      c := c + 1;
      Peek(b0, buf[..], off, s, c, p, done, p);
    }
    DecodingEnds(b0, buf[..], off, s, c, done);
    ghost var b := buf[..];
    buf[c] := NUL;
    assert buf[..] == b[c := NUL];
    ok := true;
  }

  // ----- the encoder -----

  /** The bytes `encodeURIComponent` leaves alone. */
  predicate Unreserved(c: byte) {
    || 48 <= c <= 57 || 65 <= c <= 90 || 97 <= c <= 122
    || c == 45 || c == 95 || c == 46 || c == 33 || c == 126 || c == 42 || 39 <= c <= 41
  }

  function Digit(n: nat): byte
    requires n < 16
  {
    if n < 10 then 48 + n else 55 + n
  }

  function EncodeByte(c: byte): seq<byte> {
    if Unreserved(c) then [c] else [PERCENT, Digit(c / 16), Digit(c % 16)]
  }

  function Encode(s: seq<byte>): (e: seq<byte>)
    ensures EQUALS !in e && AMPERSAND !in e && NUL !in e
  {
    if s == [] then [] else EncodeByte(s[0]) + Encode(s[1..])
  }

  lemma {:induction false} DecodeEncode(s: seq<byte>)
    ensures Decode(Encode(s)) == Some(s)
  {
    if s != [] {
      DecodeEncode(s[1..]);
      var rest := Encode(s[1..]);
      assert Decode(EncodeByte(s[0]) + rest) == Prepend([s[0]], Decode(rest)) by {
        var e := EncodeByte(s[0]) + rest;
        if Unreserved(s[0]) {
          assert e[1..] == rest;
        } else {
          assert e[3..] == rest;
          assert HexByte(Digit(s[0] / 16), Digit(s[0] % 16)) == s[0];
        }
      }
      assert [s[0]] + s[1..] == s;
    }
  }

  // ----- every way of writing a string -----

  const CAPITAL_DIGITS: seq<byte> := [48, 49, 50, 51, 52, 53, 54, 55, 56, 57, 65, 66, 67, 68, 69, 70]
  const SMALL_DIGITS: seq<byte> := [48, 49, 50, 51, 52, 53, 54, 55, 56, 57, 97, 98, 99, 100, 101, 102]

  /** `d` is a hexadecimal digit for `n`, in either case. */
  predicate Spells(d: byte, n: nat) {
    n < 16 && (d == CAPITAL_DIGITS[n] || d == SMALL_DIGITS[n])
  }

  lemma SpellsHex(d: byte)
    ensures IsHex(d) ==> Spells(d, Hex(d))
    ensures forall n: nat :: Spells(d, n) ==> IsHex(d) && Hex(d) == n
  {
  }

  /**
   A way of writing `s`: each byte as it is, unless it is a percent sign or a plus sign, or escaped,
   its two digits in either case; or a plus sign for a blank.
   */
  predicate Writes(e: seq<byte>, s: seq<byte>)
    decreases |e|
  {
    if s == [] then e == []
    else
      || (e != [] && e[0] == s[0] && s[0] as char !in "%+" && Writes(e[1..], s[1..]))
      || (e != [] && e[0] == '+' as int && s[0] == ' ' as int && Writes(e[1..], s[1..]))
      || (|e| >= 3 && e[0] == '%' as int && Spells(e[1], s[0] / 16) && Spells(e[2], s[0] % 16)
          && Writes(e[3..], s[1..]))
  }

  lemma HexByteSpelt(hi: byte, lo: byte, c: byte)
    ensures IsHex(hi) && IsHex(lo) && HexByte(hi, lo) == c <==> Spells(hi, c / 16) && Spells(lo, c % 16)
  {
    SpellsHex(hi);
    SpellsHex(lo);
    hide Spells;
    hide IsHex;
    hide Hex;
    if IsHex(hi) && IsHex(lo) {
      Digits(Hex(hi), Hex(lo), c);
    }
  }

  lemma Digits(hi: nat, lo: nat, c: nat)
    requires hi < 16 && lo < 16
    ensures 16 * hi + lo == c <==> hi == c / 16 && lo == c % 16
  {
  }

  lemma PrependIs(x: byte, rest: Option<seq<byte>>, s: seq<byte>)
    requires s != []
    ensures Prepend([x], rest) == Some(s) <==> x == s[0] && rest == Some(s[1..])
  {
    assert s == [s[0]] + s[1..];
    if rest.Some? && [x] + rest.value == s {
      assert ([x] + rest.value)[1..] == rest.value;
    }
  }

  /** The strings a text decodes to are exactly those it is a way of writing. */
  lemma {:induction false} DecodesExactly(e: seq<byte>, s: seq<byte>)
    ensures Decode(e) == Some(s) <==> Writes(e, s)
    decreases |e|
  {
    hide Spells;
    hide IsHex;
    hide HexByte;
    hide Prepend;
    if e == [] || s == [] {
      DecodesSomething(e);
    } else if e[0] == PERCENT {
      if |e| >= 3 {
        HexByteSpelt(e[1], e[2], s[0]);
        DecodesExactly(e[3..], s[1..]);
        if IsHex(e[1]) && IsHex(e[2]) {
          PrependIs(HexByte(e[1], e[2]), Decode(e[3..]), s);
        }
      }
    } else {
      DecodesExactly(e[1..], s[1..]);
      PrependIs(if e[0] == PLUS then SPACE else e[0], Decode(e[1..]), s);
    }
  }

  lemma DecodesSomething(e: seq<byte>)
    ensures Decode(e) == Some([]) <==> e == []
  {
  }

  // ----- the one way `encodeURIComponent` writes it -----

  /** Letters, digits and nine marks stand for themselves. */
  predicate IsMark(c: byte) {
    var x := c as char;
    'a' <= x <= 'z' || 'A' <= x <= 'Z' || '0' <= x <= '9' || x in "-_.!~*'()"
  }

  /** `e` is `s` with every byte but these escaped in capital digits. */
  predicate IsComponent(e: seq<byte>, s: seq<byte>) {
    if s == [] then e == []
    else if IsMark(s[0]) then e != [] && e[0] == s[0] && IsComponent(e[1..], s[1..])
    else
      && |e| >= 3 && e[0] == '%' as int
      && e[1] == CAPITAL_DIGITS[s[0] / 16] && e[2] == CAPITAL_DIGITS[s[0] % 16] && IsComponent(e[3..], s[1..])
  }

  lemma EncodeByteSpelt(c: byte)
    ensures EncodeByte(c) ==
            if IsMark(c) then [c] else ['%' as int, CAPITAL_DIGITS[c / 16], CAPITAL_DIGITS[c % 16]]
  {
    assert forall n: nat :: n < 16 ==> Digit(n) == CAPITAL_DIGITS[n];
  }

  lemma {:induction false} EncodesExactly(e: seq<byte>, s: seq<byte>)
    ensures e == Encode(s) <==> IsComponent(e, s)
    decreases |s|
  {
    if s != [] {
      EncodeByteSpelt(s[0]);
      hide EncodeByte;
      hide IsMark;
      hide CAPITAL_DIGITS;
      var n := |EncodeByte(s[0])|;
      if |e| >= n {
        EncodesExactly(e[n..], s[1..]);
        assert e == e[..n] + e[n..];
        assert (EncodeByte(s[0]) + Encode(s[1..]))[n..] == Encode(s[1..]);
        assert (EncodeByte(s[0]) + Encode(s[1..]))[..n] == EncodeByte(s[0]);
      }
    }
  }
}
