/** What the words of a command line are, spelt out. */
module CommandWords {
  import opened Bytes
  import opened CommandLine

  /** White space between words, a character as it is, or any one with a backslash before it. */
  datatype Piece = Gap(c: byte) | Plain(c: byte) | Escaped(c: byte)

  /** Tab, line feed, vertical tab, form feed, carriage return and blank. */
  predicate IsWhite(c: byte) {
    c == 9 || c == 10 || c == 11 || c == 12 || c == 13 || c == 32
  }

  /** A backslash stands for itself at the very end only. */
  predicate Spelling(ps: seq<Piece>) {
    forall i :: 0 <= i < |ps| ==>
      match ps[i]
      case Gap(c) => IsWhite(c)
      case Plain(c) => !IsWhite(c) && (c == '\\' as int ==> i == |ps| - 1)
      case Escaped(_) => true
  }

  function Source(ps: seq<Piece>): seq<byte> {
    if ps == [] then [] else (if ps[0].Escaped? then ['\\' as int, ps[0].c] else [ps[0].c]) + Source(ps[1..])
  }

  function Said(ps: seq<Piece>): seq<byte> {
    seq(|ps|, i requires 0 <= i < |ps| => ps[i].c)
  }

  function FirstGap(ps: seq<Piece>): (k: nat)
    ensures k <= |ps|
  {
    if ps == [] || ps[0].Gap? then 0 else 1 + FirstGap(ps[1..])
  }

  /** The pieces between gaps, where there are any. */
  function Grouped(ps: seq<Piece>): seq<seq<byte>>
    decreases |ps|
  {
    var k := FirstGap(ps);
    (if k == 0 then [] else [Said(ps[..k])]) + if k == |ps| then [] else Grouped(ps[k + 1..])
  }

  lemma PieceIsRead(p: Piece, more: seq<byte>, cur: seq<byte>, begun: bool)
    requires Spelling([p]) && (p == Plain(BACKSLASH) ==> more == [])
    ensures Words(Source([p]) + more, cur, begun) ==
            if p.Gap? then (if begun then [cur] else []) + Words(more, [], false) else Words(more, cur + [p.c], true)
  {
    var c, s := p.c, Source([p]) + more;
    assert [p][0] == p && [p][1..] == [];
    assert Source([p]) == if p.Escaped? then ['\\' as int, c] else [c];
    if p.Escaped? {
      assert s[0] == BACKSLASH && s[1] == c && s[2..] == more;
    } else {
      assert s[0] == c && s[1..] == more;
    }
  }

  lemma SourceNext(ps: seq<Piece>)
    requires ps != [] && Spelling(ps)
    ensures Source(ps) == Source([ps[0]]) + Source(ps[1..])
    ensures Spelling([ps[0]]) && Spelling(ps[1..]) && (ps[0] == Plain(BACKSLASH) ==> Source(ps[1..]) == [])
  {
    assert [ps[0]][1..] == [];
    assert ps[0] == Plain(BACKSLASH) ==> ps[1..] == [];
  }

  lemma SaidNext(ps: seq<Piece>, k: nat, cur: seq<byte>)
    requires 0 < k <= |ps|
    ensures cur + [ps[0].c] + Said(ps[1..][..k - 1]) == cur + Said(ps[..k])
  {
  }

  /** The word that was begun goes on up to the first gap. */
  lemma {:induction false} WordGoesOn(ps: seq<Piece>, cur: seq<byte>, begun: bool)
    requires Spelling(ps)
    ensures var k := FirstGap(ps);
            Words(Source(ps), cur, begun) ==
            (if begun || k > 0 then [cur + Said(ps[..k])] else []) +
            if k == |ps| then [] else Words(Source(ps[k + 1..]), [], false)
    decreases |ps|
  {
    var k := FirstGap(ps);
    if ps == [] {
      assert cur + Said(ps[..k]) == cur;
    } else {
      SourceNext(ps);
      PieceIsRead(ps[0], Source(ps[1..]), cur, begun);
      hide Words;
      hide Source;
      hide Spelling;
      if ps[0].Gap? {
        assert cur + Said(ps[..k]) == cur;
      } else {
        assert k == 1 + FirstGap(ps[1..]);
        hide FirstGap;
        WordGoesOn(ps[1..], cur + [ps[0].c], true);
        SaidNext(ps, k, cur);
        assert k < |ps| ==> ps[1..][k..] == ps[k + 1..];
      }
    }
  }

  lemma {:induction false} LineIsRead(ps: seq<Piece>)
    requires Spelling(ps)
    ensures Words(Source(ps), [], false) == Grouped(ps)
    decreases |ps|
  {
    var k := FirstGap(ps);
    WordGoesOn(ps, [], false);
    assert [] + Said(ps[..k]) == Said(ps[..k]);
    hide Words;
    if k < |ps| {
      LineIsRead(ps[k + 1..]);
    }
  }

  lemma {:induction false} EveryLine(s: seq<byte>) returns (ps: seq<Piece>)
    ensures Spelling(ps) && Source(ps) == s
    decreases |s|
  {
    ps := [];
    if s != [] {
      var p, n := Gap(s[0]), 1;
      if s[0] == BACKSLASH && |s| > 1 {
        p, n := Escaped(s[1]), 2;
      } else if !IsWhite(s[0]) {
        p := Plain(s[0]);
      }
      ps := EveryLine(s[n..]);
      assert s[0] == BACKSLASH && |s| == 1 ==> ps == [];
      assert ([p] + ps)[1..] == ps;
      assert s == s[..n] + s[n..];
      ps := [p] + ps;
    }
  }

  /** A line is split into given words exactly if these are what its pieces say between the gaps. */
  lemma SplitsExactly(s: seq<byte>, ws: seq<seq<byte>>)
    ensures Words(s, [], false) == ws <==> exists ps :: Spelling(ps) && Source(ps) == s && Grouped(ps) == ws
  {
    hide *;
    var ps := EveryLine(s);
    LineIsRead(ps);
    forall ps | Spelling(ps) && Source(ps) == s ensures Grouped(ps) == Words(s, [], false) {
      LineIsRead(ps);
    }
  }
}
