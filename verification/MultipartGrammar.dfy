/**
 Which inputs the multipart parser accepts: the prefixes of the words of a grammar; and where it stops
 otherwise: at the end of the longest such prefix.
 */
module MultipartGrammar {
  import opened Bytes
  import opened Common
  import opened MultipartMachine
  import opened MultipartMatching
  import opened MultipartRoundTrip

  // ----- the grammar -----

  /** A header line: what stands before its colon, and what stands between that and its CR. */
  datatype Line = Line(name: seq<byte>, text: seq<byte>)

  /** The lines of a part, what stands on its blank line (part of a name, if anything), and its data. */
  datatype Section = Section(lines: seq<Line>, stray: seq<byte>, body: seq<byte>)

  predicate InName(c: byte) {
    'A' as int <= c <= 'Z' as int || 'a' as int <= c <= 'z' as int || c == '-' as int
  }

  predicate NameLike(s: seq<byte>) {
    forall i :: 0 <= i < |s| ==> InName(s[i])
  }

  predicate ProperLine(l: Line) {
    NameLike(l.name) && CR !in l.text
  }

  /** The delimiter behind the data is the first one from where the data begins. */
  ghost predicate Proper(b: seq<byte>, p: Section) {
    && (forall i :: 0 <= i < |p.lines| ==> ProperLine(p.lines[i]))
    && NameLike(p.stray)
    && FirstAt(Delimiter(b), p.body + Delimiter(b), |p.body|)
  }

  ghost predicate AllProper(b: seq<byte>, ps: seq<Section>) {
    forall i :: 0 <= i < |ps| ==> Proper(b, ps[i])
  }

  function WriteLine(l: Line): seq<byte> {
    l.name + [':' as int] + (l.text + [CR, LF])
  }

  function WriteLines(ls: seq<Line>): seq<byte> {
    if ls == [] then [] else WriteLine(ls[0]) + WriteLines(ls[1..])
  }

  function WriteSection(b: seq<byte>, p: Section): seq<byte> {
    WriteLines(p.lines) + (p.stray + [CR, LF] + (p.body + Delimiter(b)))
  }

  /** After a delimiter: two hyphens and anything, or the end of the line and the next part. */
  function WriteRest(b: seq<byte>, ps: seq<Section>, epilogue: seq<byte>): seq<byte> {
    if ps == [] then [HYPHEN, HYPHEN] + epilogue
    else [CR, LF] + (WriteSection(b, ps[0]) + WriteRest(b, ps[1..], epilogue))
  }

  /** The boundary, without the CR LF a preamble would need, and one part at least. */
  function Write(b: seq<byte>, p: Section, ps: seq<Section>, epilogue: seq<byte>): seq<byte> {
    b + ['\r' as int, '\n' as int] + (WriteSection(b, p) + WriteRest(b, ps, epilogue))
  }

  ghost predicate Viable(b: seq<byte>, s: seq<byte>) {
    exists p, ps, epilogue :: Proper(b, p) && AllProper(b, ps) && s <= Write(b, p, ps, epilogue)
  }

  // ----- what a word tells -----

  /** The value of a header: without the spaces it begins with. */
  function Stripped(text: seq<byte>): seq<byte> {
    if text != [] && text[0] == ' ' as int then Stripped(text[1..]) else text
  }

  function LineTokens(ls: seq<Line>): seq<Token> {
    if ls == [] then [] else [Field(ls[0].name), Value(Stripped(ls[0].text))] + LineTokens(ls[1..])
  }

  function SectionTokens(p: Section): seq<Token> {
    LineTokens(p.lines) + ([HeadersComplete] + (DataTokens(p.body) + [PartEnd]))
  }

  function RestTokens(ps: seq<Section>): seq<Token> {
    if ps == [] then [BodyEnd] else [PartBegin] + (SectionTokens(ps[0]) + RestTokens(ps[1..]))
  }

  lemma NameLikeIsName(s: seq<byte>)
    ensures NameLike(s) <==> IsName(s)
  {
    forall c: byte ensures InName(c) <==> IsLetter(c) || c == HYPHEN {
    }
    hide InName;
    hide IsLetter;
  }

  lemma {:induction false} ReadsSpaced(b: seq<byte>, text: seq<byte>)
    requires |b| > 0 && CR !in text
    ensures Reads(b, HeaderValueStart, text + [CR], [Value(Stripped(text))], HeaderValueAlmostDone)
    decreases |text|
  {
    if text != [] && text[0] == SPACE {
      ReadsSpaced(b, text[1..]);
      ReadsByte(b, HeaderValueStart, SPACE, [], HeaderValueStart);
      hide Reads;
      ReadsBoth(b, HeaderValueStart, [SPACE], [], HeaderValueStart, text[1..] + [CR], [Value(Stripped(text[1..]))],
                HeaderValueAlmostDone);
      assert [SPACE] + (text[1..] + [CR]) == text + [CR];
      assert [] + [Value(Stripped(text))] == [Value(Stripped(text))];
    } else {
      ReadsText(b, text);
    }
  }

  lemma ReadsLine(b: seq<byte>, l: Line)
    requires |b| > 0 && ProperLine(l)
    ensures Reads(b, HeaderFieldStart, WriteLine(l), [Field(l.name), Value(Stripped(l.text))], HeaderFieldStart)
  {
    NameLikeIsName(l.name);
    ReadsName(b, l.name);
    ReadsSpaced(b, l.text);
    ReadsByte(b, HeaderValueAlmostDone, LF, [], HeaderFieldStart);
    hide Reads;
    var v := [Value(Stripped(l.text))];
    ReadsBoth(b, HeaderValueStart, l.text + [CR], v, HeaderValueAlmostDone, [LF], [], HeaderFieldStart);
    assert v + [] == v && l.text + [CR] + [LF] == l.text + [CR, LF];
    ReadsBoth(b, HeaderFieldStart, l.name + [COLON], [Field(l.name)], HeaderValueStart, l.text + [CR, LF], v,
              HeaderFieldStart);
    assert [Field(l.name)] + v == [Field(l.name), Value(Stripped(l.text))];
  }

  lemma {:induction false} ReadsLines(b: seq<byte>, ls: seq<Line>)
    requires |b| > 0 && forall i :: 0 <= i < |ls| ==> ProperLine(ls[i])
    ensures Reads(b, HeaderFieldStart, WriteLines(ls), LineTokens(ls), HeaderFieldStart)
  {
    if ls == [] {
      ReadsNothing(b, HeaderFieldStart);
    } else {
      ReadsLine(b, ls[0]);
      ReadsLines(b, ls[1..]);
      hide Reads;
      ReadsBoth(b, HeaderFieldStart, WriteLine(ls[0]), [Field(ls[0].name), Value(Stripped(ls[0].text))],
                HeaderFieldStart,
                WriteLines(ls[1..]), LineTokens(ls[1..]), HeaderFieldStart);
    }
  }

  /** A piece of a name, with nothing told yet. */
  lemma {:induction false} NameRuns(b: seq<byte>, m: Machine, name: seq<byte>)
    requires |b| > 0 && (m.phase.HeaderFieldStart? || m.phase.HeaderField?) && NameLike(name)
    ensures var o := Run(b, m, name);
            o.ok && o.toks == [] && (o.m.phase.HeaderFieldStart? || o.m.phase.HeaderField?)
    decreases |name|
  {
    if name != [] {
      var o := Step(b, m, name[0]);
      assert o.ok && o.m.phase.HeaderField? && o.toks == [];
      hide Step;
      NameRuns(b, o.m, name[1..]);
    }
  }

  lemma ReadsStray(b: seq<byte>, stray: seq<byte>)
    requires |b| > 0 && NameLike(stray)
    ensures Reads(b, HeaderFieldStart, stray + [CR, LF], [], PartDataStart)
  {
    forall index: nat, acc
      ensures ReadsFrom(b, Machine(HeaderFieldStart, index, acc), stray + [CR, LF], [], PartDataStart)
    {
      var m := Machine(HeaderFieldStart, index, acc);
      NameRuns(b, m, stray);
      RunConcat(b, m, stray, [CR, LF]);
      var n := Run(b, m, stray).m;
      assert [CR, LF] == [CR] + [LF];
      RunConcat(b, n, [CR], [LF]);
      RunOne(b, n, CR);
      RunOne(b, Step(b, n, CR).m, LF);
      hide Run;
      var none: seq<Token> := [];
      assert none + none == none;
    }
  }

  lemma ReadsSection(b: seq<byte>, p: Section)
    requires |b| > 0 && Restartable(Delimiter(b)) && Proper(b, p)
    ensures Reads(b, HeaderFieldStart, WriteSection(b, p), SectionTokens(p), PartDataAlmostEnd)
  {
    ReadsLines(b, p.lines);
    ReadsStray(b, p.stray);
    ReadsBody(b, p.body);
    hide Reads;
    var data := [HeadersComplete] + (DataTokens(p.body) + [PartEnd]);
    ReadsBoth(b, HeaderFieldStart, p.stray + [CR, LF], [], PartDataStart, p.body + Delimiter(b), data,
              PartDataAlmostEnd);
    assert [] + data == data;
    ReadsBoth(b, HeaderFieldStart, WriteLines(p.lines), LineTokens(p.lines), HeaderFieldStart,
              p.stray + [CR, LF] + (p.body + Delimiter(b)), data, PartDataAlmostEnd);
  }

  lemma {:induction false} ReadsRest(b: seq<byte>, ps: seq<Section>, epilogue: seq<byte>)
    requires |b| > 0 && Restartable(Delimiter(b)) && AllProper(b, ps)
    ensures Reads(b, PartDataAlmostEnd, WriteRest(b, ps, epilogue), RestTokens(ps), End)
    decreases |ps|
  {
    if ps == [] {
      ReadsByte(b, PartDataAlmostEnd, HYPHEN, [], PartDataFinalHyphen);
      ReadsByte(b, PartDataFinalHyphen, HYPHEN, [BodyEnd], End);
      ReadsEpilogue(b, epilogue);
      hide Reads;
      ReadsBytes(b, PartDataAlmostEnd, HYPHEN, PartDataFinalHyphen, HYPHEN, [BodyEnd], End);
      ReadsBoth(b, PartDataAlmostEnd, [HYPHEN, HYPHEN], [BodyEnd], End, epilogue, [], End);
      assert [BodyEnd] + [] == [BodyEnd];
    } else {
      ReadsByte(b, PartDataAlmostEnd, CR, [], PartDataEnd);
      ReadsByte(b, PartDataEnd, LF, [PartBegin], HeaderFieldStart);
      ReadsSection(b, ps[0]);
      ReadsRest(b, ps[1..], epilogue);
      hide Reads;
      hide Proper;
      var rest := WriteRest(b, ps[1..], epilogue);
      ReadsBytes(b, PartDataAlmostEnd, CR, PartDataEnd, LF, [PartBegin], HeaderFieldStart);
      ReadsBoth(b, HeaderFieldStart, WriteSection(b, ps[0]), SectionTokens(ps[0]), PartDataAlmostEnd, rest,
                RestTokens(ps[1..]), End);
      ReadsBoth(b, PartDataAlmostEnd, [CR, LF], [PartBegin], HeaderFieldStart, WriteSection(b, ps[0]) + rest,
                SectionTokens(ps[0]) + RestTokens(ps[1..]), End);
    }
  }

  /** Every word is accepted, and told part by part. */
  lemma WordIsRead(b: seq<byte>, p: Section, ps: seq<Section>, epilogue: seq<byte>)
    requires |b| > 0 && Restartable(Delimiter(b)) && Proper(b, p) && AllProper(b, ps)
    ensures var o := Run(b, FRESH, Write(b, p, ps, epilogue));
            o.ok && o.m.phase.End? && o.toks == [PartBegin] + (SectionTokens(p) + RestTokens(ps))
  {
    ReadsFirstBoundary(b);
    ReadsSection(b, p);
    ReadsRest(b, ps, epilogue);
    hide *;
    ReadsBoth(b, HeaderFieldStart, WriteSection(b, p), SectionTokens(p), PartDataAlmostEnd, WriteRest(b, ps, epilogue),
              RestTokens(ps), End);
    ReadsBoth(b, Start, b + [CR, LF], [PartBegin], HeaderFieldStart, WriteSection(b, p) + WriteRest(b, ps, epilogue),
              SectionTokens(p) + RestTokens(ps), End);
    ReadsFresh(b, Write(b, p, ps, epilogue), [PartBegin] + (SectionTokens(p) + RestTokens(ps)));
    WriteIs(b, p, ps, epilogue);
  }

  lemma WriteIs(b: seq<byte>, p: Section, ps: seq<Section>, epilogue: seq<byte>)
    ensures Write(b, p, ps, epilogue) == b + [CR, LF] + (WriteSection(b, p) + WriteRest(b, ps, epilogue))
  {
  }

  lemma ReadsFresh(b: seq<byte>, s: seq<byte>, toks: seq<Token>)
    requires |b| > 0
    ensures Reads(b, Start, s, toks, End) ==>
              var o := Run(b, FRESH, s); o.ok && o.m.phase.End? && o.toks == toks
  {
    hide Run;
    if Reads(b, Start, s, toks, End) {
      assert ReadsFrom(b, Machine(Start, 0, []), s, toks, End);
    }
  }

  // ----- the first line -----

  /** How many bytes the two have in common at the front. */
  function Agreement(a: seq<byte>, s: seq<byte>): (k: nat)
    ensures k <= |a| && k <= |s| && a[..k] == s[..k]
    ensures k < |a| && k < |s| ==> a[k] != s[k]
  {
    if a != [] && s != [] && a[0] == s[0] then
      var k := Agreement(a[1..], s[1..]);
      assert a[..k + 1] == [a[0]] + a[1..][..k] && s[..k + 1] == [s[0]] + s[1..][..k];
      k + 1
    else 0
  }

  /** One byte of the first line. */
  lemma FirstLineByte(b: seq<byte>, m: Machine, k: nat, c: byte)
    requires |b| > 0 && k < |b| + 2
    requires (m.phase.StartBoundary? && m.index == k) || (m.phase.Start? && k == 0)
    ensures var d, o := b + [CR, LF], Step(b, m, c);
            && (o.ok <==> c == d[k])
            && (o.ok && k < |b| + 1 ==> o.m.phase.StartBoundary? && o.m.index == k + 1)
            && (k < |b| + 1 || !o.ok ==> o.toks == [])
  {
  }

  lemma {:induction false} FirstLineFrom(b: seq<byte>, m: Machine, k: nat, s: seq<byte>)
    requires |b| > 0 && k < |b| + 2
    requires (m.phase.StartBoundary? && m.index == k) || (m.phase.Start? && k == 0)
    ensures var d, o := (b + [CR, LF])[k..], Run(b, m, s);
            if d <= s then o.used >= |d|
            else o.used == Agreement(d, s) && o.toks == []
    decreases |s|
  {
    var d := (b + [CR, LF])[k..];
    if s != [] {
      FirstLineByte(b, m, k, s[0]);
      var o := Step(b, m, s[0]);
      assert d[0] == (b + [CR, LF])[k] && d[1..] == (b + [CR, LF])[k + 1..];
      hide Step;
      PrefixStep(d, s);
      if o.ok && k < |b| + 1 {
        FirstLineFrom(b, o.m, k + 1, s[1..]);
      }
    }
  }

  lemma PrefixStep(d: seq<byte>, s: seq<byte>)
    requires d != [] && s != []
    ensures d <= s <==> d[0] == s[0] && d[1..] <= s[1..]
  {
    assert s == [s[0]] + s[1..] && d == [d[0]] + d[1..];
  }

  /**
   Nothing is told of an input that does not begin with the boundary and CR LF: the call ends at the
   first byte that differs.
   */
  lemma FirstLine(b: seq<byte>, s: seq<byte>)
    requires |b| > 0
    ensures var d, o := b + ['\r' as int, '\n' as int], Run(b, FRESH, s);
            if d <= s then o.used >= |d| else o.used == Agreement(d, s) && o.toks == []
    ensures Run(b, FRESH, s).toks != [] ==> b + [CR, LF] <= s
  {
    FirstLineFrom(b, FRESH, 0, s);
    assert (b + [CR, LF])[0..] == b + [CR, LF];
    hide Run;
  }

  // ----- what is refused -----

  /** Accepting goes on where reading has come to. */
  lemma GoesOn(b: seq<byte>, m: Machine, s: seq<byte>, toks: seq<Token>, q: Phase, rest: seq<byte>) returns (n: Machine)
    requires WellFormed(b, m) && ReadsFrom(b, m, s, toks, q)
    ensures WellFormed(b, n) && n.phase == q && (Run(b, m, s + rest).ok <==> Run(b, n, rest).ok)
  {
    RunConcat(b, m, s, rest);
    n := Run(b, m, s).m;
    hide Run;
  }

  lemma OneByte(b: seq<byte>, m: Machine, s: seq<byte>)
    requires WellFormed(b, m) && s != []
    ensures var o := Step(b, m, s[0]); Run(b, m, s).ok <==> o.ok && Run(b, o.m, s[1..]).ok
  {
    hide Step;
  }

  function NameLength(s: seq<byte>): (n: nat)
    ensures n <= |s| && NameLike(s[..n])
    ensures n < |s| ==> !InName(s[n])
  {
    if s != [] && InName(s[0]) then
      var n := NameLength(s[1..]);
      assert s[..n + 1] == [s[0]] + s[1..][..n];
      n + 1
    else 0
  }

  function FirstCR(s: seq<byte>): (n: nat)
    ensures n <= |s| && CR !in s[..n]
    ensures n < |s| ==> s[n] == CR
  {
    if s != [] && s[0] != CR then
      var n := FirstCR(s[1..]);
      assert s[..n + 1] == [s[0]] + s[1..][..n];
      n + 1
    else 0
  }

  /** What may follow the first line, the data, and a delimiter, as far as it goes. */
  ghost predicate ViableLines(b: seq<byte>, s: seq<byte>) {
    exists p, ps, epilogue :: Proper(b, p) && AllProper(b, ps) && s <= WriteSection(b, p) + WriteRest(b, ps, epilogue)
  }

  ghost predicate ViableData(b: seq<byte>, s: seq<byte>) {
    exists body, ps, epilogue ::
      FirstAt(Delimiter(b), body + Delimiter(b), |body|) && AllProper(b, ps)
      && s <= body + Delimiter(b) + WriteRest(b, ps, epilogue)
  }

  ghost predicate ViableRest(b: seq<byte>, s: seq<byte>) {
    exists ps, epilogue :: AllProper(b, ps) && s <= WriteRest(b, ps, epilogue)
  }

  lemma PrefixOf(s: seq<byte>, t: seq<byte>, w: seq<byte>)
    requires t <= w
    ensures s + t <= s + w
  {
  }

  lemma Within(s: seq<byte>, t: seq<byte>, more: seq<byte>)
    requires s <= t
    ensures s <= t + more
  {
  }

  lemma EmptyBody(b: seq<byte>)
    ensures FirstAt(Delimiter(b), [] + Delimiter(b), 0)
  {
    assert [] + Delimiter(b) == Delimiter(b);
  }

  /** A blank line, with part of a name before it, and data. */
  lemma BlankViable(b: seq<byte>, stray: seq<byte>, s: seq<byte>)
    requires NameLike(stray) && ViableData(b, s)
    ensures ViableLines(b, stray + [CR, LF] + s)
  {
    var body, ps, epilogue :|
      FirstAt(Delimiter(b), body + Delimiter(b), |body|) && AllProper(b, ps)
      && s <= body + Delimiter(b) + WriteRest(b, ps, epilogue);
    var p := Section([], stray, body);
    assert Proper(b, p);
    hide WriteRest;
    hide WriteSection;
    hide Proper;
    hide Delimiter;
    var rest := WriteRest(b, ps, epilogue);
    PrefixOf(stray + [CR, LF], s, body + Delimiter(b) + rest);
    BlankSection(b, p, rest);
  }

  lemma BlankSection(b: seq<byte>, p: Section, rest: seq<byte>)
    requires p.lines == []
    ensures WriteSection(b, p) + rest == p.stray + [CR, LF] + (p.body + Delimiter(b) + rest)
  {
    hide Delimiter;
    var head, tail := p.stray + [CR, LF], p.body + Delimiter(b);
    assert WriteSection(b, p) == head + tail;
    Associates(head, tail, rest);
  }

  /** What ends within the line before the data. */
  lemma BlankUnfinished(b: seq<byte>, stray: seq<byte>, s: seq<byte>)
    requires NameLike(stray) && s <= stray + [CR, LF]
    ensures ViableLines(b, s)
  {
    NothingViable(b);
    BlankViable(b, stray, []);
    assert stray + [CR, LF] + [] == stray + [CR, LF];
    Shorter(b, s, stray + [CR, LF]);
  }

  lemma Shorter(b: seq<byte>, s: seq<byte>, t: seq<byte>)
    requires s <= t && ViableLines(b, t)
    ensures ViableLines(b, s)
  {
    var p, ps, epilogue :| Proper(b, p) && AllProper(b, ps) && t <= WriteSection(b, p) + WriteRest(b, ps, epilogue);
    hide WriteSection;
    hide WriteRest;
    assert s <= WriteSection(b, p) + WriteRest(b, ps, epilogue);
  }

  lemma NothingViable(b: seq<byte>)
    ensures ViableData(b, []) && ViableRest(b, [])
  {
    EmptyBody(b);
    var none: seq<byte>, sections: seq<Section> := [], [];
    assert AllProper(b, sections);
    assert none <= none + Delimiter(b) + WriteRest(b, sections, none);
    assert none <= WriteRest(b, sections, none);
  }

  lemma LineViable(b: seq<byte>, l: Line, s: seq<byte>)
    requires ProperLine(l) && ViableLines(b, s)
    ensures ViableLines(b, WriteLine(l) + s)
  {
    var p, ps, epilogue :| Proper(b, p) && AllProper(b, ps) && s <= WriteSection(b, p) + WriteRest(b, ps, epilogue);
    var q := p.(lines := [l] + p.lines);
    assert q.lines[1..] == p.lines;
    assert Proper(b, q);
    PrefixOf(WriteLine(l), s, WriteSection(b, p) + WriteRest(b, ps, epilogue));
    assert WriteSection(b, q) == WriteLine(l) + WriteSection(b, p) by {
      hide WriteLine;
      Associates(WriteLine(l), WriteLines(p.lines), p.stray + [CR, LF] + (p.body + Delimiter(b)));
    }
    hide WriteSection;
    hide WriteRest;
    hide WriteLine;
    hide Proper;
    Associates(WriteLine(l), WriteSection(b, p), WriteRest(b, ps, epilogue));
  }

  lemma RestViable(b: seq<byte>, body: seq<byte>, s: seq<byte>)
    requires FirstAt(Delimiter(b), body + Delimiter(b), |body|) && ViableRest(b, s)
    ensures ViableData(b, body + Delimiter(b) + s)
  {
    var ps, epilogue :| AllProper(b, ps) && s <= WriteRest(b, ps, epilogue);
    PrefixOf(body + Delimiter(b), s, WriteRest(b, ps, epilogue));
    hide FirstAt;
    hide WriteRest;
  }

  lemma NextViable(b: seq<byte>, s: seq<byte>)
    requires ViableLines(b, s)
    ensures ViableRest(b, [CR, LF] + s)
  {
    var p, ps, epilogue :| Proper(b, p) && AllProper(b, ps) && s <= WriteSection(b, p) + WriteRest(b, ps, epilogue);
    hide WriteSection;
    hide Proper;
    var all := [p] + ps;
    assert AllProper(b, all);
    assert all[1..] == ps;
    PrefixOf([CR, LF], s, WriteSection(b, p) + WriteRest(b, ps, epilogue));
    assert [CR, LF] + s <= WriteRest(b, all, epilogue);
  }

  /** A byte behind a piece of a name that is no part of it: the end of the name, of the line, or an error. */
  lemma AfterName(b: seq<byte>, m: Machine, c: byte)
    requires |b| > 0 && (m.phase.HeaderFieldStart? || m.phase.HeaderField?) && !InName(c)
    ensures var o := Step(b, m, c);
            && (o.ok <==> c == CR || c == COLON)
            && (c == CR ==> o.m.phase.HeadersAlmostDone?) && (c == COLON ==> o.m.phase.HeaderValueStart?)
  {
  }

  lemma AfterCR(b: seq<byte>, m: Machine, c: byte)
    requires |b| > 0 && (m.phase.HeadersAlmostDone? || m.phase.HeaderValueAlmostDone?)
    ensures var o := Step(b, m, c);
            (o.ok <==> c == LF)
            && (o.ok ==> o.m.phase == if m.phase.HeadersAlmostDone? then PartDataStart else HeaderFieldStart)
  {
  }

  lemma Fits(b: seq<byte>, m: Machine)
    requires |b| > 0 && !m.phase.StartBoundary? && !m.phase.PartDataBoundary?
    ensures WellFormed(b, m)
  {
  }

  /** What is accepted behind a delimiter. */
  lemma {:induction false} RestAccepted(b: seq<byte>, m: Machine, s: seq<byte>)
    requires |b| > 0 && Restartable(Delimiter(b)) && m.phase.PartDataAlmostEnd? && Run(b, m, s).ok
    ensures ViableRest(b, s)
    decreases |s|, 0
  {
    hide *;
    NothingViable(b);
    if s != [] {
      Fits(b, m);
      OneByte(b, m, s);
      AfterDelimiter(b, m, s[0]);
      assert s == [s[0]] + s[1..];
      var n, t := Step(b, m, s[0]).m, s[1..];
      if t == [] {
        assert s == [s[0]];
        RestUnfinished(b, s[0]);
      } else {
        OneByte(b, n, t);
        AfterNext(b, n, t[0]);
        assert t == [t[0]] + t[1..] && s == [s[0], t[0]] + t[1..];
        if s[0] == CR {
          LinesAccepted(b, Step(b, n, t[0]).m, t[1..]);
          NextViable(b, t[1..]);
        } else {
          EndViable(b, t[1..]);
        }
      }
    }
  }

  lemma AfterDelimiter(b: seq<byte>, m: Machine, c: byte)
    requires |b| > 0 && m.phase.PartDataAlmostEnd?
    ensures var o := Step(b, m, c);
            && (o.ok <==> c == CR || c == HYPHEN)
            && (c == CR ==> o.m.phase.PartDataEnd?) && (c == HYPHEN ==> o.m.phase.PartDataFinalHyphen?)
  {
  }

  lemma AfterNext(b: seq<byte>, m: Machine, c: byte)
    requires |b| > 0 && (m.phase.PartDataEnd? || m.phase.PartDataFinalHyphen?)
    ensures var o := Step(b, m, c);
            && (o.ok <==> c == if m.phase.PartDataEnd? then LF else HYPHEN)
            && (o.ok ==> o.m.phase == if m.phase.PartDataEnd? then HeaderFieldStart else End)
  {
  }

  lemma EndViable(b: seq<byte>, epilogue: seq<byte>)
    ensures ViableRest(b, [HYPHEN, HYPHEN] + epilogue)
  {
    var sections: seq<Section> := [];
    assert AllProper(b, sections) && WriteRest(b, sections, epilogue) == [HYPHEN, HYPHEN] + epilogue;
  }

  lemma RestUnfinished(b: seq<byte>, c: byte)
    requires c == CR || c == HYPHEN
    ensures ViableRest(b, [c])
  {
    if c == CR {
      NothingViable(b);
      BlankViable(b, [], []);
      hide ViableData;
      Shorter(b, [], [] + [CR, LF] + []);
      NextViable(b, []);
      assert [CR] <= [CR, LF] + [];
      ShorterRest(b, [CR], [CR, LF] + []);
    } else {
      EndViable(b, []);
      assert [HYPHEN] <= [HYPHEN, HYPHEN] + [];
      ShorterRest(b, [HYPHEN], [HYPHEN, HYPHEN] + []);
    }
  }

  lemma ShorterRest(b: seq<byte>, s: seq<byte>, t: seq<byte>)
    requires s <= t && ViableRest(b, t)
    ensures ViableRest(b, s)
  {
    var ps, epilogue :| AllProper(b, ps) && t <= WriteRest(b, ps, epilogue);
    hide WriteRest;
    assert s <= WriteRest(b, ps, epilogue);
  }

  /** What is accepted from the first byte of the data on. */
  lemma {:induction false} DataAccepted(b: seq<byte>, m: Machine, s: seq<byte>)
    requires |b| > 0 && Restartable(Delimiter(b)) && m.phase.PartDataStart? && Run(b, m, s).ok
    ensures ViableData(b, s)
    decreases |s|, 1
  {
    hide *;
    var pat := Delimiter(b);
    assert |pat| == |b| + 2 by {
      PatternLength(b);
    }
    var k, found := FirstOrNone(pat, s);
    if found {
      var body, rest := s[..k], s[k + |pat|..];
      SplitAtFirst(pat, s, k);
      ReadsBody(b, body);
      var toks := BodyReads(b, m, body);
      Fits(b, m);
      var n := GoesOn(b, m, body + pat, toks, PartDataAlmostEnd, rest);
      RestAccepted(b, n, rest);
      RestViable(b, body, rest);
    } else {
      DataUnfinished(b, s);
    }
  }

  lemma PatternLength(b: seq<byte>)
    ensures |Delimiter(b)| == |b| + 2
  {
  }

  lemma BodyReads(b: seq<byte>, m: Machine, body: seq<byte>) returns (toks: seq<Token>)
    requires |b| > 0 && m.phase.PartDataStart? && FirstAt(Delimiter(b), body + Delimiter(b), |body|)
    requires Restartable(Delimiter(b))
    ensures ReadsFrom(b, m, body + Delimiter(b), toks, PartDataAlmostEnd)
  {
    toks := [HeadersComplete] + (DataTokens(body) + [PartEnd]);
    ReadsBody(b, body);
    hide ReadsFrom;
    hide Restartable;
    hide FirstAt;
    assert m == Machine(PartDataStart, m.index, m.acc);
  }

  lemma FirstOrNone(pat: seq<byte>, s: seq<byte>) returns (k: nat, found: bool)
    ensures if found then k + |pat| <= |s| && FirstAt(pat, s, k) else Absent(pat, s)
  {
    found := exists j: nat :: OccursAt(pat, s, j);
    k := 0;
    if found {
      var at: nat :| OccursAt(pat, s, at);
      k := FirstOf(pat, s, at);
    }
  }

  lemma SplitAtFirst(pat: seq<byte>, s: seq<byte>, k: nat)
    requires FirstAt(pat, s, k)
    ensures k + |pat| <= |s| && s == s[..k] + pat + s[k + |pat|..] && FirstAt(pat, s[..k] + pat, k)
  {
    var t := s[..k] + pat;
    assert s[k..k + |pat|] == pat && t == s[..k + |pat|];
    forall j: nat | j < k ensures !OccursAt(pat, t, j) {
      if OccursAt(pat, t, j) {
        OccursInPrefix(pat, s, k + |pat|, j);
      }
    }
    assert t[k..k + |pat|] == pat;
  }

  /** Data without a delimiter: the first one comes later. */
  lemma DataUnfinished(b: seq<byte>, s: seq<byte>)
    requires Absent(Delimiter(b), s)
    ensures ViableData(b, s)
  {
    var pat := Delimiter(b);
    var k := FirstBehind(pat, s);
    var body := (s + pat)[..k];
    NothingViable(b);
    hide *;
    var sections: seq<Section> := [];
    Within(s, body + pat, WriteRest(b, sections, []));
    NoneProper(b);
    DataIsViable(b, body, sections, [], s);
  }

  lemma NoneProper(b: seq<byte>)
    ensures AllProper(b, [])
  {
  }

  lemma DataIsViable(b: seq<byte>, body: seq<byte>, ps: seq<Section>, epilogue: seq<byte>, s: seq<byte>)
    requires FirstAt(Delimiter(b), body + Delimiter(b), |body|) && AllProper(b, ps)
    requires s <= body + Delimiter(b) + WriteRest(b, ps, epilogue)
    ensures ViableData(b, s)
  {
  }

  lemma FirstBehind(pat: seq<byte>, s: seq<byte>) returns (k: nat)
    requires Absent(pat, s)
    ensures var t := s + pat; k <= |t| && |t[..k]| == k && FirstAt(pat, t[..k] + pat, k) && s <= t[..k] + pat
  {
    var t := s + pat;
    assert t[|s|..|s| + |pat|] == pat && OccursAt(pat, t, |s|);
    k := FirstOf(pat, t, |s|);
    SplitAtFirst(pat, t, k);
    assert k + |pat| <= |s| ==> s[k..k + |pat|] == t[k..k + |pat|];
    assert !OccursAt(pat, s, k);
    assert t[..k] + pat == t[..k + |pat|] && s == t[..|s|];
    hide FirstAt;
    hide Absent;
  }

  /** What is accepted from the beginning of a header line on. */
  lemma {:induction false} LinesAccepted(b: seq<byte>, m: Machine, s: seq<byte>)
    requires |b| > 0 && Restartable(Delimiter(b)) && m.phase.HeaderFieldStart? && Run(b, m, s).ok
    ensures ViableLines(b, s)
    decreases |s|, 2
  {
    hide *;
    var n := NameLength(s);
    var name, t := s[..n], s[n..];
    assert s == name + t;
    Fits(b, m);
    NameRuns(b, m, name);
    RunConcat(b, m, name, t);
    var m1 := Run(b, m, name).m;
    AfterIsOk(b, m, name, t);
    if t == [] {
      assert s <= name + [CR, LF];
      BlankUnfinished(b, name, s);
    } else {
      var c, u := t[0], t[1..];
      assert t == [c] + u;
      OneByte(b, m1, t);
      AfterName(b, m1, c);
      var m2 := Step(b, m1, c).m;
      if c == CR {
        BlankAccepted(b, m2, name, u);
        assert s == name + [CR] + u;
      } else {
        LineAccepted(b, m2, name, u);
        assert s == name + [COLON] + u;
      }
    }
  }

  lemma AfterIsOk(b: seq<byte>, m: Machine, s: seq<byte>, t: seq<byte>)
    requires WellFormed(b, m) && Run(b, m, s).ok && Run(b, m, s + t).ok
    ensures Run(b, Run(b, m, s).m, t).ok
  {
    RunConcat(b, m, s, t);
    hide Run;
  }

  /** Behind the CR of a blank line. */
  lemma {:induction false} BlankAccepted(b: seq<byte>, m: Machine, stray: seq<byte>, u: seq<byte>)
    requires |b| > 0 && Restartable(Delimiter(b)) && NameLike(stray) && m.phase.HeadersAlmostDone? && Run(b, m, u).ok
    ensures ViableLines(b, stray + [CR] + u)
    decreases |u|, 3
  {
    hide *;
    if u == [] {
      assert stray + [CR] + u <= stray + [CR, LF];
      BlankUnfinished(b, stray, stray + [CR] + u);
    } else {
      Fits(b, m);
      OneByte(b, m, u);
      AfterCR(b, m, u[0]);
      DataAccepted(b, Step(b, m, u[0]).m, u[1..]);
      BlankViable(b, stray, u[1..]);
      assert u == [LF] + u[1..];
      assert stray + [CR] + u == stray + [CR, LF] + u[1..];
    }
  }

  /** Behind the colon of a name. */
  lemma {:induction false} LineAccepted(b: seq<byte>, m: Machine, name: seq<byte>, u: seq<byte>)
    requires |b| > 0 && Restartable(Delimiter(b)) && NameLike(name) && m.phase.HeaderValueStart? && Run(b, m, u).ok
    ensures ViableLines(b, name + [COLON] + u)
    decreases |u|, 3
  {
    hide *;
    var k := FirstCR(u);
    var text := u[..k];
    LineIs(name, text);
    if k == |u| {
      assert u == text && name + [COLON] + u <= WriteLine(Line(name, text));
      LineUnfinished(b, Line(name, text), name + [COLON] + u);
    } else {
      var v := u[k + 1..];
      assert u == text + [CR] + v;
      var toks := TextReads(b, m, text);
      Fits(b, m);
      var n := GoesOn(b, m, text + [CR], toks, HeaderValueAlmostDone, v);
      if v == [] {
        assert name + [COLON] + u <= WriteLine(Line(name, text));
        LineUnfinished(b, Line(name, text), name + [COLON] + u);
      } else {
        OneByte(b, n, v);
        AfterCR(b, n, v[0]);
        LinesAccepted(b, Step(b, n, v[0]).m, v[1..]);
        LineViable(b, Line(name, text), v[1..]);
        assert v == [LF] + v[1..];
        assert name + [COLON] + u == WriteLine(Line(name, text)) + v[1..];
      }
    }
  }

  lemma LineIs(name: seq<byte>, text: seq<byte>)
    ensures WriteLine(Line(name, text)) == name + [COLON] + (text + [CR, LF])
    ensures NameLike(name) && CR !in text ==> ProperLine(Line(name, text))
  {
  }

  lemma TextReads(b: seq<byte>, m: Machine, text: seq<byte>) returns (toks: seq<Token>)
    requires |b| > 0 && m.phase.HeaderValueStart? && CR !in text
    ensures ReadsFrom(b, m, text + [CR], toks, HeaderValueAlmostDone)
  {
    toks := [Value(Stripped(text))];
    ReadsSpaced(b, text);
    hide ReadsFrom;
    assert m == Machine(HeaderValueStart, m.index, m.acc);
  }

  lemma LineUnfinished(b: seq<byte>, l: Line, s: seq<byte>)
    requires ProperLine(l) && s <= WriteLine(l)
    ensures ViableLines(b, s)
  {
    hide *;
    BlankUnfinished(b, [], []);
    LineViable(b, l, []);
    assert WriteLine(l) + [] == WriteLine(l);
    Shorter(b, s, WriteLine(l));
  }

  // ----- the main results -----

  /** A run accepts the prefixes up to where it stops. */
  lemma {:induction false} StopsThere(b: seq<byte>, m: Machine, s: seq<byte>, k: nat)
    requires WellFormed(b, m) && k <= |s|
    ensures Run(b, m, s[..k]).ok <==> k <= Run(b, m, s).used
  {
    RunConcat(b, m, s[..k], s[k..]);
    assert s == s[..k] + s[k..];
    hide Run;
  }

  lemma LinesAreViable(b: seq<byte>, s: seq<byte>)
    requires ViableLines(b, s)
    ensures Viable(b, b + [CR, LF] + s)
  {
    var p, ps, epilogue :| Proper(b, p) && AllProper(b, ps) && s <= WriteSection(b, p) + WriteRest(b, ps, epilogue);
    hide WriteSection;
    hide WriteRest;
    hide Proper;
    PrefixOf(b + [CR, LF], s, WriteSection(b, p) + WriteRest(b, ps, epilogue));
    assert b + [CR, LF] + s <= Write(b, p, ps, epilogue);
  }

  lemma ShorterViable(b: seq<byte>, s: seq<byte>, t: seq<byte>)
    requires s <= t && Viable(b, t)
    ensures Viable(b, s)
  {
    var p, ps, epilogue :| Proper(b, p) && AllProper(b, ps) && t <= Write(b, p, ps, epilogue);
    hide Write;
    assert s <= Write(b, p, ps, epilogue);
  }

  lemma ViableAccepted(b: seq<byte>, s: seq<byte>)
    requires |b| > 0 && Restartable(Delimiter(b)) && Viable(b, s)
    ensures Run(b, FRESH, s).ok
  {
    var p, ps, epilogue :| Proper(b, p) && AllProper(b, ps) && s <= Write(b, p, ps, epilogue);
    hide *;
    var w := Write(b, p, ps, epilogue);
    WordIsRead(b, p, ps, epilogue);
    assert s == w[..|s|];
    FreshFits(b);
    StopsThere(b, FRESH, w, |s|);
    StopsThere(b, FRESH, w, |w|);
    assert w[..|w|] == w;
  }

  lemma FreshFits(b: seq<byte>)
    requires |b| > 0
    ensures WellFormed(b, FRESH)
  {
  }

  lemma {:induction false} AcceptedViable(b: seq<byte>, s: seq<byte>)
    requires |b| > 0 && Restartable(Delimiter(b)) && Run(b, FRESH, s).ok
    ensures Viable(b, s)
  {
    var d := b + [CR, LF];
    assert b + ['\r' as int, '\n' as int] == d;
    hide *;
    FirstLine(b, s);
    FreshFits(b);
    if d <= s {
      var rest := s[|d|..];
      assert s == d + rest;
      var toks := FirstLineReads(b);
      var n := GoesOn(b, FRESH, d, toks, HeaderFieldStart, rest);
      LinesAccepted(b, n, rest);
      LinesAreViable(b, rest);
    } else {
      AllUsed(b, s);
      BlankUnfinished(b, [], []);
      LinesAreViable(b, []);
      assert s <= d + [];
      ShorterViable(b, s, d + []);
    }
  }

  lemma AllUsed(b: seq<byte>, s: seq<byte>)
    requires |b| > 0
    ensures Run(b, FRESH, s).ok <==> Run(b, FRESH, s).used == |s|
  {
    hide Run;
  }

  lemma FirstLineReads(b: seq<byte>) returns (toks: seq<Token>)
    requires |b| > 0
    ensures WellFormed(b, FRESH) && ReadsFrom(b, FRESH, b + [CR, LF], toks, HeaderFieldStart)
  {
    toks := [PartBegin];
    ReadsFirstBoundary(b);
    hide ReadsFrom;
  }

  /**
   An input is accepted exactly if it is a prefix of a word; otherwise the call returns the length of
   the longest prefix that is.
   */
  lemma {:induction false} AcceptsExactly(b: seq<byte>, s: seq<byte>)
    requires |b| > 0 && Restartable(Delimiter(b))
    ensures var o := Run(b, FRESH, s);
            && (o.ok <==> Viable(b, s))
            && Viable(b, s[..o.used])
            && (o.used < |s| ==> !Viable(b, s[..o.used + 1]))
  {
    hide *;
    FreshFits(b);
    forall t: seq<byte> ensures Run(b, FRESH, t).ok <==> Viable(b, t) {
      if Viable(b, t) {
        ViableAccepted(b, t);
      }
      if Run(b, FRESH, t).ok {
        AcceptedViable(b, t);
      }
    }
    var k := Run(b, FRESH, s).used;
    StopsThere(b, FRESH, s, k);
    if k < |s| {
      StopsThere(b, FRESH, s, k + 1);
    }
  }
}
