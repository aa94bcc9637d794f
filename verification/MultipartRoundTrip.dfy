/** Printing a multipart body and parsing it back. */
module MultipartRoundTrip {
  import opened Bytes
  import opened MultipartMachine
  import opened MultipartMatching
  import opened MultipartParser
  import opened MultipartChunks

  datatype Header = Header(name: seq<byte>, text: seq<byte>)
  datatype Part = Part(headers: seq<Header>, body: seq<byte>)

  predicate IsName(name: seq<byte>) {
    forall i :: 0 <= i < |name| ==> IsLetter(name[i]) || name[i] == HYPHEN
  }

  /** Names of letters and hyphens; values without a CR that do not start with a space. */
  predicate Printable(h: Header) {
    && IsName(h.name)
    && CR !in h.text
    && (h.text != [] ==> h.text[0] != SPACE)
  }

  ghost predicate PrintablePart(b: seq<byte>, p: Part) {
    (forall i :: 0 <= i < |p.headers| ==> Printable(p.headers[i])) && Absent(Delimiter(b), p.body)
  }

  function PrintHeader(h: Header): seq<byte> {
    h.name + [COLON] + ([SPACE] + (h.text + [CR]) + [LF])
  }

  function PrintHeaders(hs: seq<Header>): seq<byte> {
    if hs == [] then [] else PrintHeader(hs[0]) + PrintHeaders(hs[1..])
  }

  function PrintPart(b: seq<byte>, p: Part): seq<byte> {
    PrintHeaders(p.headers) + ([CR, LF] + (p.body + Delimiter(b)))
  }

  function PrintParts(b: seq<byte>, ps: seq<Part>): seq<byte>
    requires ps != []
  {
    PrintPart(b, ps[0]) + if |ps| == 1 then [HYPHEN, HYPHEN] else [CR, LF] + PrintParts(b, ps[1..])
  }

  /** The whole body; whatever follows the last hyphen is an epilogue. */
  function Print(b: seq<byte>, ps: seq<Part>, epilogue: seq<byte>): seq<byte>
    requires ps != []
  {
    b + [CR, LF] + (PrintParts(b, ps) + epilogue)
  }

  function HeaderTokens(hs: seq<Header>): seq<Token> {
    if hs == [] then [] else [Field(hs[0].name), Value(hs[0].text)] + HeaderTokens(hs[1..])
  }

  function PartTokens(p: Part): seq<Token> {
    HeaderTokens(p.headers) + ([HeadersComplete] + (DataTokens(p.body) + [PartEnd]))
  }

  /** The parts after the first PartBegin. */
  function Tokens(ps: seq<Part>): seq<Token>
    requires ps != []
  {
    PartTokens(ps[0]) + if |ps| == 1 then [BodyEnd] else [PartBegin] + Tokens(ps[1..])
  }

  /** Phases in which neither the index nor a pending name or value matters. */
  predicate Standing(p: Phase) {
    p !in {StartBoundary, HeaderField, HeaderValue, PartDataBoundary}
  }

  /** Reading `s` in phase `p` ends in phase `q` having delivered `toks`. */
  ghost predicate Reads(b: seq<byte>, p: Phase, s: seq<byte>, toks: seq<Token>, q: Phase) {
    && |b| > 0 && Standing(p)
    && forall index: nat, acc :: ReadsFrom(b, Machine(p, index, acc), s, toks, q)
  }

  predicate ReadsFrom(b: seq<byte>, m: Machine, s: seq<byte>, toks: seq<Token>, q: Phase)
    requires WellFormed(b, m)
  {
    var o := Run(b, m, s);
    o.ok && o.m.phase == q && o.toks == toks
  }

  lemma {:induction false} ReadsBoth(b: seq<byte>, p: Phase, s: seq<byte>, x: seq<Token>, q: Phase, t: seq<byte>,
                                     y: seq<Token>, r: Phase)
    requires Reads(b, p, s, x, q) && Reads(b, q, t, y, r)
    ensures Reads(b, p, s + t, x + y, r)
  {
    forall index: nat, acc
      ensures ReadsFrom(b, Machine(p, index, acc), s + t, x + y, r)
    {
      var m := Machine(p, index, acc);
      RunConcat(b, m, s, t);
      hide Run;
      assert ReadsFrom(b, m, s, x, q);
      var n := Run(b, m, s).m;
      assert n == Machine(q, n.index, n.acc);
      assert ReadsFrom(b, n, t, y, r);
    }
  }

  lemma ReadsByte(b: seq<byte>, p: Phase, c: byte, x: seq<Token>, q: Phase)
    requires |b| > 0 && Standing(p)
    requires forall index: nat, acc :: Step(b, Machine(p, index, acc), c).ok
    requires forall index: nat, acc ::
               Step(b, Machine(p, index, acc), c).m.phase == q && Step(b, Machine(p, index, acc), c).toks == x
    ensures Reads(b, p, [c], x, q)
  {
    forall index: nat, acc
      ensures ReadsFrom(b, Machine(p, index, acc), [c], x, q)
    {
      RunOne(b, Machine(p, index, acc), c);
    }
  }

  lemma {:induction false} ReadsBytes(b: seq<byte>, p: Phase, c: byte, q: Phase, d: byte, y: seq<Token>, r: Phase)
    requires Reads(b, p, [c], [], q) && Reads(b, q, [d], y, r)
    ensures Reads(b, p, [c, d], y, r)
  {
    ReadsBoth(b, p, [c], [], q, [d], y, r);
    assert [c] + [d] == [c, d] && [] + y == y;
  }

  /** A header name up to its colon. */
  lemma {:induction false} NameFrom(b: seq<byte>, index: nat, acc: seq<byte>, name: seq<byte>)
    requires |b| > 0 && IsName(name)
    ensures ReadsFrom(b, Machine(HeaderField, index, acc), name + [COLON], [Field(acc + name)], HeaderValueStart)
    decreases |name|
  {
    var m, s := Machine(HeaderField, index, acc), name + [COLON];
    if name == [] {
      assert s == [COLON] && acc + name == acc;
      RunOne(b, m, COLON);
    } else {
      var c, rest := name[0], name[1..];
      NameFrom(b, index, acc + [c], rest);
      assert s[0] == c && s[1..] == rest + [COLON];
      assert acc + [c] + rest == acc + name;
      assert Step(b, m, c) == Accept(HeaderField, index, acc + [c], []);
    }
  }

  /** A header value up to its CR. */
  lemma {:induction false} TextSoFar(b: seq<byte>, index: nat, acc: seq<byte>, text: seq<byte>)
    requires |b| > 0 && CR !in text
    ensures Run(b, Machine(HeaderValue, index, acc), text + [CR]) ==
            Outcome(Machine(HeaderValueAlmostDone, index, acc + text + [CR]), [Value(acc + text)], |text| + 1, true)
    decreases |text|
  {
    var m, s := Machine(HeaderValue, index, acc), text + [CR];
    if text == [] {
      assert s == [CR] && acc + text == acc;
      RunOne(b, m, CR);
    } else {
      var c, rest := text[0], text[1..];
      TextSoFar(b, index, acc + [c], rest);
      assert s[0] == c && s[1..] == rest + [CR];
      assert acc + [c] + rest == acc + text;
      assert Step(b, m, c) == Accept(HeaderValue, index, acc + [c], []);
    }
  }

  lemma ReadsName(b: seq<byte>, name: seq<byte>)
    requires |b| > 0 && IsName(name)
    ensures Reads(b, HeaderFieldStart, name + [COLON], [Field(name)], HeaderValueStart)
  {
    forall index: nat, acc
      ensures ReadsFrom(b, Machine(HeaderFieldStart, index, acc), name + [COLON], [Field(name)], HeaderValueStart)
    {
      NameFrom(b, index, [], name);
      assert [] + name == name;
      var s := name + [COLON];
      assert Step(b, Machine(HeaderFieldStart, index, acc), s[0]) == Step(b, Machine(HeaderField, index, []), s[0]);
      hide Step;
    }
  }

  lemma ReadsText(b: seq<byte>, text: seq<byte>)
    requires |b| > 0 && CR !in text && (text != [] ==> text[0] != SPACE)
    ensures Reads(b, HeaderValueStart, text + [CR], [Value(text)], HeaderValueAlmostDone)
  {
    forall index: nat, acc
      ensures ReadsFrom(b, Machine(HeaderValueStart, index, acc), text + [CR], [Value(text)], HeaderValueAlmostDone)
    {
      TextSoFar(b, index, [], text);
      assert [] + text == text;
      var s := text + [CR];
      assert Step(b, Machine(HeaderValueStart, index, acc), s[0]) == Step(b, Machine(HeaderValue, index, []), s[0]);
      hide Step;
    }
  }

  lemma ReadsHeader(b: seq<byte>, h: Header)
    requires |b| > 0 && Printable(h)
    ensures Reads(b, HeaderFieldStart, PrintHeader(h), [Field(h.name), Value(h.text)], HeaderFieldStart)
  {
    ReadsName(b, h.name);
    ReadsByte(b, HeaderValueStart, SPACE, [], HeaderValueStart);
    ReadsText(b, h.text);
    ReadsByte(b, HeaderValueAlmostDone, LF, [], HeaderFieldStart);
    hide Reads;
    ReadsBoth(b, HeaderValueStart, [SPACE], [], HeaderValueStart, h.text + [CR], [Value(h.text)],
              HeaderValueAlmostDone);
    assert [] + [Value(h.text)] == [Value(h.text)];
    ReadsBoth(b, HeaderValueStart, [SPACE] + (h.text + [CR]), [Value(h.text)], HeaderValueAlmostDone, [LF], [],
              HeaderFieldStart);
    assert [Value(h.text)] + [] == [Value(h.text)];
    ReadsBoth(b, HeaderFieldStart, h.name + [COLON], [Field(h.name)], HeaderValueStart,
              [SPACE] + (h.text + [CR]) + [LF], [Value(h.text)], HeaderFieldStart);
    assert [Field(h.name)] + [Value(h.text)] == [Field(h.name), Value(h.text)];
  }

  lemma ReadsNothing(b: seq<byte>, p: Phase)
    requires |b| > 0 && Standing(p)
    ensures Reads(b, p, [], [], p)
  {
  }

  lemma {:induction false} ReadsHeaders(b: seq<byte>, hs: seq<Header>)
    requires |b| > 0 && forall i :: 0 <= i < |hs| ==> Printable(hs[i])
    ensures Reads(b, HeaderFieldStart, PrintHeaders(hs), HeaderTokens(hs), HeaderFieldStart)
  {
    if hs == [] {
      ReadsNothing(b, HeaderFieldStart);
    } else {
      ReadsHeader(b, hs[0]);
      ReadsHeaders(b, hs[1..]);
      hide Reads;
      ReadsBoth(b, HeaderFieldStart, PrintHeader(hs[0]), [Field(hs[0].name), Value(hs[0].text)], HeaderFieldStart,
                PrintHeaders(hs[1..]), HeaderTokens(hs[1..]), HeaderFieldStart);
    }
  }

  /** With a boundary free of CR, a body without the delimiter leaves the appended delimiter the first one. */
  lemma FirstAfterBody(b: seq<byte>, body: seq<byte>)
    requires CR !in b && Absent(Delimiter(b), body)
    ensures FirstAt(Delimiter(b), body + Delimiter(b), |body|)
  {
    var pat := Delimiter(b);
    var s := body + pat;
    assert s[|body|..|body| + |pat|] == pat;
    forall j: nat | j < |body| ensures !OccursAt(pat, s, j) {
      if j + |pat| <= |body| {
        assert s[j..j + |pat|] == body[j..j + |pat|];
        assert !OccursAt(pat, body, j);
      } else {
        assert pat[|body| - j] != CR by {
          assert |body| - j == 1 || pat[|body| - j] == b[|body| - j - 2];
        }
        assert s[j..j + |pat|][|body| - j] == s[|body|] == CR;
      }
    }
  }

  lemma ReadsBody(b: seq<byte>, body: seq<byte>)
    requires |b| > 0 && Restartable(Delimiter(b)) && FirstAt(Delimiter(b), body + Delimiter(b), |body|)
    ensures Reads(b, PartDataStart, body + Delimiter(b), [HeadersComplete] + (DataTokens(body) + [PartEnd]),
                  PartDataAlmostEnd)
  {
    var s, pat := body + Delimiter(b), Delimiter(b);
    assert s[..|body| + |pat|] == s && s[..|body|] == body;
    forall index: nat, acc
      ensures ReadsFrom(b, Machine(PartDataStart, index, acc), s,
                        [HeadersComplete] + (DataTokens(body) + [PartEnd]), PartDataAlmostEnd)
    {
      var m, n := Machine(PartDataStart, index, acc), Machine(PartData, index, []);
      UpToDelimiter(b, n, s, |body|);
      StepAfterHeaders(b, m, s[0]);
      var o := Step(b, n, s[0]);
      hide Step;
      var rest := Run(b, o.m, s[1..]);
      assert [HeadersComplete] + o.toks + rest.toks == [HeadersComplete] + (o.toks + rest.toks);
    }
  }

  lemma StepAfterHeaders(b: seq<byte>, m: Machine, c: byte)
    requires |b| > 0 && m.phase.PartDataStart?
    ensures var o := Step(b, Machine(PartData, m.index, []), c);
            o.ok && Step(b, m, c) == Outcome(o.m, [HeadersComplete] + o.toks, 1, true)
  {
  }

  lemma ReadsPart(b: seq<byte>, p: Part)
    requires |b| > 0 && CR !in b && PrintablePart(b, p)
    ensures Reads(b, HeaderFieldStart, PrintPart(b, p), PartTokens(p), PartDataAlmostEnd)
  {
    ReadsHeaders(b, p.headers);
    assert forall index: nat, acc ::
        Step(b, Machine(HeaderFieldStart, index, acc), CR) == Accept(HeadersAlmostDone, index, [], []);
    ReadsByte(b, HeaderFieldStart, CR, [], HeadersAlmostDone);
    ReadsByte(b, HeadersAlmostDone, LF, [], PartDataStart);
    FirstAfterBody(b, p.body);
    WithoutCR(b);
    ReadsBody(b, p.body);
    hide Reads;
    ReadsBytes(b, HeaderFieldStart, CR, HeadersAlmostDone, LF, [], PartDataStart);
    var data := [HeadersComplete] + (DataTokens(p.body) + [PartEnd]);
    ReadsBoth(b, HeaderFieldStart, [CR, LF], [], PartDataStart, p.body + Delimiter(b), data, PartDataAlmostEnd);
    assert [] + data == data;
    ReadsBoth(b, HeaderFieldStart, PrintHeaders(p.headers), HeaderTokens(p.headers), HeaderFieldStart,
              [CR, LF] + (p.body + Delimiter(b)), data, PartDataAlmostEnd);
  }

  lemma {:induction false} ReadsParts(b: seq<byte>, ps: seq<Part>)
    requires |b| > 0 && CR !in b && ps != []
    requires forall i :: 0 <= i < |ps| ==> PrintablePart(b, ps[i])
    ensures Reads(b, HeaderFieldStart, PrintParts(b, ps), Tokens(ps), End)
  {
    ReadsPart(b, ps[0]);
    if |ps| == 1 {
      ReadsByte(b, PartDataAlmostEnd, HYPHEN, [], PartDataFinalHyphen);
      ReadsByte(b, PartDataFinalHyphen, HYPHEN, [BodyEnd], End);
      hide Reads;
      ReadsBytes(b, PartDataAlmostEnd, HYPHEN, PartDataFinalHyphen, HYPHEN, [BodyEnd], End);
      ReadsBoth(b, HeaderFieldStart, PrintPart(b, ps[0]), PartTokens(ps[0]), PartDataAlmostEnd,
                [HYPHEN, HYPHEN], [BodyEnd], End);
    } else {
      ReadsByte(b, PartDataAlmostEnd, CR, [], PartDataEnd);
      ReadsByte(b, PartDataEnd, LF, [PartBegin], HeaderFieldStart);
      ReadsParts(b, ps[1..]);
      hide Reads;
      ReadsBytes(b, PartDataAlmostEnd, CR, PartDataEnd, LF, [PartBegin], HeaderFieldStart);
      ReadsBoth(b, PartDataAlmostEnd, [CR, LF], [PartBegin], HeaderFieldStart, PrintParts(b, ps[1..]),
                Tokens(ps[1..]), End);
      ReadsBoth(b, HeaderFieldStart, PrintPart(b, ps[0]), PartTokens(ps[0]), PartDataAlmostEnd,
                [CR, LF] + PrintParts(b, ps[1..]), [PartBegin] + Tokens(ps[1..]), End);
    }
  }

  /** The first boundary, from its byte `k` on. */
  lemma {:induction false} BoundaryFrom(b: seq<byte>, k: nat, acc: seq<byte>)
    requires |b| > 0 && k <= |b|
    ensures ReadsFrom(b, Machine(StartBoundary, k, acc), b[k..] + [CR, LF], [PartBegin], HeaderFieldStart)
    decreases |b| - k
  {
    var m, s := Machine(StartBoundary, k, acc), b[k..] + [CR, LF];
    if k == |b| {
      assert s == [CR] + [LF];
      RunConcat(b, m, [CR], [LF]);
      RunOne(b, m, CR);
      RunOne(b, Machine(StartBoundary, k + 1, []), LF);
    } else {
      BoundaryFrom(b, k + 1, []);
      assert s[0] == b[k] && s[1..] == b[k + 1..] + [CR, LF];
      assert Step(b, m, s[0]) == Accept(StartBoundary, k + 1, [], []);
    }
  }

  lemma ReadsFirstBoundary(b: seq<byte>)
    requires |b| > 0
    ensures Reads(b, Start, b + [CR, LF], [PartBegin], HeaderFieldStart)
  {
    forall index: nat, acc
      ensures ReadsFrom(b, Machine(Start, index, acc), b + [CR, LF], [PartBegin], HeaderFieldStart)
    {
      BoundaryFrom(b, 0, []);
      var s := b + [CR, LF];
      assert b[0..] == b;
      assert Step(b, Machine(Start, index, acc), s[0]) == Step(b, Machine(StartBoundary, 0, []), s[0]);
      hide Step;
    }
  }

  lemma {:induction false} ReadsEpilogue(b: seq<byte>, s: seq<byte>)
    requires |b| > 0
    ensures Reads(b, End, s, [], End)
    decreases |s|
  {
    if s == [] {
      ReadsNothing(b, End);
    } else {
      ReadsByte(b, End, s[0], [], End);
      ReadsEpilogue(b, s[1..]);
      hide Reads;
      ReadsBoth(b, End, [s[0]], [], End, s[1..], [], End);
      assert [s[0]] + s[1..] == s;
      var none: seq<Token> := [];
      assert none + none == none;
    }
  }

  /** Parsing what was printed yields every part, its headers and its data, in order, and nothing else. */
  lemma RoundTrip(b: seq<byte>, ps: seq<Part>, epilogue: seq<byte>)
    requires |b| > 0 && CR !in b && ps != []
    requires forall i :: 0 <= i < |ps| ==> PrintablePart(b, ps[i])
    ensures var o := Run(b, FRESH, Print(b, ps, epilogue));
            o.ok && o.m.phase == End && o.toks == [PartBegin] + Tokens(ps)
  {
    ReadsFirstBoundary(b);
    ReadsParts(b, ps);
    ReadsEpilogue(b, epilogue);
    ReadsBoth(b, HeaderFieldStart, PrintParts(b, ps), Tokens(ps), End, epilogue, [], End);
    assert Tokens(ps) + [] == Tokens(ps);
    ReadsBoth(b, Start, b + [CR, LF], [PartBegin], HeaderFieldStart, PrintParts(b, ps) + epilogue, Tokens(ps), End);
    hide Run;
    assert ReadsFrom(b, Machine(Start, 0, []), Print(b, ps, epilogue), [PartBegin] + Tokens(ps), End);
  }

  /**
   However the printed body is cut into chunks, the parts and their data survive; headers do if and
   only if every cut is harmless.
   */
  lemma ChunkedRoundTrip(b: seq<byte>, ps: seq<Part>, epilogue: seq<byte>, chunks: seq<seq<byte>>)
    requires |b| > 0 && CR !in b && ps != []
    requires forall i :: 0 <= i < |ps| ==> PrintablePart(b, ps[i])
    requires Flat(chunks) == Print(b, ps, epilogue)
    ensures var o := RunChunks(b, FRESH, chunks);
            && o.ok && o.m.phase == End
            && Strip(o.toks) == Strip([PartBegin] + Tokens(ps))
            && (o.toks == [PartBegin] + Tokens(ps) <==> Harmless(b, FRESH, chunks))
  {
    RoundTrip(b, ps, epilogue);
    ChunkInvariance(b, FRESH, chunks);
    HeadersExactly(b, FRESH, chunks);
  }

  // ----- what a cut inside a header line does -----

  lemma OneChunk(b: seq<byte>, m: Machine, c: seq<byte>)
    requires WellFormed(b, m)
    ensures RunChunks(b, m, [c]).toks == Delivered(b, m.(acc := []), c)
  {
    var o := Run(b, m.(acc := []), c);
    assert [c][1..] == [];
    if o.ok {
      assert RunChunks(b, o.m, []).toks == [];
    }
  }

  /** The letters and hyphens of a name, without its colon. */
  lemma {:induction false} NameSoFar(b: seq<byte>, m: Machine, name: seq<byte>)
    requires |b| > 0 && m.phase.HeaderField? && IsName(name)
    ensures Run(b, m, name) == Outcome(Machine(HeaderField, m.index, m.acc + name), [], |name|, true)
    decreases |name|
  {
    if name == [] {
      assert m.acc + name == m.acc;
    } else {
      StepInName(b, m, name[0]);
      hide Step;
      hide IsLetter;
      NameSoFar(b, m.(acc := m.acc + [name[0]]), name[1..]);
      assert m.acc + [name[0]] + name[1..] == m.acc + name;
    }
  }

  lemma NameBegins(b: seq<byte>, index: nat, acc: seq<byte>, name: seq<byte>)
    requires |b| > 0 && name != []
    ensures Run(b, Machine(HeaderFieldStart, index, acc), name) == Run(b, Machine(HeaderField, index, []), name)
  {
    assert Step(b, Machine(HeaderFieldStart, index, acc), name[0]) == Step(b, Machine(HeaderField, index, []), name[0]);
    hide Step;
  }

  lemma NameDelivered(b: seq<byte>, index: nat, name: seq<byte>)
    requires |b| > 0 && IsName(name) && name != [] && name[|name| - 1] == HYPHEN
    ensures var m := Machine(HeaderFieldStart, index, []);
            var o := Outcome(Machine(HeaderField, index, name), [], |name|, true);
            Run(b, m, name) == o && Delivered(b, m, name) == []
  {
    NameBegins(b, index, [], name);
    NameSoFar(b, Machine(HeaderField, index, []), name);
    hide Run;
    assert [] + name == name;
  }

  lemma ColonDelivered(b: seq<byte>, index: nat, name: seq<byte>)
    requires |b| > 0 && IsName(name)
    ensures Delivered(b, Machine(HeaderField, index, []), name + [COLON]) == [Field(name)]
  {
    NameFrom(b, index, [], name);
    hide Run;
    assert [] + name == name;
  }

  lemma WholeName(b: seq<byte>, index: nat, before: seq<byte>, after: seq<byte>)
    requires |b| > 0 && IsName(before) && IsName(after)
    ensures Run(b, Machine(HeaderFieldStart, index, []), before + (after + [COLON])).toks == [Field(before + after)]
  {
    ReadsName(b, before + after);
    assert before + (after + [COLON]) == before + after + [COLON];
    hide Run;
    assert ReadsFrom(b, Machine(HeaderFieldStart, index, []), before + after + [COLON], [Field(before + after)],
                     HeaderValueStart);
  }

  /** A header name cut after a hyphen loses what stands before the cut. */
  lemma HyphenCut(b: seq<byte>, index: nat, before: seq<byte>, after: seq<byte>)
    requires |b| > 0 && IsName(before) && IsName(after) && before != [] && before[|before| - 1] == HYPHEN
    ensures var m := Machine(HeaderFieldStart, index, []);
            && Run(b, m, before + (after + [COLON])).toks == [Field(before + after)]
            && RunChunks(b, m, [before, after + [COLON]]).toks == [Field(after)]
  {
    WholeName(b, index, before, after);
    NameDelivered(b, index, before);
    ColonDelivered(b, index, after);
    hide *;
    hide WellFormed;
    var m := Machine(HeaderFieldStart, index, []);
    var d := after + [COLON];
    assert RunChunks(b, m, [before, d]).toks ==
           Delivered(b, m.(acc := []), before) + RunChunks(b, Run(b, m.(acc := []), before).m, [d]).toks by {
      assert [before, d][1..] == [d];
    }
    OneChunk(b, Machine(HeaderField, index, before), after + [COLON]);
    assert [] + [Field(after)] == [Field(after)];
  }

  lemma ReturnDelivered(b: seq<byte>, index: nat, text: seq<byte>)
    requires |b| > 0 && CR !in text && (text != [] ==> text[0] != SPACE)
    ensures var m := Machine(HeaderValueStart, index, []);
            && Run(b, m, text + [CR]).toks == [Value(text)]
            && Delivered(b, m, text + [CR]) == [Value(text)] + [Value(text + [CR])]
  {
    hide Run;
    hide Delivered;
    hide Step;
    hide Tail;
    var m, s := Machine(HeaderValueStart, index, []), text + [CR];
    TextSoFar(b, index, [], text);
    ValueBegins(b, index, s);
    assert [] + text == text && [] + text + [CR] == s;
    TailAfterReturn(b, m, s, [Value(text)]);
  }

  lemma TailAfterReturn(b: seq<byte>, m: Machine, s: seq<byte>, toks: seq<Token>)
    requires WellFormed(b, m) && s != []
    requires var o := Run(b, m, s); o.ok && o.m.phase.HeaderValueAlmostDone? && o.toks == toks
    ensures Delivered(b, m, s) == toks + [Value(Run(b, m, s).m.acc)]
  {
    hide Run;
  }

  lemma ValueBegins(b: seq<byte>, index: nat, s: seq<byte>)
    requires |b| > 0 && s != [] && s[0] != SPACE
    ensures Run(b, Machine(HeaderValueStart, index, []), s) == Run(b, Machine(HeaderValue, index, []), s)
  {
    assert Step(b, Machine(HeaderValueStart, index, []), s[0]) == Step(b, Machine(HeaderValue, index, []), s[0]);
    hide Step;
  }

  /** A chunk that ends with the CR of a header value delivers the value a second time, with its CR. */
  lemma ReturnCut(b: seq<byte>, index: nat, text: seq<byte>)
    requires |b| > 0 && CR !in text && (text != [] ==> text[0] != SPACE)
    ensures var m := Machine(HeaderValueStart, index, []);
            && Run(b, m, text + [CR]).toks == [Value(text)]
            && RunChunks(b, m, [text + [CR]]).toks == [Value(text)] + [Value(text + [CR])]
  {
    ReturnDelivered(b, index, text);
    hide *;
    OneChunk(b, Machine(HeaderValueStart, index, []), text + [CR]);
  }
}
