/** An upload form as a browser sends it: the parts before the file data in the first chunk, the rest cut anyhow. */
module UploadForms {
  import opened Bytes
  import opened Common
  import opened MultipartMachine
  import opened MultipartMatching
  import opened MultipartParser
  import opened MultipartChunks
  import opened MultipartRoundTrip
  import opened UploadHandlers
  import opened UploadTokens
  import CanonicalPath
  import UploadNames
  import UploadRuns

  function Init<T>(s: seq<T>): seq<T>
    requires s != []
  {
    s[..|s| - 1]
  }

  function Last<T>(s: seq<T>): T
    requires s != []
  {
    s[|s| - 1]
  }

  lemma InitLast<T>(s: seq<T>)
    requires s != []
    ensures s == Init(s) + [Last(s)]
  {
  }

  // ----- what a form means -----

  /** The kind of a part, from its headers in order. */
  function PartTypeOf(hs: seq<Header>): PartType {
    if hs == [] then Unknown
    else if IsDisposition(Last(hs).name) then PartOf(Last(hs).text, PartTypeOf(Init(hs)))
    else PartTypeOf(Init(hs))
  }

  /** What the parts before the file data have set. */
  datatype Form = Form(sessionid: Option<seq<byte>>, filename: Option<seq<byte>>, filemode: Option<seq<byte>>)

  /** None if a session without the right to upload was named. */
  function Collect(w: Access, front: seq<Part>): Option<Form> {
    if front == [] then Some(Form(None, None, None))
    else match Collect(w, Init(front))
      case None => None
      case Some(form) =>
        var p := Last(front);
        match PartTypeOf(p.headers)
        case SessionId => if w.upload(Some(p.body)) then Some(form.(sessionid := Some(p.body))) else None
        case FileName => Some(form.(filename := PathOf(p.body)))
        case FileMode => Some(form.(filemode := Some(p.body)))
        case _ => Some(form)
  }

  /** An empty file name makes `canonicalize_path` write behind its buffer, if the upload gets that far. */
  predicate Overruns(w: Access, front: seq<Part>) {
    front != [] &&
    (Overruns(w, Init(front)) ||
     (Collect(w, Init(front)).Some? && PartTypeOf(Last(front).headers) == FileName && Last(front).body == []))
  }

  /** What the parts before the file data lead to. */
  datatype Fate = Overran | Refused | Ready(form: Form)

  function FateOf(w: Access, front: seq<Part>): Fate {
    if Overruns(w, front) then Overran
    else match Collect(w, front)
      case None => Refused
      case Some(form) => Ready(form)
  }

  // ----- the text through the blank line of the file data -----

  function FrontText(b: seq<byte>, front: seq<Part>): seq<byte> {
    if front == [] then [] else FrontText(b, Init(front)) + (PrintPart(b, Last(front)) + [CR, LF])
  }

  function HeadText(b: seq<byte>, front: seq<Part>, hs: seq<Header>): seq<byte> {
    b + [CR, LF] + FrontText(b, front) + (PrintHeaders(hs) + [CR, LF])
  }

  function FrontTokens(front: seq<Part>): seq<Token> {
    if front == [] then [PartBegin] else FrontTokens(Init(front)) + (PartTokens(Last(front)) + [PartBegin])
  }

  function HeadTokens(front: seq<Part>, hs: seq<Header>): seq<Token> {
    FrontTokens(front) + HeaderTokens(hs)
  }

  lemma {:induction false} ReadsFront(b: seq<byte>, front: seq<Part>)
    requires |b| > 0 && CR !in b && forall i :: 0 <= i < |front| ==> PrintablePart(b, front[i])
    ensures Reads(b, Start, b + [CR, LF] + FrontText(b, front), FrontTokens(front), HeaderFieldStart)
    decreases |front|
  {
    hide Reads;
    hide PrintablePart;
    if front == [] {
      ReadsFirstBoundary(b);
      assert b + [CR, LF] + [] == b + [CR, LF];
    } else {
      var init, p := Init(front), Last(front);
      ReadsFront(b, init);
      ReadsPart(b, p);
      assert Reads(b, PartDataAlmostEnd, [CR, LF], [PartBegin], HeaderFieldStart) by {
        ReadsByte(b, PartDataAlmostEnd, CR, [], PartDataEnd);
        ReadsByte(b, PartDataEnd, LF, [PartBegin], HeaderFieldStart);
        hide Reads;
        ReadsBytes(b, PartDataAlmostEnd, CR, PartDataEnd, LF, [PartBegin], HeaderFieldStart);
      }
      ReadsBoth(b, HeaderFieldStart, PrintPart(b, p), PartTokens(p), PartDataAlmostEnd, [CR, LF], [PartBegin],
                HeaderFieldStart);
      ReadsBoth(b, Start, b + [CR, LF] + FrontText(b, init), FrontTokens(init), HeaderFieldStart,
                PrintPart(b, p) + [CR, LF], PartTokens(p) + [PartBegin], HeaderFieldStart);
      Associates(b + [CR, LF], FrontText(b, init), PrintPart(b, p) + [CR, LF]);
    }
  }

  lemma ReadsBlankLine(b: seq<byte>)
    requires |b| > 0
    ensures Reads(b, HeaderFieldStart, [CR, LF], [], PartDataStart)
  {
    assert forall index: nat, acc ::
        Step(b, Machine(HeaderFieldStart, index, acc), CR) == Accept(HeadersAlmostDone, index, [], []);
    ReadsByte(b, HeaderFieldStart, CR, [], HeadersAlmostDone);
    ReadsByte(b, HeadersAlmostDone, LF, [], PartDataStart);
    hide Reads;
    ReadsBytes(b, HeaderFieldStart, CR, HeadersAlmostDone, LF, [], PartDataStart);
  }

  lemma HeadIsRead(b: seq<byte>, front: seq<Part>, hs: seq<Header>)
    requires |b| > 0 && CR !in b && forall i :: 0 <= i < |front| ==> PrintablePart(b, front[i])
    requires forall i :: 0 <= i < |hs| ==> Printable(hs[i])
    ensures var o := Run(b, FRESH, HeadText(b, front, hs));
            o.ok && o.m.phase.PartDataStart? && o.toks == HeadTokens(front, hs)
  {
    ReadsFront(b, front);
    ReadsHeaders(b, hs);
    ReadsBlankLine(b);
    ReadsBoth(b, HeaderFieldStart, PrintHeaders(hs), HeaderTokens(hs), HeaderFieldStart, [CR, LF], [], PartDataStart);
    assert HeaderTokens(hs) + [] == HeaderTokens(hs);
    ReadsBoth(b, Start, b + [CR, LF] + FrontText(b, front), FrontTokens(front), HeaderFieldStart,
              PrintHeaders(hs) + [CR, LF], HeaderTokens(hs), PartDataStart);
    hide Run;
    assert ReadsFrom(b, Machine(Start, 0, []), HeadText(b, front, hs), HeadTokens(front, hs), PartDataStart);
  }

  lemma {:induction false} PartsSplit(b: seq<byte>, front: seq<Part>, more: seq<Part>)
    requires more != []
    ensures PrintParts(b, front + more) == FrontText(b, front) + PrintParts(b, more)
    decreases |front|
  {
    if front == [] {
      assert front + more == more;
      assert [] + PrintParts(b, more) == PrintParts(b, more);
    } else {
      var init, p := Init(front), Last(front);
      InitLast(front);
      assert front + more == init + ([p] + more);
      PartsSplit(b, init, [p] + more);
      assert ([p] + more)[0] == p && ([p] + more)[1..] == more;
      hide PrintPart;
      assert FrontText(b, init) + (PrintPart(b, p) + ([CR, LF] + PrintParts(b, more)))
          == FrontText(b, init) + (PrintPart(b, p) + [CR, LF]) + PrintParts(b, more);
    }
  }

  /** What follows the file data. */
  function Behind(b: seq<byte>, rest: seq<Part>, epilogue: seq<byte>): seq<byte> {
    (if rest == [] then [HYPHEN, HYPHEN] else [CR, LF] + PrintParts(b, rest)) + epilogue
  }

  lemma PrintSplits(b: seq<byte>, front: seq<Part>, file: Part, rest: seq<Part>, epilogue: seq<byte>)
    ensures Print(b, front + ([file] + rest), epilogue) ==
            HeadText(b, front, file.headers) + (file.body + Delimiter(b) + Behind(b, rest, epilogue))
  {
    var more := [file] + rest;
    PartsSplit(b, front, more);
    assert more[0] == file && more[1..] == rest;
    var last := if rest == [] then [HYPHEN, HYPHEN] else [CR, LF] + PrintParts(b, rest);
    assert PrintParts(b, more) == PrintPart(b, file) + last;
    hide PrintParts;
    hide PrintHeaders;
    hide FrontText;
    Regroup(b + [CR, LF], FrontText(b, front), PrintHeaders(file.headers), [CR, LF], file.body + Delimiter(b), last,
            epilogue);
  }

  lemma {:induction false} Regroup(a: seq<byte>, c: seq<byte>, d: seq<byte>, e: seq<byte>, f: seq<byte>, g: seq<byte>,
                                   h: seq<byte>)
    ensures a + (c + (d + (e + f) + g) + h) == a + c + (d + e) + (f + (g + h))
  {
  }

  // ----- the kind of a part, from what is told -----

  lemma HeaderTokensLast(hs: seq<Header>)
    requires hs != []
    ensures HeaderTokens(hs) == HeaderTokens(Init(hs)) + [Field(Last(hs).name), Value(Last(hs).text)]
    decreases |hs|
  {
    if |hs| == 1 {
      assert hs[1..] == [] && Init(hs) == [];
    } else {
      HeaderTokensLast(hs[1..]);
      assert Init(hs)[1..] == Init(hs[1..]) && Init(hs)[0] == hs[0];
    }
  }

  lemma HeadingHeader(toks: seq<Token>, h: Header)
    ensures var before, heading := HeadingAfter(toks), HeadingAfter(toks + [Field(h.name), Value(h.text)]);
            heading.part == if IsDisposition(h.name) then PartOf(h.text, before.part) else before.part
  {
    HeadingLast(toks, Field(h.name));
    HeadingLast(toks + [Field(h.name)], Value(h.text));
    assert toks + [Field(h.name)] + [Value(h.text)] == toks + [Field(h.name), Value(h.text)];
  }

  lemma {:induction false} HeadingHeaders(toks: seq<Token>, hs: seq<Header>)
    requires HeadingAfter(toks).part == Unknown && NoFile(toks)
    ensures var told := toks + HeaderTokens(hs); HeadingAfter(told).part == PartTypeOf(hs) && NoFile(told)
    decreases |hs|
  {
    if hs == [] {
      assert toks + HeaderTokens(hs) == toks;
    } else {
      var told, h := toks + HeaderTokens(Init(hs)), Last(hs);
      HeadingHeaders(toks, Init(hs));
      HeaderTokensLast(hs);
      assert toks + HeaderTokens(hs) == told + [Field(h.name), Value(h.text)];
      HeadingHeader(told, h);
      NoFileMore(told, Field(h.name));
      NoFileMore(told + [Field(h.name)], Value(h.text));
      assert told + [Field(h.name)] + [Value(h.text)] == told + [Field(h.name), Value(h.text)];
      hide HeadingAfter;
      hide NoFile;
    }
  }

  lemma NoFileMore(toks: seq<Token>, t: Token)
    requires NoFile(toks) && (t == HeadersComplete ==> HeadingAfter(toks).part != FileData)
    ensures NoFile(toks + [t])
  {
    var told := toks + [t];
    forall i | 0 <= i < |told| && told[i] == HeadersComplete ensures HeadingAfter(told[..i]).part != FileData {
      if i < |toks| {
        assert told[..i] == toks[..i];
      } else {
        assert told[..i] == toks;
      }
    }
  }

  lemma {:induction false} NoFileData(toks: seq<Token>, x: seq<byte>)
    requires NoFile(toks)
    ensures NoFile(toks + DataTokens(x))
    decreases |x|
  {
    if x == [] {
      assert toks + DataTokens(x) == toks;
    } else {
      NoFileData(toks, Init(x));
      assert toks + DataTokens(x) == toks + DataTokens(Init(x)) + [Data(Last(x))];
      NoFileMore(toks + DataTokens(Init(x)), Data(Last(x)));
    }
  }

  lemma HeadingPart(toks: seq<Token>, p: Part)
    requires HeadingAfter(toks).part == Unknown && NoFile(toks) && PartTypeOf(p.headers) != FileData
    ensures var told := toks + (PartTokens(p) + [PartBegin]); HeadingAfter(told).part == Unknown && NoFile(told)
  {
    hide NoFile;
    hide HeadingAfter;
    var a := toks + HeaderTokens(p.headers);
    HeadingHeaders(toks, p.headers);
    var c := a + [HeadersComplete];
    NoFileMore(a, HeadersComplete);
    HeadingLast(a, HeadersComplete);
    var d := c + DataTokens(p.body);
    NoFileData(c, p.body);
    HeadingData(c, p.body);
    NoFileMore(d, PartEnd);
    HeadingLast(d, PartEnd);
    NoFileMore(d + [PartEnd], PartBegin);
    HeadingLast(d + [PartEnd], PartBegin);
    PartRegroups(toks, HeaderTokens(p.headers), DataTokens(p.body));
  }

  lemma PartRegroups(toks: seq<Token>, hs: seq<Token>, data: seq<Token>)
    ensures toks + (hs + ([HeadersComplete] + (data + [PartEnd])) + [PartBegin])
         == toks + hs + [HeadersComplete] + data + [PartEnd] + [PartBegin]
  {
  }

  lemma {:induction false} FrontHeading(front: seq<Part>)
    requires forall i :: 0 <= i < |front| ==> PartTypeOf(front[i].headers) != FileData
    ensures var told := FrontTokens(front); HeadingAfter(told).part == Unknown && NoFile(told)
    decreases |front|
  {
    if front == [] {
      NoFileMore([], PartBegin);
      HeadingLast([], PartBegin);
      assert [] + [PartBegin] == [PartBegin];
    } else {
      FrontHeading(Init(front));
      HeadingPart(FrontTokens(Init(front)), Last(front));
    }
  }

  // ----- the calls for such parts -----

  function HeaderCalls(log: History, hs: seq<Header>): History {
    if hs == [] then log
    else Then(Then(HeaderCalls(log, Init(hs)), OnHeaderField(Last(hs).name)), OnHeaderValue(Last(hs).text))
  }

  function PartCalls(log: History, p: Part): History {
    Then(Then(Then(HeaderCalls(log, p.headers), OnHeadersComplete), OnPartData(p.body)), OnPartDataEnd)
  }

  function FrontCalls(front: seq<Part>): History {
    if front == [] then Then(NoCalls, OnPartDataBegin)
    else Then(PartCalls(FrontCalls(Init(front)), Last(front)), OnPartDataBegin)
  }

  /** The calls of one chunk, data handed over after the headers only. */
  predicate Straight(log: History) {
    Ordered(log) && Lumped(NoCalls, log)
  }

  /** A call that tells nothing comes after one that does. */
  lemma NothingTold(log: History)
    requires Straight(log) && log.Then? && TokensOf(log.last) == []
    ensures log.last == OnPartData([]) && log.earlier.Then? && TokensOf(log.earlier.last) != []
    ensures log.earlier.last.OnHeadersComplete? || log.earlier.last.OnPartData?
  {
    UploadRuns.OtherCalls(log.last);
    assert |log.last.at| == 0;
  }

  /** What is told last, if it is no data, was told by the last call. */
  lemma LastCall(log: History, toks: seq<Token>, t: Token)
    requires Straight(log) && Flatten(log) == toks + [t] && !t.Data? && !t.HeadersComplete?
    ensures log.Then? && TokensOf(log.last) == [t] && Flatten(log.earlier) == toks && Straight(log.earlier)
  {
    var before, told := Flatten(log.earlier), TokensOf(log.last);
    if told == [] {
      NothingTold(log);
      var e := log.earlier.last;
      assert before + told == before;
      EndsWith(Flatten(log.earlier.earlier), TokensOf(e), toks, t);
      assert false;
    } else {
      UploadRuns.OtherCalls(log.last);
      EndsWith(before, told, toks, t);
      assert told == [t];
      assert (before + told)[..|before|] == before;
      assert (toks + [t])[..|toks|] == toks;
    }
  }

  lemma EndsWith(a: seq<Token>, told: seq<Token>, toks: seq<Token>, t: Token)
    requires a + told == toks + [t] && told != []
    ensures told[|told| - 1] == t
  {
    assert (a + told)[|a + told| - 1] == told[|told| - 1];
  }

  lemma OneToken(e: Event, t: Token)
    requires TokensOf(e) == [t] && !t.Data?
    ensures match t
            case Field(at) => e == OnHeaderField(at)
            case Value(at) => e == OnHeaderValue(at)
            case PartBegin => e == OnPartDataBegin
            case PartEnd => e == OnPartDataEnd
            case HeadersComplete => e == OnHeadersComplete
            case BodyEnd => e == OnBodyEnd
            case Data(_) => true
  {
    assert TokensOf(e)[0] == t;
  }

  lemma {:induction false} HeadersExact(log: History, toks: seq<Token>, hs: seq<Header>) returns (before: History)
    requires Straight(log) && Flatten(log) == toks + HeaderTokens(hs)
    ensures log == HeaderCalls(before, hs) && Flatten(before) == toks && Straight(before)
    decreases |hs|
  {
    if hs == [] {
      assert toks + HeaderTokens(hs) == toks;
      before := log;
    } else {
      var told, h := toks + HeaderTokens(Init(hs)), Last(hs);
      HeaderTokensLast(hs);
      assert toks + HeaderTokens(hs) == told + [Field(h.name)] + [Value(h.text)];
      LastCall(log, told + [Field(h.name)], Value(h.text));
      LastCall(log.earlier, told, Field(h.name));
      OneToken(log.last, Value(h.text));
      OneToken(log.earlier.last, Field(h.name));
      hide Straight;
      before := HeadersExact(log.earlier.earlier, toks, Init(hs));
    }
  }

  /** A body without a CR is handed over in one call. */
  lemma BodyExact(log: History, toks: seq<Token>, y: seq<byte>)
    requires Straight(log) && log.Then? && log.last.OnPartData? && CR !in y
    requires Flatten(log) == toks + [HeadersComplete] + DataTokens(y)
    ensures log.last == OnPartData(y) && log.earlier.Then? && log.earlier.last == OnHeadersComplete
    ensures Flatten(log.earlier.earlier) == toks && Straight(log.earlier.earlier)
  {
    var x, e := log.last.at, log.earlier.last;
    var before := log.earlier.earlier;
    assert Straight(log.earlier) && Straight(before);
    assert Flatten(log) == Flatten(before) + TokensOf(e) + DataTokens(x);
    if e.OnPartData? {
      TwoPieces(Flatten(before), e.at, x, toks, y);
      assert false;
    } else {
      OnlyHeaders(Flatten(before), x, toks, y);
    }
  }

  lemma TwoPieces(told: seq<Token>, z: seq<byte>, x: seq<byte>, toks: seq<Token>, y: seq<byte>)
    requires told + DataTokens(z) + DataTokens(x) == toks + [HeadersComplete] + DataTokens(y) && CR !in y
    ensures CR !in z && CR !in x
  {
    var all, n := told + DataTokens(z) + DataTokens(x), |told|;
    assert |all| == |toks| + 1 + |y|;
    // Data at the end lies behind the end of the headers.
    var data := DataTokens(z) + DataTokens(x);
    assert |told| > |toks| by {
      assert told + data == toks + [HeadersComplete] + DataTokens(y);
      assert forall i :: 0 <= i < |data| ==> data[i].Data?;
      var all := told + data;
      assert |all| > |toks| && all[|toks|] == HeadersComplete;
      assert forall i :: |told| <= i < |all| ==> all[i] == data[i - |told|];
    }
    forall i | 0 <= i < |z| ensures z[i] != CR {
      assert all[n + i] == Data(z[i]);
      assert (toks + [HeadersComplete] + DataTokens(y))[n + i] == Data(y[n + i - |toks| - 1]);
    }
    forall i | 0 <= i < |x| ensures x[i] != CR {
      assert all[n + |z| + i] == Data(x[i]);
      assert (toks + [HeadersComplete] + DataTokens(y))[n + |z| + i] == Data(y[n + |z| + i - |toks| - 1]);
    }
  }

  lemma OnlyHeaders(told: seq<Token>, x: seq<byte>, toks: seq<Token>, y: seq<byte>)
    requires told + [HeadersComplete] + DataTokens(x) == toks + [HeadersComplete] + DataTokens(y)
    ensures told == toks && x == y
  {
    var all := told + [HeadersComplete] + DataTokens(x);
    assert all[|told|] == HeadersComplete && all[|toks|] == HeadersComplete;
    assert forall i :: |told| < i < |all| ==> all[i].Data?;
    assert forall i :: |toks| < i < |all| ==> all[i].Data?;
    assert |told| == |toks|;
    assert told == all[..|told|] == toks;
    forall i | 0 <= i < |x| ensures x[i] == y[i] {
      assert all[|told| + 1 + i] == Data(x[i]);
      assert all[|told| + 1 + i] == Data(y[i]);
    }
  }

  lemma PartExact(log: History, toks: seq<Token>, p: Part) returns (before: History)
    requires Straight(log) && CR !in p.body && Flatten(log) == toks + PartTokens(p)
    ensures log == PartCalls(before, p) && Flatten(before) == toks && Straight(before)
  {
    var hs, data := HeaderTokens(p.headers), DataTokens(p.body);
    assert toks + (hs + ([HeadersComplete] + (data + [PartEnd]))) == toks + hs + [HeadersComplete] + data + [PartEnd];
    LastCall(log, toks + hs + [HeadersComplete] + data, PartEnd);
    OneToken(log.last, PartEnd);
    BodyExact(log.earlier, toks + hs, p.body);
    before := HeadersExact(log.earlier.earlier.earlier, toks, p.headers);
  }

  lemma {:induction false} FrontExact(log: History, front: seq<Part>)
    requires Straight(log) && Flatten(log) == FrontTokens(front)
    requires forall i :: 0 <= i < |front| ==> CR !in front[i].body
    ensures log == FrontCalls(front)
    decreases |front|
  {
    if front == [] {
      assert [PartBegin] == [] + [PartBegin];
      LastCall(log, [], PartBegin);
      OneToken(log.last, PartBegin);
      assert log.earlier == NoCalls by {
        if log.earlier.Then? {
          assert |TokensOf(log.earlier.last)| <= |Flatten(log.earlier)|;
          NothingTold(log.earlier);
        }
      }
    } else {
      var init, p := Init(front), Last(front);
      Associates(FrontTokens(init), PartTokens(p), [PartBegin]);
      LastCall(log, FrontTokens(init) + PartTokens(p), PartBegin);
      OneToken(log.last, PartBegin);
      hide Straight;
      var before := PartExact(log.earlier, FrontTokens(init), p);
      FrontExact(before, init);
    }
  }

  lemma HeadExact(log: History, front: seq<Part>, hs: seq<Header>)
    requires Straight(log) && Flatten(log) == HeadTokens(front, hs)
    requires forall i :: 0 <= i < |front| ==> CR !in front[i].body
    ensures log == HeaderCalls(FrontCalls(front), hs)
  {
    var before := HeadersExact(log, FrontTokens(front), hs);
    FrontExact(before, front);
  }

  // ----- what the callbacks know after such calls -----

  lemma {:induction false} AfterHeaders(w: Access, log: History, hs: seq<Header>)
    requires StateAfter(w, log).part == Unknown
    ensures Clean(Answers(w), HeaderCalls(log, hs)) == Clean(Answers(w), log)
    ensures var st, st' := StateAfter(w, log), StateAfter(w, HeaderCalls(log, hs));
            st' == st.(disposition := st'.disposition, part := PartTypeOf(hs))
    decreases |hs|
  {
    if hs != [] {
      AfterHeaders(w, log, Init(hs));
      hide PartOf;
      hide IsDisposition;
    }
  }

  lemma AfterPart(w: Access, log: History, p: Part)
    requires var st := StateAfter(w, log); st.part == Unknown && Clean(Answers(w), log)
    requires PartTypeOf(p.headers) != FileData
    ensures Clean(Answers(w), PartCalls(log, p)) <==> (PartTypeOf(p.headers) == SessionId ==> w.upload(Some(p.body)))
    ensures var st, st' := StateAfter(w, log), StateAfter(w, PartCalls(log, p));
            Clean(Answers(w), PartCalls(log, p)) ==>
              && st'.part == Unknown
              && st'.sessionid == (if PartTypeOf(p.headers) == SessionId then Some(p.body) else st.sessionid)
              && st'.filename == (if PartTypeOf(p.headers) == FileName then PathOf(p.body) else st.filename)
              && st'.filemode == (if PartTypeOf(p.headers) == FileMode then Some(p.body) else st.filemode)
    ensures var st, st' := StateAfter(w, log), StateAfter(w, PartCalls(log, p));
            st'.overrun <==> st.overrun || (PartTypeOf(p.headers) == FileName && p.body == [])
  {
    AfterHeaders(w, log, p.headers);
    hide PartTypeOf;
    hide PathOf;
    hide PathOutcome;
    var l1 := HeaderCalls(log, p.headers);
    var l2 := Then(l1, OnHeadersComplete);
    var l3 := Then(l2, OnPartData(p.body));
    hide HeaderCalls;
    assert Clean(Answers(w), l2) && StateAfter(w, l2) == StateAfter(w, l1);
    assert Clean(Answers(w), l3);
    assert Clean(Answers(w), PartCalls(log, p)) == Answers(w)(l3, OnPartDataEnd);
  }

  lemma {:induction false} AfterFront(w: Access, front: seq<Part>)
    requires forall i :: 0 <= i < |front| ==> PartTypeOf(front[i].headers) != FileData
    ensures Clean(Answers(w), FrontCalls(front)) <==> Collect(w, front).Some?
    ensures var st := StateAfter(w, FrontCalls(front));
            Collect(w, front).Some? ==>
              && st.part == Unknown && Collect(w, front).value == Form(st.sessionid, st.filename, st.filemode)
              && (st.overrun <==> Overruns(w, front))
    decreases |front|
  {
    if front != [] {
      var init, p := Init(front), Last(front);
      AfterFront(w, init);
      if Collect(w, init).Some? {
        AfterPart(w, FrontCalls(init), p);
      } else {
        NotCleanAfter(w, FrontCalls(init), p);
      }
      hide PartCalls;
      hide PartTypeOf;
    }
  }

  lemma NotCleanAfter(w: Access, log: History, p: Part)
    requires !Clean(Answers(w), log)
    ensures !Clean(Answers(w), PartCalls(log, p))
  {
    HeadersNotClean(w, log, p.headers);
    var l2 := Then(HeaderCalls(log, p.headers), OnHeadersComplete);
    assert !Clean(Answers(w), l2) && !Clean(Answers(w), Then(l2, OnPartData(p.body)));
  }

  lemma {:induction false} HeadersNotClean(w: Access, log: History, hs: seq<Header>)
    requires !Clean(Answers(w), log)
    ensures !Clean(Answers(w), HeaderCalls(log, hs))
    decreases |hs|
  {
    if hs != [] {
      HeadersNotClean(w, log, Init(hs));
    }
  }

  /** Where the upload was refused nothing runs over any more. */
  lemma {:induction false} OverrunsPrefix(w: Access, front: seq<Part>, k: nat)
    requires k <= |front| && Collect(w, front[..k]).None?
    ensures Collect(w, front).None? && (Overruns(w, front) <==> Overruns(w, front[..k]))
    decreases |front|
  {
    if k == |front| {
      assert front[..k] == front;
    } else {
      assert Init(front)[..k] == front[..k];
      OverrunsPrefix(w, Init(front), k);
    }
  }

  // ----- the calls of the first chunk -----

  lemma {:induction false} OneExtends(a: History, c: History, log: History)
    requires Extends(a, log) && Extends(c, log)
    ensures Extends(a, c) || Extends(c, a)
    decreases log
  {
    if a != log && c != log {
      OneExtends(a, c, log.earlier);
    }
  }

  lemma {:induction false} StraightBefore(a: History, log: History)
    requires Extends(a, log)
    ensures Ordered(log) ==> Ordered(a)
    ensures Lumped(NoCalls, log) ==> Lumped(NoCalls, a)
    decreases log
  {
    if a != log {
      StraightBefore(a, log.earlier);
    }
  }

  /** The calls up to the blank line of the file data are those of the first chunk, or some of them. */
  lemma {:induction false} InFirstChunk(b: seq<byte>, w: Access, chunks: seq<seq<byte>>, first: History, log: History,
                                        log0: History, told: seq<Token>)
    requires |b| > 0 && chunks != [] && Ordered(log) && FirstCalls(b, Answers(w), chunks, first, log)
    requires Extends(log0, log) && Flatten(log0) <= told <= Delivered(b, FRESH, chunks[0])
    requires Walk(false, told) == Some(false)
    ensures Straight(log0)
  {
    hide Delivered;
    hide Walk;
    OneExtends(log0, first, log);
    StraightBefore(log0, log);
    if Extends(log0, first) {
      StraightBefore(log0, first);
    } else {
      UploadRuns.ExtendsTells(first, log0);
      UploadRuns.ExtendsTells(log0, log);
      SameTold(Flatten(first), Flatten(log0), told, Delivered(b, FRESH, chunks[0]));
      UploadRuns.ExtendsTells(first, log0.earlier);
      SilentLast(Flatten(log0.earlier), TokensOf(log0.last), told);
      UploadRuns.OtherCalls(log0.last);
      OrderedInside(log0);
    }
  }

  lemma SameTold(a: seq<Token>, c: seq<Token>, told: seq<Token>, all: seq<Token>)
    requires a <= c <= told <= all && a == all
    ensures a == c == told
  {
  }

  lemma SilentLast(before: seq<Token>, last: seq<Token>, told: seq<Token>)
    requires told <= before && before + last == told
    ensures last == []
  {
    assert |before + last| == |before| + |last|;
  }

  lemma DeliversHead(b: seq<byte>, head: seq<byte>, chunk: seq<byte>)
    requires |b| > 0 && head <= chunk && Run(b, FRESH, head).ok
    ensures Run(b, FRESH, head).toks <= Delivered(b, FRESH, chunk)
  {
    assert chunk == head + chunk[|head|..];
    RunConcat(b, FRESH, head, chunk[|head|..]);
    hide Run;
  }

  // ----- where the upload may be turned down -----

  lemma {:induction false} HeaderTokensKinds(hs: seq<Header>)
    ensures forall i :: 0 <= i < |HeaderTokens(hs)| ==> HeaderTokens(hs)[i].Field? || HeaderTokens(hs)[i].Value?
    decreases |hs|
  {
    if hs != [] {
      HeaderTokensKinds(hs[1..]);
    }
  }

  lemma {:induction false} EndsAtPart(front: seq<Part>, hs: seq<Header>, toks: seq<Token>) returns (i: nat)
    requires toks != [] && toks <= HeadTokens(front, hs) && Last(toks) == PartEnd
    ensures i < |front| && toks == FrontTokens(front[..i]) + PartTokens(front[i])
    decreases |front|
  {
    var told := FrontTokens(front);
    HeaderTokensKinds(hs);
    assert HeadTokens(front, hs)[|toks| - 1] == PartEnd;
    assert |toks| <= |told|;
    assert toks <= told;
    assert told[|toks| - 1] == PartEnd;
    if front == [] {
      assert false;
    } else {
      var init, p := Init(front), Last(front);
      var before, part := FrontTokens(init), PartTokens(p);
      if |toks| <= |before| {
        assert toks <= before;
        assert HeadTokens(init, []) == before;
        i := EndsAtPart(init, [], toks);
        assert front[..i] == init[..i];
      } else {
        i := |front| - 1;
        hide FrontTokens;
        AtPartEnd(before, p, toks);
      }
    }
  }

  lemma AtPartEnd(before: seq<Token>, p: Part, toks: seq<Token>)
    requires toks <= before + (PartTokens(p) + [PartBegin]) && |before| < |toks| && Last(toks) == PartEnd
    ensures toks == before + PartTokens(p)
  {
    var part, i := PartTokens(p), |toks| - 1 - |before|;
    var all := before + (part + [PartBegin]);
    assert all[|toks| - 1] == (part + [PartBegin])[i] == PartEnd;
    assert i == |PartTokens(p)| - 1 by {
      HeaderTokensKinds(p.headers);
      hide HeaderTokens;
    }
    hide PartTokens;
    assert toks == all[..|toks|] == before + part;
  }

  /** If the end of a part before the file data was turned down, the form could not be collected. */
  lemma StoppedInFront(w: Access, front: seq<Part>, hs: seq<Header>, log: History)
    requires Straight(log) && log.Then? && log.last == OnPartDataEnd && Flatten(log) <= HeadTokens(front, hs)
    requires forall i :: 0 <= i < |front| ==> CR !in front[i].body && PartTypeOf(front[i].headers) != FileData
    requires Rejected(Answers(w), log)
    ensures Collect(w, front).None? && (StateAfter(w, log).overrun <==> Overruns(w, front))
  {
    hide *;
    LastTold(log);
    var i := EndsAtPart(front, hs, Flatten(log));
    var before := PartExact(log, FrontTokens(front[..i]), front[i]);
    FrontExact(before, front[..i]);
    StoppedAt(w, front, i, log);
  }

  lemma LastTold(log: History)
    requires log.Then? && log.last == OnPartDataEnd
    ensures Flatten(log) != [] && Last(Flatten(log)) == PartEnd
  {
  }

  lemma StoppedAt(w: Access, front: seq<Part>, i: nat, log: History)
    requires i < |front| && log == PartCalls(FrontCalls(front[..i]), front[i]) && Rejected(Answers(w), log)
    requires forall k :: 0 <= k < |front| ==> PartTypeOf(front[k].headers) != FileData
    ensures Collect(w, front).None? && (StateAfter(w, log).overrun <==> Overruns(w, front))
  {
    var before, upto := front[..i], front[..i + 1];
    assert Init(upto) == before && Last(upto) == front[i];
    RejectedNotClean(w, log);
    assert FrontCalls(upto) == Then(log, OnPartDataBegin);
    assert !Clean(Answers(w), FrontCalls(upto));
    AfterFront(w, before);
    AfterFront(w, upto);
    OverrunsPrefix(w, front, i + 1);
    hide FrontCalls;
    CleanBeforePart(w, FrontCalls(before), front[i]);
    AfterPart(w, FrontCalls(before), front[i]);
    hide PartCalls;
    hide PartTypeOf;
    hide Collect;
  }

  lemma CleanBeforePart(w: Access, log: History, p: Part)
    requires Rejected(Answers(w), PartCalls(log, p))
    ensures Clean(Answers(w), log)
  {
    if !Clean(Answers(w), log) {
      HeadersNotClean(w, log, p.headers);
      var l2 := Then(HeaderCalls(log, p.headers), OnHeadersComplete);
      assert !Clean(Answers(w), Then(l2, OnPartData(p.body)));
    }
  }

  lemma RejectedNotClean(w: Access, log: History)
    requires Rejected(Answers(w), log)
    ensures !Clean(Answers(w), log)
  {
  }

  // ----- the whole form -----

  /** The parts before the file data: in one piece, none of them file data. */
  ghost predicate PlainFront(b: seq<byte>, front: seq<Part>) {
    forall i :: 0 <= i < |front| ==>
      PrintablePart(b, front[i]) && CR !in front[i].body && PartTypeOf(front[i].headers) != FileData
  }

  predicate MayWrite(w: Access, form: Form) {
    form.sessionid.Some? && form.filename.Some? && w.write(form.sessionid.value, form.filename.value)
  }

  /** The file is written, for the place and the rights of the form, and the client told of success if there is data. */
  predicate Stored(st: UploadHandlers.State, form: Form, data: seq<byte>) {
    && st.temp == Some(data) && st.response == Some(data != [])
    && st.filename == form.filename && st.filemode == form.filemode
  }

  /** Nothing is written and the client is told of a failure. */
  predicate TurnedAway(st: UploadHandlers.State) {
    st.temp == None && st.response == Some(false)
  }

  lemma HeadFirstFile(b: seq<byte>, front: seq<Part>, hs: seq<Header>)
    requires |b| > 0 && CR !in b && PlainFront(b, front) && (forall i :: 0 <= i < |hs| ==> Printable(hs[i]))
    requires PartTypeOf(hs) == FileData
    ensures var o := Run(b, FRESH, HeadText(b, front, hs));
            && o.ok && o.m.phase.PartDataStart? && o.toks == HeadTokens(front, hs)
            && NoFile(o.toks) && HeadingAfter(o.toks).part == FileData && Walk(false, o.toks) == Some(false)
  {
    HeadIsRead(b, front, hs);
    FrontHeading(front);
    HeadingHeaders(FrontTokens(front), hs);
    RunWalks(b, FRESH, HeadText(b, front, hs));
    hide Run;
    hide HeadText;
    hide NoFile;
    hide Walk;
    hide HeadingAfter;
  }

  lemma LateCalls(w: Access, front: seq<Part>, hs: seq<Header>, log0: History)
    requires Straight(log0) && Flatten(log0) == HeadTokens(front, hs) && Clean(Answers(w), log0)
    requires forall i :: 0 <= i < |front| ==> CR !in front[i].body && PartTypeOf(front[i].headers) != FileData
    ensures Collect(w, front).Some?
    ensures var st := StateAfter(w, log0);
            Collect(w, front).value == Form(st.sessionid, st.filename, st.filemode)
              && (st.overrun <==> Overruns(w, front))
  {
    HeadExact(log0, front, hs);
    AfterFront(w, front);
    if Clean(Answers(w), FrontCalls(front)) {
      AfterHeaders(w, FrontCalls(front), hs);
    } else {
      HeadersNotClean(w, FrontCalls(front), hs);
    }
    hide FrontCalls;
    hide HeaderCalls;
    hide Collect;
    hide Overruns;
    hide Straight;
    hide HeadTokens;
    hide PartTypeOf;
  }

  /**
   * Any form, printed and cut into chunks of which the first holds everything through the blank line
   * of the first part that is file data: the data of that part is stored if the parts before it name
   * a session that may upload, and a path that it may write; otherwise nothing is. Nothing is said
   * about an upload in which an empty file name has made `canonicalize_path` run over its buffer.
   */
  lemma {:induction false} FormWritten(b: seq<byte>, w: Access, front: seq<Part>, file: Part, rest: seq<Part>,
                                       epilogue: seq<byte>, chunks: seq<seq<byte>>, first: History, log: History)
    requires |b| > 0 && CR !in b && PlainFront(b, front) && PrintablePart(b, file)
    requires PartTypeOf(file.headers) == FileData
    requires UploadRuns.Uploaded(b, w, chunks, first, log)
             && Flat(chunks) == Print(b, front + ([file] + rest), epilogue)
    requires chunks != [] && HeadText(b, front, file.headers) <= chunks[0]
    ensures var st := StateAfter(w, log);
            match FateOf(w, front)
            case Overran => st.overrun
            case Refused => !st.overrun && TurnedAway(st)
            case Ready(form) => !st.overrun && if MayWrite(w, form) then Stored(st, form, file.body) else TurnedAway(st)
  {
    var head, s := HeadText(b, front, file.headers), file.body + Delimiter(b) + Behind(b, rest, epilogue);
    var told := HeadTokens(front, file.headers);
    hide *;
    FileParts(b, file);
    HeadFirstFile(b, front, file.headers);
    PrintSplits(b, front, file, rest, epilogue);
    BodyEnds(b, file.body, Behind(b, rest, epilogue));
    WithoutCR(b);
    var log0 := UploadRuns.FileWritten(b, w, chunks, first, log, head, s, |file.body|);
    DeliversHead(b, head, chunks[0]);
    UploadedCalls(b, w, chunks, first, log);
    PlainParts(b, front);
    FateCases(w, front);
    if |Flatten(log)| <= |told| {
      InFirstChunk(b, w, chunks, first, log, log, told);
      IsTurnedDown(w, log0, log);
      StoppedInFront(w, front, file.headers, log);
      Concludes(w, StateAfter(w, log0), StateAfter(w, log), file.body, s);
    } else {
      BeforeThen(log0, OnHeadersComplete, log);
      InFirstChunk(b, w, chunks, first, log, log0, told);
      LateCalls(w, front, file.headers, log0);
      Concludes(w, StateAfter(w, log0), StateAfter(w, log), file.body, s);
    }
  }

  lemma FateCases(w: Access, front: seq<Part>)
    ensures FateOf(w, front) ==
            if Overruns(w, front) then Overran
            else match Collect(w, front) case None => Refused case Some(form) => Ready(form)
  {
    hide Overruns;
    hide Collect;
  }

  lemma FileParts(b: seq<byte>, file: Part)
    requires PrintablePart(b, file)
    ensures (forall i :: 0 <= i < |file.headers| ==> Printable(file.headers[i])) && Absent(Delimiter(b), file.body)
  {
    hide Printable;
    hide Absent;
  }

  lemma BodyEnds(b: seq<byte>, body: seq<byte>, more: seq<byte>)
    requires |b| > 0 && CR !in b && Absent(Delimiter(b), body)
    ensures var s := body + Delimiter(b) + more;
            FirstAt(Delimiter(b), s, |body|) && |body| <= |s| && s[..|body|] == body
  {
    FirstAfterBody(b, body);
    var pat := Delimiter(b);
    var s := body + Delimiter(b);
    var k := |body|;
    assert FirstAt(pat, s + more, k) by {
      forall j: nat | j <= k ensures OccursAt(pat, s + more, j) <==> OccursAt(pat, s, j) {
        assert (s + more)[j..j + |pat|] == s[j..j + |pat|];
      }
    }
    hide FirstAt;
  }

  lemma UploadedCalls(b: seq<byte>, w: Access, chunks: seq<seq<byte>>, first: History, log: History)
    requires |b| > 0 && UploadRuns.Uploaded(b, w, chunks, first, log)
    ensures Ordered(log) && FirstCalls(b, Answers(w), chunks, first, log) && Extends(log, log)
    ensures Clean(Answers(w), log) || Rejected(Answers(w), log)
  {
    hide RunChunks;
    hide FirstCalls;
  }

  lemma PlainParts(b: seq<byte>, front: seq<Part>)
    requires PlainFront(b, front)
    ensures forall i :: 0 <= i < |front| ==> CR !in front[i].body && PartTypeOf(front[i].headers) != FileData
  {
    hide PrintablePart;
    hide PartTypeOf;
  }

  lemma IsTurnedDown(w: Access, log0: History, log: History)
    requires log == Then(log0, OnPartDataEnd) && (Clean(Answers(w), log) || Rejected(Answers(w), log))
    requires var st := StateAfter(w, log0); st.part == SessionId && !w.upload(st.sessionid)
    ensures Rejected(Answers(w), log)
  {
  }

  lemma {:induction false} BeforeThen(log0: History, e: Event, log: History)
    requires Extends(Then(log0, e), log)
    ensures Extends(log0, log)
    decreases log
  {
    if log != Then(log0, e) {
      BeforeThen(log0, e, log.earlier);
    }
  }

  /** The outcome in the terms of the form. */
  lemma Concludes(w: Access, st: UploadHandlers.State, end: UploadHandlers.State, body: seq<byte>, s: seq<byte>)
    requires |body| <= |s| && s[..|body|] == body
    ensures MayWrite(w, Form(st.sessionid, st.filename, st.filemode)) <==> UploadRuns.Permitted(w, st)
    ensures end.temp == Some(s[..|body|]) && end.response == Some(|body| > 0) && UploadRuns.SameFile(st, end) ==>
      Stored(end, Form(st.sessionid, st.filename, st.filemode), body)
    ensures UploadRuns.SameFile(st, end) ==> end.overrun == st.overrun
    ensures end.temp == None && end.response == Some(false) ==> TurnedAway(end)
  {
  }

  // ----- the form of the file browser -----

  /** A part with nothing but a content disposition, `more` being what follows the name in it. */
  function FieldPart(name: seq<byte>, more: seq<byte>, body: seq<byte>): Part {
    Part([Header(CONTENT_DISPOSITION, FORM_DATA + ([SEMICOLON, SPACE] + (NAME_IS + (name + [QUOTE] + more))))], body)
  }

  /** A content disposition as browsers write it. */
  lemma NamedPart(name: seq<byte>, more: seq<byte>)
    requires QUOTE !in name && name != []
    ensures PartOf(FORM_DATA + ([SEMICOLON, SPACE] + (NAME_IS + (name + [QUOTE] + more))), Unknown)
            == PartCalled(name, Unknown)
  {
    var between: seq<byte> := [SEMICOLON, SPACE];
    var text := FORM_DATA + (between + (NAME_IS + (name + [QUOTE] + more)));
    UploadNames.ConstantsSpelt();
    assert UploadNames.IsNaming(text, FORM_DATA, between, NAME_IS, name, more);
    UploadNames.NamingIsRead(text, FORM_DATA, between, NAME_IS, name, more, Unknown);
  }

  lemma FieldPartType(name: seq<byte>, more: seq<byte>, body: seq<byte>)
    requires QUOTE !in name && name != []
    ensures PartTypeOf(FieldPart(name, more, body).headers) == PartCalled(name, Unknown)
  {
    var hs := FieldPart(name, more, body).headers;
    NamedPart(name, more);
    hide PartOf;
    hide PartCalled;
    assert Init(hs) == [] && PartTypeOf([]) == Unknown;
  }

  lemma NamesTold()
    ensures PartCalled(SESSIONID_NAME, Unknown) == SessionId && PartCalled(FILENAME_NAME, Unknown) == FileName
    ensures PartCalled(FILEDATA_NAME, Unknown) == FileData
    ensures QUOTE !in SESSIONID_NAME && QUOTE !in FILENAME_NAME && QUOTE !in FILEDATA_NAME
  {
    assert FILENAME_NAME[4] != FILEDATA_NAME[4] && FILENAME_NAME[4] != FILEMODE_NAME[4];
    assert SESSIONID_NAME[0] != FILEDATA_NAME[0] && SESSIONID_NAME[0] != FILEMODE_NAME[0]
           && SESSIONID_NAME[0] != FILENAME_NAME[0];
  }

  lemma FieldPartPrintable(b: seq<byte>, name: seq<byte>, more: seq<byte>, body: seq<byte>)
    requires CR !in name && CR !in more && Absent(Delimiter(b), body)
    ensures PrintablePart(b, FieldPart(name, more, body))
  {
    hide Absent;
    var text := FORM_DATA + ([SEMICOLON, SPACE] + (NAME_IS + (name + [QUOTE] + more)));
    assert text[0] == 102;
    assert CR !in FORM_DATA && CR !in NAME_IS;
  }

  /** `Content-Type` */
  const CONTENT_TYPE: seq<byte> := [67, 111, 110, 116, 101, 110, 116, 45, 84, 121, 112, 101]

  /** The file, with its media type; `more` holds its local name. */
  function FilePart(more: seq<byte>, mediaType: seq<byte>, data: seq<byte>): Part {
    Part(FieldPart(FILEDATA_NAME, more, data).headers + [Header(CONTENT_TYPE, mediaType)], data)
  }

  lemma FilePartType(more: seq<byte>, mediaType: seq<byte>, data: seq<byte>)
    ensures PartTypeOf(FilePart(more, mediaType, data).headers) == FileData
  {
    NamesTold();
    FieldPartType(FILEDATA_NAME, more, data);
    var front, hs := FieldPart(FILEDATA_NAME, more, data).headers, FilePart(more, mediaType, data).headers;
    assert Init(hs) == front && Last(hs) == Header(CONTENT_TYPE, mediaType);
    assert Lower(CONTENT_TYPE[8]) != Lower(CONTENT_DISPOSITION[8]);
    hide PartCalled;
    hide FieldPart;
    hide PartOf;
  }

  lemma FilePartPrintable(b: seq<byte>, more: seq<byte>, mediaType: seq<byte>, data: seq<byte>)
    requires CR !in more && CR !in mediaType && (mediaType != [] ==> mediaType[0] != SPACE)
             && Absent(Delimiter(b), data)
    ensures PrintablePart(b, FilePart(more, mediaType, data))
  {
    hide Absent;
    assert CR !in FILEDATA_NAME;
    FieldPartPrintable(b, FILEDATA_NAME, more, data);
    var front, p := FieldPart(FILEDATA_NAME, more, data), FilePart(more, mediaType, data);
    assert Printable(Header(CONTENT_TYPE, mediaType));
    hide FieldPart;
    hide Printable;
    forall i | 0 <= i < |p.headers| ensures Printable(p.headers[i]) {
      if i < |front.headers| {
        assert p.headers[i] == front.headers[i];
      }
    }
  }

  /** The session, the path and the data, as the file browser sends them. */
  function StandardFront(sid: seq<byte>, path: seq<byte>): seq<Part> {
    [FieldPart(SESSIONID_NAME, [], sid), FieldPart(FILENAME_NAME, [], path)]
  }

  lemma CollectStandard(w: Access, sid: seq<byte>, path: seq<byte>)
    ensures FateOf(w, StandardFront(sid, path)) ==
            if !w.upload(Some(sid)) then Refused
            else if path == [] then Overran
            else Ready(Form(Some(sid), PathOf(path), None))
  {
    var front := StandardFront(sid, path);
    NamesTold();
    FieldPartType(SESSIONID_NAME, [], sid);
    FieldPartType(FILENAME_NAME, [], path);
    hide PartTypeOf;
    hide PartCalled;
    hide FieldPart;
    assert Init(front) == [front[0]] && Init([front[0]]) == [];
    assert Collect(w, []) == Some(Form(None, None, None));
    assert Collect(w, [front[0]]) == if w.upload(Some(sid)) then Some(Form(Some(sid), None, None)) else None by {
      assert front[0].body == sid by { FieldBody(SESSIONID_NAME, [], sid); }
    }
    FieldBody(FILENAME_NAME, [], path);
    assert !Overruns(w, []);
    assert !Overruns(w, [front[0]]);
    hide PathOf;
  }

  lemma FieldBody(name: seq<byte>, more: seq<byte>, body: seq<byte>)
    ensures FieldPart(name, more, body).body == body
  {
  }

  /**
   * The form with a session id, a path and a file, however it is cut behind the blank line of the
   * file: the file is stored in full if and only if the session may upload and may write the path,
   * canonical, and the client is told so; with no data at all it is told of a failure. An empty
   * path from a session that may upload makes `canonicalize_path` run over its buffer.
   */
  lemma {:induction false} StandardForm(b: seq<byte>, w: Access, sid: seq<byte>, path: seq<byte>, more: seq<byte>,
                                        mediaType: seq<byte>,
                     data: seq<byte>, epilogue: seq<byte>, chunks: seq<seq<byte>>, first: History, log: History)
    requires |b| > 0 && CR !in b && CR !in sid && CR !in path && CR !in more
    requires CR !in mediaType && (mediaType != [] ==> mediaType[0] != SPACE)
    requires Absent(Delimiter(b), data)
    requires UploadRuns.Uploaded(b, w, chunks, first, log)
    requires var front, file := StandardFront(sid, path), FilePart(more, mediaType, data);
             && Flat(chunks) == Print(b, front + ([file] + []), epilogue)
             && chunks != [] && HeadText(b, front, file.headers) <= chunks[0]
    ensures var st := StateAfter(w, log);
            if !w.upload(Some(sid)) then !st.overrun && TurnedAway(st)
            else if path == [] then st.overrun
            else if path[0] != NUL && w.write(sid, CanonicalPath.Canonical(path)) then
              !st.overrun && Stored(st, Form(Some(sid), Some(CanonicalPath.Canonical(path)), None), data)
            else !st.overrun && TurnedAway(st)
  {
    var front, file := StandardFront(sid, path), FilePart(more, mediaType, data);
    assert file.body == data;
    StandardIsPlain(b, sid, path);
    FilePartType(more, mediaType, data);
    FilePartPrintable(b, more, mediaType, data);
    hide *;
    FormWritten(b, w, front, file, [], epilogue, chunks, first, log);
    CollectStandard(w, sid, path);
    if path != [] {
      MayWriteMeans(w, sid, path);
    }
  }

  lemma MayWriteMeans(w: Access, sid: seq<byte>, path: seq<byte>)
    requires path != []
    ensures MayWrite(w, Form(Some(sid), PathOf(path), None)) <==>
              path[0] != NUL && w.write(sid, CanonicalPath.Canonical(path))
    ensures path[0] != NUL ==> PathOf(path) == Some(CanonicalPath.Canonical(path))
  {
    hide CanonicalPath.Canonical;
  }

  lemma NoDelimiter(b: seq<byte>, s: seq<byte>)
    requires CR !in s
    ensures Absent(Delimiter(b), s)
  {
    forall k: nat ensures !OccursAt(Delimiter(b), s, k) {
      if k + |Delimiter(b)| <= |s| {
        assert s[k..k + |Delimiter(b)|][0] == s[k];
      }
    }
  }

  lemma StandardIsPlain(b: seq<byte>, sid: seq<byte>, path: seq<byte>)
    requires CR !in sid && CR !in path
    ensures PlainFront(b, StandardFront(sid, path))
  {
    NoDelimiter(b, sid);
    NoDelimiter(b, path);
    NamesTold();
    FieldPartType(SESSIONID_NAME, [], sid);
    FieldPartType(FILENAME_NAME, [], path);
    FieldPartPrintable(b, SESSIONID_NAME, [], sid);
    FieldPartPrintable(b, FILENAME_NAME, [], path);
    FieldBody(SESSIONID_NAME, [], sid);
    FieldBody(FILENAME_NAME, [], path);
    hide PrintablePart;
    hide PartTypeOf;
    hide PartCalled;
    hide FieldPart;
    hide Absent;
  }
}
