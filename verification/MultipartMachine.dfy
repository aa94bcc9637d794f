/**
 The multipart parser seen one byte at a time. Nothing here knows about
 buffers, marks or the lookbehind area: a step consumes one byte and yields
 the tokens that byte settles. The class in MultipartParser.dfy, which works
 on whole chunks and delivers slices of its buffer, is proved against it.
 */
module MultipartMachine {
  import opened Bytes

  /** The values of `enum state` a parser can hold after its initialisation. */
  datatype Phase =
    | Start
    | StartBoundary
    | HeaderFieldStart
    | HeaderField
    | HeadersAlmostDone
    | HeaderValueStart
    | HeaderValue
    | HeaderValueAlmostDone
    | PartDataStart
    | PartData
    | PartDataAlmostBoundary
    | PartDataBoundary
    | PartDataAlmostEnd
    | PartDataEnd
    | PartDataFinalHyphen
    | End

  /** What a receiver can tell apart: part data byte by byte, and everything else call by call. */
  datatype Token =
    | Data(b: byte)
    | Field(name: seq<byte>)
    | Value(text: seq<byte>)
    | PartBegin
    | HeadersComplete
    | PartEnd
    | BodyEnd

  /** `acc` holds the bytes of the current header name or value seen in this chunk. */
  datatype Machine = Machine(phase: Phase, index: nat, acc: seq<byte>)

  /** `m` is the machine afterwards, `used` the number of bytes taken; `ok` is false on a syntax error. */
  datatype Outcome = Outcome(m: Machine, toks: seq<Token>, used: nat, ok: bool)

  const FRESH: Machine := Machine(Start, 0, [])

  /** The boundary index stays where the C code may read it. */
  predicate WellFormed(b: seq<byte>, m: Machine) {
    && |b| > 0
    && (m.phase.StartBoundary? ==> m.index <= |b| + 1)
    && (m.phase.PartDataBoundary? ==> m.index < |b|)
  }

  function DataTokens(bs: seq<byte>): (ts: seq<Token>)
    ensures |ts| == |bs|
    ensures forall i :: 0 <= i < |bs| ==> ts[i] == Data(bs[i])
  {
    seq(|bs|, i requires 0 <= i < |bs| => Data(bs[i]))
  }

  lemma DataTokensConcat(a: seq<byte>, c: seq<byte>)
    ensures DataTokens(a + c) == DataTokens(a) + DataTokens(c)
  {
  }

  /** CR, LF and the boundary: what ends a part's data. */
  function Delimiter(b: seq<byte>): seq<byte> {
    [CR, LF] + b
  }

  /** The part of a delimiter that has matched so far and is held back. */
  function Held(b: seq<byte>, m: Machine): (h: seq<byte>)
    requires WellFormed(b, m)
  {
    match m.phase
    case PartDataAlmostBoundary => [CR]
    case PartDataBoundary => [CR, LF] + b[..m.index]
    case _ => []
  }

  function Accept(phase: Phase, index: nat, acc: seq<byte>, toks: seq<Token>): Outcome {
    Outcome(Machine(phase, index, acc), toks, 1, true)
  }

  function Refuse(phase: Phase, index: nat, acc: seq<byte>): Outcome {
    Outcome(Machine(phase, index, acc), [], 0, false)
  }

  /** One byte of part data, `before` being what it releases. */
  function StepData(c: byte, index: nat, before: seq<Token>): Outcome {
    if c == CR then Accept(PartDataAlmostBoundary, index, [], before)
    else Accept(PartData, index, [], before + [Data(c)])
  }

  function StepFirstBoundary(b: seq<byte>, index: nat, c: byte): (o: Outcome)
    requires index <= |b| + 1
  {
    if index == |b| then
      if c == CR then Accept(StartBoundary, index + 1, [], []) else Refuse(StartBoundary, index, [])
    else if index == |b| + 1 then
      if c == LF then Accept(HeaderFieldStart, 0, [], [PartBegin]) else Refuse(StartBoundary, index, [])
    else if c == b[index] then
      Accept(StartBoundary, index + 1, [], [])
    else
      Refuse(StartBoundary, index, [])
  }

  function StepName(index: nat, acc: seq<byte>, c: byte): Outcome {
    if c == CR then Accept(HeadersAlmostDone, index, [], [])
    else if c == HYPHEN then Accept(HeaderField, index, acc + [c], [])
    else if c == COLON then Accept(HeaderValueStart, index, [], [Field(acc)])
    else if IsLetter(c) then Accept(HeaderField, index, acc + [c], [])
    else Refuse(HeaderField, index, acc)
  }

  function StepText(index: nat, acc: seq<byte>, c: byte): Outcome {
    if c == CR then Accept(HeaderValueAlmostDone, index, acc + [c], [Value(acc)])
    else Accept(HeaderValue, index, acc + [c], [])
  }

  function StepAlmostBoundary(index: nat, c: byte): Outcome {
    if c == LF then Accept(PartDataBoundary, 0, [], []) else StepData(c, index, DataTokens([CR]))
  }

  function StepBoundary(b: seq<byte>, index: nat, c: byte): Outcome
    requires index < |b|
  {
    if c != b[index] then StepData(c, index, DataTokens([CR, LF] + b[..index]))
    else if index + 1 == |b| then Accept(PartDataAlmostEnd, index + 1, [], [PartEnd])
    else Accept(PartDataBoundary, index + 1, [], [])
  }

  function StepClosing(phase: Phase, index: nat, c: byte): Outcome {
    match phase
    case HeadersAlmostDone =>
      if c == LF then Accept(PartDataStart, index, [], []) else Refuse(phase, index, [])
    case HeaderValueAlmostDone =>
      if c == LF then Accept(HeaderFieldStart, index, [], []) else Refuse(phase, index, [])
    case PartDataAlmostEnd =>
      if c == HYPHEN then Accept(PartDataFinalHyphen, index, [], [])
      else if c == CR then Accept(PartDataEnd, index, [], [])
      else Refuse(phase, index, [])
    case PartDataFinalHyphen =>
      if c == HYPHEN then Accept(End, index, [], [BodyEnd]) else Refuse(phase, index, [])
    case PartDataEnd =>
      if c == LF then Accept(HeaderFieldStart, index, [], [PartBegin]) else Refuse(phase, index, [])
    case _ =>
      Accept(phase, index, [], [])
  }

  function Step(b: seq<byte>, m: Machine, c: byte): (o: Outcome)
    requires WellFormed(b, m)
    ensures WellFormed(b, o.m)
    ensures o.ok <==> o.used == 1
  {
    match m.phase
    case Start => StepFirstBoundary(b, 0, c)
    case StartBoundary => StepFirstBoundary(b, m.index, c)
    case HeaderFieldStart => StepName(m.index, [], c)
    case HeaderField => StepName(m.index, m.acc, c)
    case HeaderValueStart =>
      if c == SPACE then Accept(HeaderValueStart, m.index, [], []) else StepText(m.index, [], c)
    case HeaderValue => StepText(m.index, m.acc, c)
    case PartDataStart => StepData(c, m.index, [HeadersComplete])
    case PartData => StepData(c, m.index, [])
    case PartDataAlmostBoundary => StepAlmostBoundary(m.index, c)
    case PartDataBoundary => StepBoundary(b, m.index, c)
    case _ => StepClosing(m.phase, m.index, c)
  }

  /** `rest` happens after `n` bytes that yielded `toks`. */
  function After(n: nat, toks: seq<Token>, rest: Outcome): Outcome {
    Outcome(rest.m, toks + rest.toks, n + rest.used, rest.ok)
  }

  /** Runs the machine over `s`, stopping at the first byte it refuses. */
  function Run(b: seq<byte>, m: Machine, s: seq<byte>): (o: Outcome)
    requires WellFormed(b, m)
    ensures WellFormed(b, o.m)
    ensures o.used <= |s|
    ensures o.ok <==> o.used == |s|
    decreases |s|
  {
    if s == [] then Outcome(m, [], 0, true)
    else
      var o := Step(b, m, s[0]);
      if o.ok then After(1, o.toks, Run(b, o.m, s[1..])) else o
  }

  lemma RunOne(b: seq<byte>, m: Machine, c: byte)
    requires WellFormed(b, m)
    ensures Run(b, m, [c]) == Step(b, m, c)
  {
    var o := Step(b, m, c);
    if o.ok {
      assert o.toks + [] == o.toks;
    }
  }

  /** Running a concatenation is running its pieces in turn. */
  lemma {:induction false} RunConcat(b: seq<byte>, m: Machine, s: seq<byte>, t: seq<byte>)
    requires WellFormed(b, m)
    ensures Run(b, m, s + t) ==
            var o := Run(b, m, s);
            if o.ok then After(|s|, o.toks, Run(b, o.m, t)) else o
    decreases |s|
  {
    if s == [] {
      assert s + t == t;
      var r := Run(b, m, t);
      assert [] + r.toks == r.toks;
    } else {
      assert (s + t)[0] == s[0] && (s + t)[1..] == s[1..] + t;
      var o := Step(b, m, s[0]);
      if o.ok {
        RunConcat(b, o.m, s[1..], t);
        var p := Run(b, o.m, s[1..]);
        if p.ok {
          var q := Run(b, p.m, t);
          assert o.toks + (p.toks + q.toks) == (o.toks + p.toks) + q.toks;
        }
      }
    }
  }
}
