/**
 `multipart_parser_execute` as a class over chunks. The callbacks of
 `multipart_parser_settings` are one function `accepts` of the calls made so
 far and the next one: that covers every callback whose answers depend on what
 it has been called with. An unset callback is one that always accepts.
 */
module MultipartParser {
  import opened Bytes
  import opened Common
  import opened MultipartMachine

  /** One callback invocation and the bytes it is handed. */
  datatype Event =
    | OnHeaderField(at: seq<byte>)
    | OnHeaderValue(at: seq<byte>)
    | OnPartData(at: seq<byte>)
    | OnPartDataBegin
    | OnHeadersComplete
    | OnPartDataEnd
    | OnBodyEnd

  function TokensOf(e: Event): seq<Token> {
    match e
    case OnHeaderField(at) => [Field(at)]
    case OnHeaderValue(at) => [Value(at)]
    case OnPartData(at) => DataTokens(at)
    case OnPartDataBegin => [PartBegin]
    case OnHeadersComplete => [HeadersComplete]
    case OnPartDataEnd => [PartEnd]
    case OnBodyEnd => [BodyEnd]
  }

  /** The calls made so far, oldest innermost. */
  datatype History = NoCalls | Then(earlier: History, last: Event)

  /** What a receiver of these calls has learnt, however the data was sliced. */
  function Flatten(log: History): seq<Token> {
    match log
    case NoCalls => []
    case Then(earlier, e) => Flatten(earlier) + TokensOf(e)
  }

  /**
   What a chunk that ends inside a header line delivers on top of the byte
   machine: the fragment seen so far, except after a hyphen in a name; and,
   after the CR that ends a value, that value a second time with its CR.
   */
  function Tail(m: Machine): seq<Token> {
    match m.phase
    case HeaderField => if m.acc != [] && m.acc[|m.acc| - 1] == HYPHEN then [] else [Field(m.acc)]
    case HeaderValue => [Value(m.acc)]
    case HeaderValueAlmostDone => [Value(m.acc)]
    case _ => []
  }

  /** Everything one accepted call of `Execute` delivers, starting in `m`. */
  function Delivered(b: seq<byte>, m: Machine, buf: seq<byte>): seq<Token>
    requires WellFormed(b, m)
  {
    var o := Run(b, m, buf);
    o.toks + if o.ok && buf != [] then Tail(o.m) else []
  }

  type Callbacks = (History, Event) -> bool

  /** Every call in the log was accepted. */
  predicate Clean(accepts: Callbacks, log: History) {
    match log
    case NoCalls => true
    case Then(earlier, e) => Clean(accepts, earlier) && accepts(earlier, e)
  }

  /** Every call in the log was accepted but the last, which was turned down. */
  predicate Rejected(accepts: Callbacks, log: History) {
    log.Then? && Clean(accepts, log.earlier) && !accepts(log.earlier, log.last)
  }

  // ----- how the data is sliced -----

  /** Data comes after the end of the headers or after other data, and the end of a part after data. */
  predicate Follows(log: History, e: Event) {
    match e
    case OnPartData(_) => log.Then? && (log.last.OnHeadersComplete? || log.last.OnPartData?)
    case OnPartDataEnd => log.Then? && log.last.OnPartData?
    case _ => true
  }

  predicate Ordered(log: History) {
    log.Then? ==> Ordered(log.earlier) && Follows(log.earlier, log.last)
  }

  /** The log continues `origin`; of two pieces of data in a row that were handed over since, one holds a CR. */
  predicate Lumped(origin: History, log: History) {
    || log == origin
    || (log.Then? && Lumped(origin, log.earlier)
        && (log.last.OnPartData? && log.earlier != origin && log.earlier.last.OnPartData? ==>
              CR in log.last.at || CR in log.earlier.last.at))
  }

  /** The last call before part data is passed over, or a delimiter matched. */
  predicate InStep(log: History, phase: Phase) {
    && (phase in {PartData, PartDataAlmostBoundary, PartDataBoundary} ==>
          log.Then? && (log.last.OnHeadersComplete? || log.last.OnPartData?))
    && (phase in {PartDataAlmostBoundary, PartDataBoundary} ==> log.last.OnPartData?)
  }

  /** A run of data starts after the headers or after a held-back CR. */
  predicate RunStarts(origin: History, log: History, phase: Phase) {
    phase.PartData? && log != origin && log.Then? && log.last.OnPartData? ==> CR in log.last.at
  }

  /** How one pass through the switch ends: `return i`, `i--` before the loop's `++i`, or neither. */
  datatype Verdict = Return | Again | Next

  /** Part data the loop has passed but not yet delivered. */
  function Pending(phase: Phase, mark: nat, buf: seq<byte>, i: nat): seq<Token>
    requires mark <= i <= |buf|
  {
    if phase.PartData? && i < |buf| then DataTokens(buf[mark..i]) else []
  }

  /** The byte machine the loop's variables stand for, `i` bytes into `buf`. */
  function MachineAt(phase: Phase, index: nat, mark: nat, buf: seq<byte>, i: nat): Machine
    requires mark <= i <= |buf|
  {
    Machine(phase, index, if phase.HeaderField? || phase.HeaderValue? then buf[mark..i] else [])
  }

  /** What step `o` owes the receiver, the end of the chunk included. */
  function Owed(o: Outcome, last: bool): seq<Token> {
    o.toks + if o.ok && last then Tail(o.m) else []
  }

  /**
   One pass through the switch against step `o` of the byte machine: `sent` was
   delivered, `before` and `after` are the pending runs.
   */
  predicate Passed(o: Outcome, verdict: Verdict, clean: bool, phase: Phase, index: nat,
                   before: seq<Token>, sent: seq<Token>, after: seq<Token>, last: bool)
  {
    if !clean then
      verdict.Return? && sent <= before + Owed(o, last)
    else if verdict.Return? then
      !o.ok && phase == o.m.phase && index == o.m.index && sent == before == []
    else
      verdict.Next? && o.ok && phase == o.m.phase && index == o.m.index && sent + after == before + Owed(o, last)
  }

  /** As `Passed`, for the phases that may release what they `held` and look at `c` again. */
  predicate Fell(o: Outcome, c: byte, held: seq<Token>, was: nat, verdict: Verdict, clean: bool, phase: Phase,
                 index: nat, sent: seq<Token>)
  {
    if verdict.Again? then
      clean && phase.PartData? && index == was && sent == held && o == StepData(c, index, held)
    else
      Passed(o, verdict, clean, phase, index, [], sent, [], false) && (clean ==> !phase.PartData?)
  }

  /** Announcing the headers first changes nothing about what the first byte of data owes. */
  lemma {:induction false} FallsThrough(c: byte, index: nat, verdict: Verdict, clean: bool, phase: Phase,
                     sent: seq<Token>, after: seq<Token>, last: bool)
    requires Passed(StepData(c, index, []), verdict, clean, phase, index, [], sent, after, last)
    ensures Passed(StepData(c, index, [HeadersComplete]), verdict, clean, phase, index,
                   [], [HeadersComplete] + sent, after, last)
  {
    var o, p := StepData(c, index, []), StepData(c, index, [HeadersComplete]);
    assert o.ok && p == Outcome(o.m, [HeadersComplete] + o.toks, 1, true);
    hide StepData;
    hide Tail;
    Associates([HeadersComplete], o.toks, if last then Tail(o.m) else []);
    InFront([HeadersComplete], sent, after, Owed(o, last));
  }

  lemma InFront(h: seq<Token>, sent: seq<Token>, after: seq<Token>, owed: seq<Token>)
    ensures sent <= [] + owed ==> h + sent <= [] + (h + owed)
    ensures sent + after == [] + owed ==> h + sent + after == [] + (h + owed)
  {
    Associates(h, sent, after);
    Associates([], h, owed);
  }

  lemma HeadersRefused(c: byte, index: nat, phase: Phase, after: seq<Token>, last: bool)
    ensures Passed(StepData(c, index, [HeadersComplete]), Return, false, phase, index, [], [HeadersComplete], after,
                   last)
  {
  }

  /** What the end of a chunk adds can only add. */
  lemma OwedAtEnd(o: Outcome, sent: seq<Token>, last: bool)
    ensures Owed(o, false) <= Owed(o, last)
    ensures Owed(o, false) == o.toks
    ensures !o.m.phase.HeaderField? && !o.m.phase.HeaderValue? && !o.m.phase.HeaderValueAlmostDone? ==>
              Owed(o, last) == o.toks
  {
  }

  /** What one pass through the whole switch achieves, starting as machine `m` with `before` pending. */
  ghost predicate Switched(b: seq<byte>, m: Machine, buf: seq<byte>, i: nat, verdict: Verdict, clean: bool,
                           phase: Phase, index: nat, mark: nat, before: seq<Token>, sent: seq<Token>)
    requires WellFormed(b, m) && mark <= i < |buf|
  {
    var o := Step(b, m, buf[i]);
    if verdict.Again? then
      && clean && phase.PartData? && index == m.index && mark == i && before == []
      && (m.phase.PartDataAlmostBoundary? || m.phase.PartDataBoundary?)
      && sent == DataTokens(Held(b, m)) && o == StepData(buf[i], m.index, sent)
    else
      && Passed(o, verdict, clean, phase, index, before, sent, Pending(phase, mark, buf, i + 1), i == |buf| - 1)
      && (clean && verdict.Next? && (phase.HeaderField? || phase.HeaderValue?) ==> o.m.acc == buf[mark..i + 1])
  }

  lemma RunNext(b: seq<byte>, m: Machine, buf: seq<byte>, i: nat)
    requires WellFormed(b, m) && i < |buf|
    ensures var o := Step(b, m, buf[i]);
            Run(b, m, buf[i..]) == if o.ok then After(1, o.toks, Run(b, o.m, buf[i + 1..])) else o
  {
    assert buf[i..][0] == buf[i] && buf[i..][1..] == buf[i + 1..];
  }

  /** Consuming byte `i` of a run. */
  lemma {:induction false} Advance(b: seq<byte>, full: Outcome, m: Machine, buf: seq<byte>, i: nat, toks: seq<Token>)
    requires WellFormed(b, m) && i < |buf|
    requires full == After(i, toks, Run(b, m, buf[i..]))
    ensures var o := Step(b, m, buf[i]);
            full == if o.ok then After(i + 1, toks + o.toks, Run(b, o.m, buf[i + 1..])) else After(i, toks, o)
  {
    hide Run;
    hide Step;
    RunNext(b, m, buf, i);
    var o := Step(b, m, buf[i]);
    if o.ok {
      var rest := Run(b, o.m, buf[i + 1..]);
      assert After(i, toks, After(1, o.toks, rest)) == After(i + 1, toks + o.toks, rest) by {
        assert toks + (o.toks + rest.toks) == toks + o.toks + rest.toks;
      }
    }
  }

  lemma AfterHeld(i: nat, toks: seq<Token>, held: seq<Token>, more: seq<Token>, rest: Outcome)
    ensures After(i, toks, After(1, held + more, rest)) == After(i, toks + held, After(1, more, rest))
  {
    assert toks + (held + more + rest.toks) == toks + held + (more + rest.toks);
  }

  /** Releasing what was held and looking at byte `i` again as part data. */
  lemma {:induction false} Reconsider(b: seq<byte>, full: Outcome, m: Machine, buf: seq<byte>, i: nat, toks: seq<Token>)
    requires WellFormed(b, m) && i < |buf|
    requires full == After(i, toks, Run(b, m, buf[i..]))
    requires Step(b, m, buf[i]) == StepData(buf[i], m.index, DataTokens(Held(b, m)))
    ensures full == After(i, toks + DataTokens(Held(b, m)), Run(b, Machine(PartData, m.index, []), buf[i..]))
  {
    var held, again := DataTokens(Held(b, m)), Machine(PartData, m.index, []);
    RunNext(b, m, buf, i);
    RunNext(b, again, buf, i);
    assert var o := Step(b, Machine(PartData, m.index, []), buf[i]);
           o.ok && StepData(buf[i], m.index, held) == Outcome(o.m, held + o.toks, 1, true);
    hide Run;
    hide Step;
    var o := Step(b, again, buf[i]);
    AfterHeld(i, toks, held, o.toks, Run(b, o.m, buf[i + 1..]));
  }

  lemma AccIgnored(b: seq<byte>, m: Machine, acc: seq<byte>, c: byte)
    requires WellFormed(b, m) && !m.phase.HeaderField? && !m.phase.HeaderValue?
    ensures Step(b, m, c) == Step(b, m.(acc := acc), c)
  {
  }

  /** What the next step owes is part of what the whole call delivers. */
  lemma {:induction false} OwedIsDelivered(b: seq<byte>, m0: Machine, m: Machine, buf: seq<byte>, i: nat,
                                           toks: seq<Token>)
    requires WellFormed(b, m0) && WellFormed(b, m) && i < |buf|
    requires Run(b, m0, buf) == After(i, toks, Run(b, m, buf[i..]))
    ensures toks + Owed(Step(b, m, buf[i]), i == |buf| - 1) <= Delivered(b, m0, buf)
  {
    hide Step;
    var full := Run(b, m0, buf);
    Advance(b, full, m, buf, i, toks);
    var o := Step(b, m, buf[i]);
    if o.ok {
      var rest := Run(b, o.m, buf[i + 1..]);
      if i == |buf| - 1 {
        assert buf[i + 1..] == [] && full.toks == toks + o.toks;
        assert toks + (o.toks + Tail(o.m)) == toks + o.toks + Tail(o.m);
      }
    }
  }

  /** A refused byte ends the call there; what the machine owes until then is all that is delivered. */
  lemma {:induction false} RefusedHere(b: seq<byte>, m0: Machine, m: Machine, buf: seq<byte>, i: nat, toks: seq<Token>)
    requires WellFormed(b, m0) && WellFormed(b, m) && i < |buf|
    requires Run(b, m0, buf) == After(i, toks, Run(b, m, buf[i..]))
    requires !Step(b, m, buf[i]).ok
    ensures Delivered(b, m0, buf) == toks
    ensures Run(b, m0, buf) == Outcome(Step(b, m, buf[i]).m, toks, i, false)
  {
    RunNext(b, m, buf, i);
  }

  /** Delivering `sent` moves what was owed from the pending run to the log. */
  lemma {:induction false} Settle(told: seq<Token>, sent: seq<Token>, before: seq<Token>, after: seq<Token>,
               base: seq<Token>, toks: seq<Token>, owed: seq<Token>)
    requires told + before == base + toks
    ensures sent + after == before + owed ==> told + sent + after == base + (toks + owed)
    ensures sent <= before + owed ==> told + sent <= base + (toks + owed)
  {
    assert told + (before + owed) == base + (toks + owed) by {
      assert told + (before + owed) == told + before + owed;
    }
    assert told + sent + after == told + (sent + after);
  }

  /** The loop invariant: `m` and `toks` are where the byte machine is after `i` bytes, `told` is what was delivered. */
  ghost predicate Tracking(b: seq<byte>, m0: Machine, m: Machine, buf: seq<byte>, i: nat, mark: nat,
                           phase: Phase, index: nat, toks: seq<Token>, base: seq<Token>, told: seq<Token>)
    requires WellFormed(b, m0) && mark <= i <= |buf|
  {
    && m.phase == phase && m.index == index && WellFormed(b, m)
    && (phase.HeaderField? || phase.HeaderValue? ==> m.acc == buf[mark..i])
    && Run(b, m0, buf) == After(i, toks, Run(b, m, buf[i..]))
    && told + Pending(phase, mark, buf, i) == base + if i == |buf| && buf != [] then toks + Tail(m) else toks
  }

  lemma TrackingStarts(b: seq<byte>, m0: Machine, buf: seq<byte>, base: seq<Token>)
    requires WellFormed(b, m0) && m0.acc == []
    ensures Tracking(b, m0, m0, buf, 0, 0, m0.phase, m0.index, [], base, base)
  {
    hide Run;
    assert buf[0..] == buf;
    assert [] + Run(b, m0, buf).toks == Run(b, m0, buf).toks;
  }

  lemma {:induction false} TrackingEnds(b: seq<byte>, m0: Machine, m: Machine, buf: seq<byte>, mark: nat,
                     phase: Phase, index: nat, toks: seq<Token>, base: seq<Token>, told: seq<Token>)
    requires WellFormed(b, m0) && mark <= |buf|
    requires Tracking(b, m0, m, buf, |buf|, mark, phase, index, toks, base, told)
    ensures told == base + Delivered(b, m0, buf)
    ensures Run(b, m0, buf) == Outcome(m, toks, |buf|, true) && m.phase == phase && m.index == index
  {
    assert (Delivered(b, m0, buf) == if buf != [] then toks + Tail(m) else toks)
           && Run(b, m0, buf) == Outcome(m, toks, |buf|, true);
    hide Run;
    assert told + [] == told;
  }

  /** One pass through the switch keeps the loop invariant, or ends the call as it should. */
  lemma {:induction false} Follow(b: seq<byte>, m0: Machine, m: Machine, buf: seq<byte>, i: nat, mark: nat, v: Machine,
               toks: seq<Token>, base: seq<Token>, told: seq<Token>,
               verdict: Verdict, clean: bool, phase: Phase, index: nat, mark': nat, sent: seq<Token>)
    returns (m': Machine, toks': seq<Token>)
    requires WellFormed(b, m0) && WellFormed(b, v) && v.acc == [] && mark <= i < |buf| && mark' <= i
    requires Tracking(b, m0, m, buf, i, mark, v.phase, v.index, toks, base, told)
    requires Switched(b, MachineAt(v.phase, v.index, mark, buf, i), buf, i, verdict, clean, phase, index, mark',
                      Pending(v.phase, mark, buf, i), sent)
    requires clean ==> WellFormed(b, Machine(phase, index, []))
    ensures !clean ==> verdict.Return? && told + sent <= base + Delivered(b, m0, buf)
    ensures clean && verdict.Return? ==>
              && told + sent == base + Delivered(b, m0, buf)
              && Run(b, m0, buf) == Outcome(m', toks', i, false) && m'.phase == phase && m'.index == index
    ensures clean && verdict.Next? ==>
              Tracking(b, m0, m', buf, i + 1, mark', phase, index, toks', base, told + sent)
    ensures verdict.Again? ==>
              && clean && Tracking(b, m0, m', buf, i, mark', phase, index, toks', base, told + sent)
              && (v.phase.PartDataAlmostBoundary? || v.phase.PartDataBoundary?) && phase.PartData?
  {
    hide Run;
    hide Step;
    hide Delivered;
    hide Tail;
    var at := MachineAt(v.phase, v.index, mark, buf, i);
    if !v.phase.HeaderField? && !v.phase.HeaderValue? {
      AccIgnored(b, m, at.acc, buf[i]);
    }
    var o, before := Step(b, m, buf[i]), Pending(v.phase, mark, buf, i);
    var owed := Owed(o, i == |buf| - 1);
    Advance(b, Run(b, m0, buf), m, buf, i, toks);
    OwedIsDelivered(b, m0, m, buf, i, toks);
    match verdict {
      case Return =>
        Settle(told, sent, before, [], base, toks, owed);
        m', toks' := o.m, toks;
        if clean {
          RefusedHere(b, m0, m, buf, i, toks);
        }
      case Next =>
        Settle(told, sent, before, Pending(phase, mark', buf, i + 1), base, toks, owed);
        m', toks' := o.m, toks + o.toks;
        assert i + 1 == |buf| ==> toks + owed == toks' + Tail(m');
      case Again =>
        Settle(told, sent, before, [], base, toks, sent);
        Reconsider(b, Run(b, m0, buf), m, buf, i, toks);
        m', toks' := Machine(PartData, index, []), toks + sent;
        assert buf[i..i] == [];
    }
  }

  lemma {:induction false} FellSwitches(b: seq<byte>, m: Machine, buf: seq<byte>, i: nat, verdict: Verdict, clean: bool,
                     phase: Phase, index: nat, mark: nat, sent: seq<Token>)
    requires WellFormed(b, m) && mark <= i < |buf|
    requires m.phase.PartDataAlmostBoundary? || m.phase.PartDataBoundary?
    requires Fell(Step(b, m, buf[i]), buf[i], DataTokens(Held(b, m)), m.index, verdict, clean, phase, index, sent)
    requires verdict.Again? ==> mark == i
    ensures Switched(b, m, buf, i, verdict, clean, phase, index, mark, [], sent)
  {
    var o := Step(b, m, buf[i]);
    assert o.m.phase !in {HeaderField, HeaderValue, HeaderValueAlmostDone};
    hide Step;
    hide Tail;
    OwedAtEnd(o, sent, i == |buf| - 1);
  }

  /**
   A call with `buf` that took `r` bytes, starting as `m` with `told` delivered:
   unless a callback failed it did what the byte machine does, and if one did,
   that was the last call made and nothing was delivered out of turn.
   */
  ghost predicate Performed(b: seq<byte>, accepts: Callbacks, m: Machine, buf: seq<byte>, told: seq<Token>,
                            log: History, phase: Phase, index: nat, r: nat)
    requires WellFormed(b, m)
  {
    var full := Run(b, m, buf);
    if !Clean(accepts, log) then
      Rejected(accepts, log) && r < |buf| && Flatten(log) <= told + Delivered(b, m, buf)
    else
      && Flatten(log) == told + Delivered(b, m, buf) && r == full.used
      && phase == full.m.phase && index == full.m.index
  }

  class Parser {
    const boundary: seq<byte>
    const accepts: Callbacks
    const lookbehind: array<byte>
    var phase: Phase
    var index: nat
    var log: History
    /** The calls made before the current call of `Execute`. */
    ghost var origin: History

    ghost predicate Valid()
      reads this, lookbehind
    {
      && lookbehind.Length == |boundary| + 9
      && WellFormed(boundary, Machine(phase, index, []))
      && var h := Held(boundary, Machine(phase, index, [])); lookbehind[..|h|] == h
    }

    ghost predicate Sliced()
      reads this
    {
      Ordered(log) && Lumped(origin, log)
    }

    ghost predicate Paced()
      reads this
    {
      Sliced() && InStep(log, phase) && RunStarts(origin, log, phase)
    }

    constructor (boundary: seq<byte>, accepts: Callbacks)
      requires |boundary| > 0
      ensures Valid() && fresh(lookbehind)
      ensures this.boundary == boundary && this.accepts == accepts
      ensures Machine(phase, index, []) == FRESH && log == NoCalls && Clean(accepts, log)
    {
      this.boundary := boundary;
      this.accepts := accepts;
      lookbehind := new byte[|boundary| + 9];
      index := 0;
      phase := Start;
      log := NoCalls;
      origin := NoCalls;
    }

    /** Since `before`, exactly `sent` has been delivered, and only the last call can have been turned down. */
    ghost predicate Sent(before: History, sent: seq<Token>)
      reads this
    {
      && Flatten(log) == Flatten(before) + sent
      && (Clean(accepts, log) || Rejected(accepts, log))
    }

    /** NOTIFY_CB and EMIT_DATA_CB: `ok` is false when the caller has to return. */
    method Emit(e: Event) returns (ok: bool)
      modifies this`log
      ensures log == Then(old(log), e)
      ensures ok == accepts(old(log), e)
    {
      ok := accepts(log, e);
      log := Then(log, e);
    }

    /** s_start and s_start_boundary. */
    method FirstBoundary(c: byte) returns (verdict: Verdict, ghost sent: seq<Token>)
      requires Valid() && Clean(accepts, log)
      requires Sliced()
      requires phase.Start? || phase.StartBoundary?
      modifies this`phase, this`index, this`log
      ensures Sent(old(log), sent)
      ensures Passed(StepFirstBoundary(boundary, if old(phase).Start? then 0 else old(index), c), verdict,
                     Clean(accepts, log), phase, index, [], sent, [], false)
      ensures Clean(accepts, log) ==> Valid() && !phase.HeaderField? && !phase.HeaderValue?
      ensures Sliced() && phase !in {PartData, PartDataAlmostBoundary, PartDataBoundary}
    {
      sent := [];
      if phase.Start? {
        index := 0;
        phase := StartBoundary;
      }
      if index == |boundary| {
        if c != CR { return Return, sent; }
        index := index + 1;
      } else if index == |boundary| + 1 {
        if c != LF { return Return, sent; }
        index := 0;
        var ok := Emit(OnPartDataBegin);
        sent := [PartBegin];
        if !ok { return Return, sent; }
        phase := HeaderFieldStart;
      } else {
        if c != boundary[index] { return Return, sent; }
        index := index + 1;
      }
      return Next, sent;
    }

    /** s_header_field. */
    method HeaderName(c: byte, i: nat, mark: nat, buf: seq<byte>) returns (verdict: Verdict, ghost sent: seq<Token>)
      requires Valid() && Clean(accepts, log) && mark <= i < |buf| && c == buf[i]
      requires Sliced()
      requires phase.HeaderField?
      modifies this`phase, this`log
      ensures Sent(old(log), sent)
      ensures Passed(StepName(index, buf[mark..i], c), verdict, Clean(accepts, log), phase, index, [], sent, [],
                     i == |buf| - 1)
      ensures Clean(accepts, log) ==> phase.HeaderField? || phase.HeadersAlmostDone? || phase.HeaderValueStart?
      ensures Sliced() && phase !in {PartData, PartDataAlmostBoundary, PartDataBoundary}
    {
      if c == CR {
        phase := HeadersAlmostDone;
        return Next, [];
      }
      assert buf[mark..i + 1] == buf[mark..i] + [c];
      if c == HYPHEN {
        return Next, [];
      }
      if c == COLON {
        var ok := Emit(OnHeaderField(buf[mark..i]));
        sent := [Field(buf[mark..i])];
        if !ok { return Return, sent; }
        phase := HeaderValueStart;
        return Next, sent;
      }
      if !IsLetter(c) { return Return, []; }
      if i == |buf| - 1 {
        var ok := Emit(OnHeaderField(buf[mark..i + 1]));
        verdict := if ok then Next else Return;
        return verdict, [Field(buf[mark..i + 1])];
      }
      return Next, [];
    }

    /** s_header_value. */
    method HeaderText(c: byte, i: nat, mark: nat, buf: seq<byte>) returns (verdict: Verdict, ghost sent: seq<Token>)
      requires Valid() && Clean(accepts, log) && mark <= i < |buf| && c == buf[i]
      requires Sliced()
      requires phase.HeaderValue?
      modifies this`phase, this`log
      ensures Sent(old(log), sent)
      ensures Passed(StepText(index, buf[mark..i], c), verdict, Clean(accepts, log), phase, index, [], sent, [],
                     i == |buf| - 1)
      ensures Clean(accepts, log) ==> phase.HeaderValue? || phase.HeaderValueAlmostDone?
      ensures Sliced() && phase !in {PartData, PartDataAlmostBoundary, PartDataBoundary}
    {
      sent := [];
      if c == CR {
        var ok := Emit(OnHeaderValue(buf[mark..i]));
        sent := [Value(buf[mark..i])];
        if !ok { return Return, sent; }
        assert Clean(accepts, log);
        phase := HeaderValueAlmostDone;
      }
      assert buf[mark..i + 1] == buf[mark..i] + [c];
      if i == |buf| - 1 {
        var ok := Emit(OnHeaderValue(buf[mark..i + 1]));
        verdict := if ok then Next else Return;
        return verdict, sent + [Value(buf[mark..i + 1])];
      }
      return Next, sent;
    }

    /** s_part_data. */
    method Content(c: byte, i: nat, mark0: nat, buf: seq<byte>)
      returns (verdict: Verdict, mark: nat, ghost sent: seq<Token>)
      requires Valid() && Clean(accepts, log) && mark0 <= i < |buf| && c == buf[i]
      requires Paced()
      requires phase.PartData?
      modifies this`phase, this`log, lookbehind
      ensures Sent(old(log), sent) && mark <= i && !verdict.Again?
      ensures Passed(StepData(c, index, []), verdict, Clean(accepts, log), phase, index,
                     DataTokens(buf[mark0..i]), sent, Pending(phase, mark, buf, i + 1), i == |buf| - 1)
      ensures Clean(accepts, log) ==> Valid() && (phase.PartData? || phase.PartDataAlmostBoundary?)
      ensures Sliced() && (Clean(accepts, log) ==> InStep(log, phase) && (i < |buf| - 1 ==> Paced()))
    {
      mark, sent := mark0, [];
      if c == CR {
        var ok := Emit(OnPartData(buf[mark..i]));
        sent := DataTokens(buf[mark..i]);
        if !ok { return Return, mark, sent; }
        mark := i;
        phase := PartDataAlmostBoundary;
        lookbehind[0] := CR;
      } else {
        assert buf[mark..i + 1] == buf[mark..i] + [c];
        if i == |buf| - 1 {
          var ok := Emit(OnPartData(buf[mark..i + 1]));
          sent := DataTokens(buf[mark..i + 1]);
          if !ok { return Return, mark, sent; }
        }
      }
      return Next, mark, sent;
    }

    /** s_part_data_start, which falls through to s_part_data. */
    method ContentStart(c: byte, i: nat, mark0: nat, buf: seq<byte>)
      returns (verdict: Verdict, mark: nat, ghost sent: seq<Token>)
      requires Valid() && Clean(accepts, log) && mark0 <= i < |buf| && c == buf[i]
      requires Sliced()
      requires phase.PartDataStart?
      modifies this`phase, this`log, lookbehind
      ensures Sent(old(log), sent) && mark <= i && !verdict.Again?
      ensures Passed(StepData(c, index, [HeadersComplete]), verdict, Clean(accepts, log), phase, index,
                     [], sent, Pending(phase, mark, buf, i + 1), i == |buf| - 1)
      ensures Clean(accepts, log) ==> Valid() && (phase.PartData? || phase.PartDataAlmostBoundary?)
      ensures Sliced() && (Clean(accepts, log) ==> InStep(log, phase) && (i < |buf| - 1 ==> Paced()))
    {
      hide Passed;
      hide StepData;
      var ok := Emit(OnHeadersComplete);
      if !ok {
        HeadersRefused(c, index, phase, Pending(phase, mark0, buf, i + 1), i == |buf| - 1);
        return Return, mark0, [HeadersComplete];
      }
      phase := PartData;
      assert Clean(accepts, log);
      ghost var told, rest := Flatten(log), [];
      assert told == Flatten(old(log)) + [HeadersComplete];
      hide Clean;
      hide Flatten;
      assert buf[i..i] == [];
      verdict, mark, rest := Content(c, i, i, buf);
      sent := [HeadersComplete] + rest;
      Associates(Flatten(old(log)), [HeadersComplete], rest);
      FallsThrough(c, index, verdict, Clean(accepts, log), phase, rest, Pending(phase, mark, buf, i + 1),
                   i == |buf| - 1);
    }

    /** s_part_data_almost_boundary. */
    method AlmostBoundary(c: byte) returns (verdict: Verdict, ghost sent: seq<Token>)
      requires Valid() && Clean(accepts, log)
      requires Paced()
      requires phase.PartDataAlmostBoundary?
      modifies this`phase, this`index, this`log, lookbehind
      ensures Sent(old(log), sent)
      ensures Fell(StepAlmostBoundary(old(index), c), c, DataTokens([CR]), old(index), verdict, Clean(accepts, log),
                   phase, index, sent)
      ensures Clean(accepts, log) ==> Valid() && (phase.PartData? || phase.PartDataBoundary?)
      ensures Sliced() && (Clean(accepts, log) ==> Paced())
    {
      if c == LF {
        phase := PartDataBoundary;
        lookbehind[1] := LF;
        index := 0;
        return Next, [];
      }
      var ok := Emit(OnPartData(lookbehind[..1]));
      sent := DataTokens([CR]);
      if !ok { return Return, sent; }
      phase := PartData;
      return Again, sent;
    }

    /** s_part_data_boundary. */
    method Boundary(c: byte) returns (verdict: Verdict, ghost sent: seq<Token>)
      requires Valid() && Clean(accepts, log)
      requires Paced()
      requires phase.PartDataBoundary?
      modifies this`phase, this`index, this`log, lookbehind
      ensures Sent(old(log), sent)
      ensures Fell(StepBoundary(boundary, old(index), c), c, DataTokens([CR, LF] + boundary[..old(index)]), old(index),
                   verdict, Clean(accepts, log), phase, index, sent)
      ensures Clean(accepts, log) ==>
                Valid() && (phase.PartData? || phase.PartDataBoundary? || phase.PartDataAlmostEnd?)
      ensures Sliced() && (Clean(accepts, log) ==> Paced())
    {
      if boundary[index] != c {
        var ok := Emit(OnPartData(lookbehind[..2 + index]));
        sent := DataTokens([CR, LF] + boundary[..index]);
        if !ok { return Return, sent; }
        phase := PartData;
        return Again, sent;
      }
      lookbehind[2 + index] := c;
      index := index + 1;
      if index < |boundary| {
        return Next, [];
      }
      var ok := Emit(OnPartDataEnd);
      if !ok { return Return, [PartEnd]; }
      phase := PartDataAlmostEnd;
      return Next, [PartEnd];
    }

    /** The phases that wait for one or two fixed bytes, and s_end. */
    method Closing(c: byte) returns (verdict: Verdict, ghost sent: seq<Token>)
      requires Valid() && Clean(accepts, log)
      requires Sliced()
      requires phase in {HeadersAlmostDone, HeaderValueAlmostDone, PartDataAlmostEnd, PartDataFinalHyphen,
                         PartDataEnd, End}
      modifies this`phase, this`log
      ensures Sent(old(log), sent)
      ensures Passed(StepClosing(old(phase), index, c), verdict, Clean(accepts, log), phase, index, [], sent, [], false)
      ensures Sliced() && phase !in {PartData, PartDataAlmostBoundary, PartDataBoundary}
    {
      var ok := true;
      sent := [];
      match phase {
      case HeadersAlmostDone =>
        if c != LF { return Return, sent; }
        phase := PartDataStart;
      case HeaderValueAlmostDone =>
        if c != LF { return Return, sent; }
        phase := HeaderFieldStart;
      case PartDataAlmostEnd =>
        if c == HYPHEN {
          phase := PartDataFinalHyphen;
        } else if c == CR {
          phase := PartDataEnd;
        } else {
          return Return, sent;
        }
      case PartDataFinalHyphen =>
        if c != HYPHEN { return Return, sent; }
        ok := Emit(OnBodyEnd);
        sent := [BodyEnd];
        if !ok { return Return, sent; }
        phase := End;
      case PartDataEnd =>
        if c != LF { return Return, sent; }
        phase := HeaderFieldStart;
        ok := Emit(OnPartDataBegin);
        sent := [PartBegin];
        if !ok { return Return, sent; }
      case _ =>
      }
      return Next, sent;
    }

    /** The header phases of the `switch`, with their fallthroughs. */
    method Header(i: nat, mark0: nat, buf: seq<byte>) returns (verdict: Verdict, mark: nat, ghost sent: seq<Token>)
      requires Valid() && Clean(accepts, log) && mark0 <= i < |buf|
      requires Sliced()
      requires phase in {HeaderFieldStart, HeaderField, HeaderValueStart, HeaderValue}
      modifies this`phase, this`log
      ensures Sent(old(log), sent) && mark <= i
      ensures Clean(accepts, log) ==> Valid()
      ensures Switched(boundary, MachineAt(old(phase), index, mark0, buf, i), buf, i, verdict, Clean(accepts, log),
                       phase, index, mark, [], sent)
      ensures Sliced() && (Clean(accepts, log) ==> Paced())
    {
      hide Clean;
      hide Flatten;
      mark := mark0;
      var c := buf[i];
      assert buf[i..i] == [];
      if phase.HeaderValueStart? && c == SPACE {
        return Next, mark, [];
      }
      if phase.HeaderFieldStart? {
        mark := i;
        phase := HeaderField;
      } else if phase.HeaderValueStart? {
        mark := i;
        phase := HeaderValue;
      }
      assert buf[mark..i + 1] == buf[mark..i] + [c];
      if phase.HeaderField? {
        verdict, sent := HeaderName(c, i, mark, buf);
      } else {
        verdict, sent := HeaderText(c, i, mark, buf);
      }
    }

    /** The phases of the `switch` that pass over part data. */
    method Payload(i: nat, mark0: nat, buf: seq<byte>) returns (verdict: Verdict, mark: nat, ghost sent: seq<Token>)
      requires Valid() && Clean(accepts, log) && mark0 <= i < |buf|
      requires Paced()
      requires phase.PartDataStart? || phase.PartData?
      modifies this`phase, this`log, lookbehind
      ensures Sent(old(log), sent) && mark <= i && !verdict.Again?
      ensures Clean(accepts, log) ==> Valid()
      ensures Switched(boundary, Machine(old(phase), index, []), buf, i, verdict, Clean(accepts, log),
                       phase, index, mark, Pending(old(phase), mark0, buf, i), sent)
      ensures Sliced() && (Clean(accepts, log) ==> InStep(log, phase) && (i < |buf| - 1 ==> Paced()))
    {
      hide Clean;
      hide Flatten;
      hide Passed;
      hide StepData;
      mark := mark0;
      var c := buf[i];
      if phase.PartDataStart? {
        verdict, mark, sent := ContentStart(c, i, mark, buf);
      } else {
        verdict, mark, sent := Content(c, i, mark, buf);
      }
    }

    /** The phases of the `switch` that try to match a delimiter. */
    method Delimiting(i: nat, mark0: nat, buf: seq<byte>) returns (verdict: Verdict, mark: nat, ghost sent: seq<Token>)
      requires Valid() && Clean(accepts, log) && mark0 <= i < |buf|
      requires Paced()
      requires phase.PartDataAlmostBoundary? || phase.PartDataBoundary?
      modifies this`phase, this`index, this`log, lookbehind
      ensures Sent(old(log), sent) && mark <= i
      ensures Clean(accepts, log) ==> Valid()
      ensures Switched(boundary, Machine(old(phase), old(index), []), buf, i, verdict, Clean(accepts, log),
                       phase, index, mark, [], sent)
      ensures Sliced() && (Clean(accepts, log) ==> Paced())
    {
      hide Clean;
      hide Flatten;
      hide Passed;
      hide StepData;
      hide StepBoundary;
      hide StepAlmostBoundary;
      hide Fell;
      var c := buf[i];
      ghost var m := Machine(phase, index, []);
      if phase.PartDataAlmostBoundary? {
        verdict, sent := AlmostBoundary(c);
      } else {
        verdict, sent := Boundary(c);
      }
      mark := if verdict.Again? then i else mark0;
      FellSwitches(boundary, m, buf, i, verdict, Clean(accepts, log), phase, index, mark, sent);
    }

    /** The phases of the `switch` outside headers and data. */
    method Edges(i: nat, mark: nat, buf: seq<byte>) returns (verdict: Verdict, ghost sent: seq<Token>)
      requires Valid() && Clean(accepts, log) && mark <= i < |buf|
      requires Sliced()
      requires phase !in {HeaderFieldStart, HeaderField, HeaderValueStart, HeaderValue}
      requires phase !in {PartDataStart, PartData, PartDataAlmostBoundary, PartDataBoundary}
      modifies this`phase, this`index, this`log
      ensures Sent(old(log), sent)
      ensures Clean(accepts, log) ==> Valid()
      ensures Switched(boundary, Machine(old(phase), old(index), []), buf, i, verdict, Clean(accepts, log),
                       phase, index, mark, [], sent)
      ensures Sliced() && (Clean(accepts, log) ==> Paced())
    {
      ghost var o := Step(boundary, Machine(phase, index, []), buf[i]);
      if phase.Start? || phase.StartBoundary? {
        verdict, sent := FirstBoundary(buf[i]);
      } else {
        verdict, sent := Closing(buf[i]);
      }
      OwedAtEnd(o, sent, i == |buf| - 1);
    }

    /** The `switch`. */
    method Dispatch(i: nat, mark0: nat, buf: seq<byte>) returns (verdict: Verdict, mark: nat, ghost sent: seq<Token>)
      requires Valid() && Clean(accepts, log) && mark0 <= i < |buf|
      requires Paced()
      modifies this`phase, this`index, this`log, lookbehind
      ensures Sent(old(log), sent) && mark <= i
      ensures Clean(accepts, log) ==> Valid()
      ensures Switched(boundary, MachineAt(old(phase), old(index), mark0, buf, i), buf, i, verdict, Clean(accepts, log),
                       phase, index, mark, Pending(old(phase), mark0, buf, i), sent)
      ensures Sliced() && (Clean(accepts, log) ==> InStep(log, phase) && (i < |buf| - 1 || verdict.Again? ==> Paced()))
    {
      hide Switched;
      hide Clean;
      hide Flatten;
      mark := mark0;
      if phase in {HeaderFieldStart, HeaderField, HeaderValueStart, HeaderValue} {
        verdict, mark, sent := Header(i, mark, buf);
      } else if phase.PartDataStart? || phase.PartData? {
        verdict, mark, sent := Payload(i, mark, buf);
      } else if phase.PartDataAlmostBoundary? || phase.PartDataBoundary? {
        verdict, mark, sent := Delimiting(i, mark, buf);
      } else {
        verdict, sent := Edges(i, mark, buf);
      }
    }

    /** `multipart_parser_execute`: the number of bytes taken, which is all of them unless something went wrong. */
    method Execute(buf: seq<byte>) returns (r: nat)
      requires Valid() && Clean(accepts, log)
      requires Ordered(log) && InStep(log, phase)
      modifies this`phase, this`index, this`log, this`origin, lookbehind
      ensures r <= |buf|
      ensures Performed(boundary, accepts, Machine(old(phase), old(index), []), buf, Flatten(old(log)), log, phase,
                        index, r)
      ensures Clean(accepts, log) ==> Valid()
      ensures Ordered(log) && Lumped(old(log), log) && (Clean(accepts, log) ==> InStep(log, phase))
    {
      hide Tracking;
      hide Switched;
      var i: nat, mark: nat := 0, 0;
      origin := log;
      ghost var base := Flatten(log);
      ghost var m0 := Machine(phase, index, []);
      ghost var m, toks := m0, [];
      TrackingStarts(boundary, m0, buf, base);

      while i < |buf|
        invariant mark <= i <= |buf|
        invariant Valid() && Clean(accepts, log)
        invariant Sliced() && InStep(log, phase) && (i < |buf| ==> Paced()) && origin == old(log)
        invariant Tracking(boundary, m0, m, buf, i, mark, phase, index, toks, base, Flatten(log))
        decreases |buf| - i, if phase.PartDataAlmostBoundary? || phase.PartDataBoundary? then 1 else 0
      {
        ghost var v := Machine(phase, index, []);
        ghost var told := Flatten(log);
        ghost var sent;
        var verdict;
        ghost var mark0 := mark;
        verdict, mark, sent := Dispatch(i, mark, buf);
        m, toks := Follow(boundary, m0, m, buf, i, mark0, v, toks, base, told,
                          verdict, Clean(accepts, log), phase, index, mark, sent);
        match verdict {
          case Return => return i;
          case Next => i := i + 1;
          case Again =>
        }
      }
      TrackingEnds(boundary, m0, m, buf, mark, phase, index, toks, base, Flatten(log));
      return |buf|;
    }
  }
}
