/** What the upload callbacks know from the headers alone, and what has happened when the file data begins. */
module UploadTokens {
  import opened Bytes
  import opened Common
  import opened MultipartMachine
  import opened MultipartMatching
  import opened MultipartParser
  import opened UploadHandlers

  // ----- the kind of a part -----

  /** Whether the last header was a content disposition, and the kind of the part. */
  datatype Heading = Heading(disposition: bool, part: PartType)

  function HeadingNext(h: Heading, t: Token): Heading {
    match t
    case Field(at) => h.(disposition := IsDisposition(at))
    case Value(at) => if h.disposition then h.(part := PartOf(at, h.part)) else h
    case PartEnd => h.(part := Unknown)
    case _ => h
  }

  function HeadingAfter(toks: seq<Token>): Heading {
    if toks == [] then Heading(false, Unknown)
    else HeadingNext(HeadingAfter(toks[..|toks| - 1]), toks[|toks| - 1])
  }

  lemma HeadingLast(toks: seq<Token>, t: Token)
    ensures HeadingAfter(toks + [t]) == HeadingNext(HeadingAfter(toks), t)
  {
    assert (toks + [t])[..|toks|] == toks;
  }

  lemma {:induction false} HeadingData(toks: seq<Token>, x: seq<byte>)
    ensures HeadingAfter(toks + DataTokens(x)) == HeadingAfter(toks)
    decreases |x|
  {
    if x == [] {
      assert toks + DataTokens(x) == toks;
    } else {
      var n := |x| - 1;
      HeadingData(toks, x[..n]);
      assert toks + DataTokens(x) == (toks + DataTokens(x[..n])) + [Data(x[n])];
      HeadingLast(toks + DataTokens(x[..n]), Data(x[n]));
    }
  }

  /** As long as no callback has failed, the kind of the part follows from what was told. */
  lemma {:induction false} HeadingIsTold(w: Access, log: History)
    requires Clean(Answers(w), log)
    ensures var st := StateAfter(w, log); HeadingAfter(Flatten(log)) == Heading(st.disposition, st.part)
    decreases log
  {
    if log.Then? {
      HeadingIsTold(w, log.earlier);
      HeadingCall(w, StateAfter(w, log.earlier), log.last);
      hide HeadingAfter;
      hide HeadingNext;
      hide Handle;
      if log.last.OnPartData? {
        HeadingData(Flatten(log.earlier), log.last.at);
      } else {
        HeadingLast(Flatten(log.earlier), TokensOf(log.last)[0]);
      }
    }
  }

  lemma HeadingCall(w: Access, st: UploadHandlers.State, e: Event)
    requires Handle(w, st, e).ok
    ensures var st' := Handle(w, st, e).st;
            if e.OnPartData? then st'.disposition == st.disposition && st'.part == st.part
            else
              && |TokensOf(e)| == 1
              && HeadingNext(Heading(st.disposition, st.part), TokensOf(e)[0]) == Heading(st'.disposition, st'.part)
  {
    hide PartOf;
    hide IsDisposition;
  }

  // ----- the shape of what is told -----

  /** Whether the token comes at its place, and whether part data is being told after it. */
  function WalkNext(inside: bool, t: Token): Option<bool> {
    match t
    case Data(_) => if inside then Some(true) else None
    case PartEnd => if inside then Some(false) else None
    case HeadersComplete => if inside then None else Some(true)
    case _ => if inside then None else Some(false)
  }

  function Walk(inside: bool, toks: seq<Token>): Option<bool>
    decreases |toks|
  {
    if toks == [] then Some(inside)
    else match WalkNext(inside, toks[0])
      case None => None
      case Some(then') => Walk(then', toks[1..])
  }

  lemma {:induction false} WalkConcat(inside: bool, s: seq<Token>, t: seq<Token>)
    ensures Walk(inside, s + t) == match Walk(inside, s) case None => None case Some(then') => Walk(then', t)
    decreases |s|
  {
    if s == [] {
      assert s + t == t;
    } else {
      assert (s + t)[0] == s[0] && (s + t)[1..] == s[1..] + t;
      var next := WalkNext(inside, s[0]);
      if next.Some? {
        WalkConcat(next.value, s[1..], t);
      }
    }
  }

  lemma {:induction false} WalkData(x: seq<byte>)
    ensures Walk(true, DataTokens(x)) == Some(true)
    ensures x != [] ==> Walk(false, DataTokens(x)) == None
    decreases |x|
  {
    if x != [] {
      assert DataTokens(x)[1..] == DataTokens(x[1..]);
      WalkData(x[1..]);
    }
  }

  lemma WalkOne(inside: bool, t: Token)
    ensures Walk(inside, [t]) == WalkNext(inside, t)
  {
  }

  lemma WalkStepData(x: seq<byte>, c: byte, index: nat)
    ensures var o := StepData(c, index, DataTokens(x)); Walk(true, o.toks) == Some(true) && InData(o.m)
    ensures var o := StepData(c, index, [HeadersComplete]); Walk(false, o.toks) == Some(true) && InData(o.m)
    ensures var o := StepData(c, index, []); Walk(true, o.toks) == Some(true) && InData(o.m)
  {
    WalkData(x);
    WalkConcat(true, DataTokens(x), [Data(c)]);
    WalkConcat(false, [HeadersComplete], [Data(c)]);
    WalkOne(true, Data(c));
    WalkOne(false, HeadersComplete);
    assert [] + [Data(c)] == [Data(c)];
  }

  lemma StepWalksInside(b: seq<byte>, m: Machine, c: byte)
    requires WellFormed(b, m) && (InData(m) || m.phase.PartDataStart?)
    ensures var o := Step(b, m, c); Walk(InData(m), o.toks) == Some(InData(o.m))
  {
    hide Walk;
    hide StepData;
    WalkStepData(if InData(m) then Held(b, m) else [], c, m.index);
    WalkOne(true, PartEnd);
    WalkEmpty(InData(m));
  }

  lemma StepWalksOutside(b: seq<byte>, m: Machine, c: byte)
    requires WellFormed(b, m) && !InData(m) && !m.phase.PartDataStart? && Step(b, m, c).ok
    ensures var o := Step(b, m, c); Walk(false, o.toks) == Some(false) && !InData(o.m)
  {
    hide Walk;
    WalkOne(false, PartBegin);
    WalkOne(false, BodyEnd);
    WalkOne(false, Field(m.acc));
    WalkOne(false, Field([]));
    WalkOne(false, Value(m.acc));
    WalkOne(false, Value([]));
    WalkEmpty(false);
  }

  lemma WalkEmpty(inside: bool)
    ensures Walk(inside, []) == Some(inside)
  {
  }

  /** The machine tells everything at its place. */
  lemma {:induction false} RunWalks(b: seq<byte>, m: Machine, s: seq<byte>)
    requires WellFormed(b, m) && Run(b, m, s).ok
    ensures var o := Run(b, m, s); Walk(InData(m), o.toks) == Some(InData(o.m))
    decreases |s|
  {
    if s != [] {
      assert var o := Step(b, m, s[0]); Walk(InData(m), o.toks) == Some(InData(o.m)) by {
        hide Step;
        if InData(m) || m.phase.PartDataStart? {
          StepWalksInside(b, m, s[0]);
        } else {
          StepWalksOutside(b, m, s[0]);
        }
      }
      var o := Step(b, m, s[0]);
      hide Step;
      RunWalks(b, o.m, s[1..]);
      WalkConcat(InData(m), o.toks, Run(b, o.m, s[1..]).toks);
    }
  }

  lemma WalkPrefix(told: seq<Token>, toks: seq<Token>)
    requires toks <= told && Walk(false, told).Some?
    ensures Walk(false, toks).Some?
  {
    assert told == toks + told[|toks|..];
    WalkConcat(false, toks, told[|toks|..]);
  }

  // ----- before the file data -----

  /** Nothing has been written unless file data is being told. */
  predicate Closed(st: UploadHandlers.State, inside: bool) {
    st.filedata || st.temp.Some? ==> inside && st.part == FileData
  }

  lemma {:induction false} NothingWritten(w: Access, log: History)
    requires Clean(Answers(w), log) && Walk(false, Flatten(log)).Some?
    ensures Closed(StateAfter(w, log), Walk(false, Flatten(log)).value)
    decreases log
  {
    if log.Then? {
      var e, before := log.last, Flatten(log.earlier);
      WalkConcat(false, before, TokensOf(e));
      NothingWritten(w, log.earlier);
      hide Walk;
      hide Handle;
      hide Closed;
      ClosedCall(w, StateAfter(w, log.earlier), e, Walk(false, before).value);
    }
  }

  lemma ClosedCall(w: Access, st: UploadHandlers.State, e: Event, inside: bool)
    requires Handle(w, st, e).ok && Closed(st, inside) && Walk(inside, TokensOf(e)).Some?
    ensures Closed(Handle(w, st, e).st, Walk(inside, TokensOf(e)).value)
  {
    hide Walk;
    hide PartOf;
    hide IsDisposition;
    if e.OnPartData? {
      WalkData(e.at);
      if e.at == [] {
        WalkNothing(inside);
      }
    } else {
      WalkOne(inside, TokensOf(e)[0]);
    }
  }

  lemma WalkNothing(inside: bool)
    ensures Walk(inside, DataTokens([])) == Some(inside)
  {
  }

  /** None of the parts whose headers are complete is file data. */
  predicate NoFile(toks: seq<Token>) {
    forall i :: 0 <= i < |toks| && toks[i] == HeadersComplete ==> HeadingAfter(toks[..i]).part != FileData
  }

  lemma NoFilePrefix(told: seq<Token>, toks: seq<Token>)
    requires toks <= told && NoFile(told)
    ensures NoFile(toks)
  {
    forall i | 0 <= i < |toks| && toks[i] == HeadersComplete ensures HeadingAfter(toks[..i]).part != FileData {
      assert told[i] == HeadersComplete && told[..i] == toks[..i];
    }
  }

  lemma {:induction false} NoFileInside(toks: seq<Token>)
    requires NoFile(toks) && Walk(false, toks) == Some(true)
    ensures HeadingAfter(toks).part != FileData
    decreases |toks|
  {
    if toks != [] {
      var n := |toks| - 1;
      var front, t := toks[..n], toks[n];
      assert toks == front + [t];
      WalkConcat(false, front, [t]);
      var inside := Walk(false, front).value;
      WalkOne(inside, t);
      HeadingLast(front, t);
      hide HeadingAfter;
      hide Walk;
      if t.Data? {
        NoFilePrefix(toks, front);
        NoFileInside(front);
      }
    }
  }

  /** After the headers, and after data, part data is being told. */
  lemma {:induction false} OrderedInside(log: History)
    requires Ordered(log) && log.Then? && (log.last.OnHeadersComplete? || log.last.OnPartData?)
    requires Walk(false, Flatten(log)).Some?
    ensures Walk(false, Flatten(log)) == Some(true)
    decreases log
  {
    var e, before := log.last, Flatten(log.earlier);
    WalkConcat(false, before, TokensOf(e));
    if e.OnPartData? {
      OrderedInside(log.earlier);
      WalkData(e.at);
    } else {
      WalkOne(Walk(false, before).value, HeadersComplete);
    }
  }

  /** A call that is turned down before there is file data is the end of a session id. */
  lemma TurnedDown(w: Access, log: History, told: seq<Token>)
    requires Ordered(log) && Rejected(Answers(w), log) && Flatten(log) <= told && NoFile(told)
             && Walk(false, told).Some?
    ensures log.last == OnPartDataEnd
    ensures var st := StateAfter(w, log.earlier); st.part == SessionId && !w.upload(st.sessionid)
    ensures var st := StateAfter(w, log); st.temp == None && st.response == Some(false)
  {
    var before, st, e := Flatten(log.earlier), StateAfter(w, log.earlier), log.last;
    assert before <= told by {
      assert before == Flatten(log)[..|before|] == told[..|before|];
    }
    WalkPrefix(told, before);
    WalkPrefix(told, Flatten(log));
    NoFilePrefix(told, before);
    HeadingIsTold(w, log.earlier);
    NothingWritten(w, log.earlier);
    if Walk(false, before) == Some(true) {
      NoFileInside(before);
    }
    WalkConcat(false, before, TokensOf(e));
    hide Flatten;
    hide HeadingAfter;
    hide NoFile;
    hide Walk;
    hide PartOf;
    match e
    case OnPartData(at) => DataInside(log, before);
    case OnPartDataEnd => WalkOne(Walk(false, before).value, PartEnd);
    case OnHeadersComplete => NotFileNext(log, told);
    case _ =>
  }

  lemma DataInside(log: History, before: seq<Token>)
    requires Ordered(log) && log.Then? && log.last.OnPartData? && before == Flatten(log.earlier)
             && Walk(false, before).Some?
    ensures Walk(false, before) == Some(true)
  {
    OrderedInside(log.earlier);
  }

  lemma NotFileNext(log: History, told: seq<Token>)
    requires log.Then? && log.last.OnHeadersComplete? && Flatten(log) <= told && NoFile(told)
    ensures HeadingAfter(Flatten(log.earlier)).part != FileData
  {
    var i := |Flatten(log.earlier)|;
    assert Flatten(log)[i] == HeadersComplete && told[i] == Flatten(log)[i];
    assert told[..i] == Flatten(log)[..i] == Flatten(log.earlier);
  }
}
