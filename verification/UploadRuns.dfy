/** What `main_upload` writes: the file data, whatever the chunks. */
module UploadRuns {
  import opened Common
  import opened Bytes
  import opened MultipartMachine
  import opened MultipartMatching
  import opened MultipartParser
  import opened MultipartChunks
  import opened UploadHandlers
  import opened UploadTokens

  // ----- the calls, given what they tell -----

  lemma {:induction false} ExtendsTells(log0: History, log: History)
    requires Extends(log0, log)
    ensures Flatten(log0) <= Flatten(log)
    decreases log
  {
    if log != log0 {
      ExtendsTells(log0, log.earlier);
    }
  }

  /** The file data part is open: the headers are complete and the temporary file is empty. */
  predicate Opened(st: UploadHandlers.State) {
    st.part == FileData && st.temp == Some([]) && !st.filedata
  }

  predicate Holding(st: UploadHandlers.State, data: seq<byte>) {
    st.part == FileData && st.temp == Some(data) && (st.filedata <==> data != [])
  }

  /** Where the file is to go, and with which rights, is as it was. */
  predicate SameFile(st: UploadHandlers.State, end: UploadHandlers.State) {
    end.filename == st.filename && end.filemode == st.filemode && end.overrun == st.overrun
  }

  lemma OtherCalls(e: Event)
    ensures e.OnPartData? || (|TokensOf(e)| == 1 && !TokensOf(e)[0].Data?)
  {
  }

  /** A call that tells nothing but data hands over data. */
  lemma DataOnly(e: Event, x: seq<byte>)
    requires TokensOf(e) == DataTokens(x)
    ensures e == OnPartData(x)
  {
    OtherCalls(e);
    if e.OnPartData? {
      assert |e.at| == |x|;
      forall i | 0 <= i < |x| ensures e.at[i] == x[i] {
        assert DataTokens(e.at)[i] == DataTokens(x)[i];
      }
      assert e.at == x;
    }
  }

  lemma SplitTokens(a: seq<Token>, t: seq<Token>, f: seq<Token>, x: seq<byte>) returns (y: seq<byte>, z: seq<byte>)
    requires a + t == f + DataTokens(x) && |f| <= |a|
    ensures x == y + z && a == f + DataTokens(y) && t == DataTokens(z)
  {
    var n := |a| - |f|;
    y, z := x[..n], x[n..];
    assert a == (f + DataTokens(x))[..|a|] == f + DataTokens(y);
    assert t == (f + DataTokens(x))[|a|..] == DataTokens(z);
  }

  /** However the data is sliced, it is written whole, and every call is accepted. */
  lemma {:induction false} DataWritten(w: Access, log1: History, log: History, x: seq<byte>)
    requires Extends(log1, log) && Flatten(log) == Flatten(log1) + DataTokens(x)
    requires Opened(StateAfter(w, log1)) && Clean(Answers(w), log1)
    ensures Holding(StateAfter(w, log), x) && Clean(Answers(w), log)
    ensures SameFile(StateAfter(w, log1), StateAfter(w, log))
    decreases log
  {
    if log == log1 {
      assert x == [] by {
        assert |Flatten(log1) + DataTokens(x)| == |Flatten(log1)| + |x|;
      }
    } else {
      ExtendsTells(log1, log.earlier);
      var y, z := SplitTokens(Flatten(log.earlier), TokensOf(log.last), Flatten(log1), x);
      DataOnly(log.last, z);
      DataWritten(w, log1, log.earlier, y);
    }
  }

  /** The end of the part is never accepted: it is what answers the client. */
  lemma EndAnswers(w: Access, log: History, data: seq<byte>)
    requires Holding(StateAfter(w, log), data)
    ensures !Answers(w)(log, OnPartDataEnd)
    ensures var st := StateAfter(w, Then(log, OnPartDataEnd));
            st.temp == Some(data) && st.response == Some(data != []) && SameFile(StateAfter(w, log), st)
  {
  }

  /** The calls up to the first one that reaches beyond what `head` tells. */
  lemma {:induction false} UpTo(log1: History, log: History, told: seq<Token>) returns (cut: History, e: Event)
    requires Extends(log1, log) && Flatten(log1) <= told && told < Flatten(log)
    ensures Extends(log1, cut) && Extends(Then(cut, e), log)
    ensures Flatten(cut) <= told && |told| < |Flatten(cut)| + |TokensOf(e)|
    decreases log
  {
    if log == log1 {
      assert false;
    } else if |told| < |Flatten(log.earlier)| {
      assert Flatten(log.earlier) <= Flatten(log);
      assert told == Flatten(log)[..|told|] == Flatten(log.earlier)[..|told|];
      cut, e := UpTo(log1, log.earlier, told);
    } else {
      cut, e := log.earlier, log.last;
      assert Flatten(cut) == Flatten(log)[..|Flatten(cut)|] == told[..|Flatten(cut)|];
    }
  }

  /** Once the file data has begun, a run that goes far enough ends with the end of that part. */
  lemma AnsweredAtEnd(w: Access, log1: History, log: History, data: seq<byte>, more: seq<Token>)
    requires Extends(log1, log) && Opened(StateAfter(w, log1)) && Clean(Answers(w), log1)
    requires Clean(Answers(w), log) || Rejected(Answers(w), log)
    requires var full := Flatten(log1) + DataTokens(data) + [PartEnd] + more;
             Flatten(log) <= full && (Clean(Answers(w), log) ==> Flatten(log) == full)
    ensures var st := StateAfter(w, log);
            st.temp == Some(data) && st.response == Some(data != []) && SameFile(StateAfter(w, log1), st)
            && log == Then(log.earlier, OnPartDataEnd)
  {
    hide Extends;
    hide Flatten;
    hide StateAfter;
    hide Opened;
    hide Holding;
    hide Clean;
    var told, full := Flatten(log1) + DataTokens(data), Flatten(log1) + DataTokens(data) + [PartEnd] + more;
    GoesBeyond(w, log1, log, data, more);
    ExtendsTells(log1, log);
    var cut, e := UpTo(log1, log, told);
    CutAtEnd(log, cut, e, told, full);
    DataWritten(w, log1, cut, data);
    EndAnswers(w, cut, data);
    NothingAfter(w, Then(cut, e), log);
  }

  lemma GoesBeyond(w: Access, log1: History, log: History, data: seq<byte>, more: seq<Token>)
    requires Extends(log1, log) && Opened(StateAfter(w, log1)) && Clean(Answers(w), log1)
    requires Clean(Answers(w), log) || Rejected(Answers(w), log)
    requires var full := Flatten(log1) + DataTokens(data) + [PartEnd] + more;
             Flatten(log) <= full && (Clean(Answers(w), log) ==> Flatten(log) == full)
    ensures var told, full := Flatten(log1) + DataTokens(data), Flatten(log1) + DataTokens(data) + [PartEnd] + more;
            told < Flatten(log) && |told| < |full| && full[|told|] == PartEnd
  {
    var told, full := Flatten(log1) + DataTokens(data), Flatten(log1) + DataTokens(data) + [PartEnd] + more;
    assert told == full[..|told|] && full[|told|] == PartEnd;
    if |Flatten(log)| <= |told| {
      assert Flatten(log) == full[..|Flatten(log)|] == told[..|Flatten(log)|];
      Unfinished(w, log1, log, data);
      RejectedIsNotClean(w, log);
    } else {
      assert Flatten(log)[..|told|] == full[..|told|];
    }
  }

  lemma RejectedIsNotClean(w: Access, log: History)
    ensures !(Clean(Answers(w), log) && Rejected(Answers(w), log))
  {
  }

  /** Within the data no run comes to a halt. */
  lemma Unfinished(w: Access, log1: History, log: History, data: seq<byte>)
    requires Extends(log1, log) && Opened(StateAfter(w, log1)) && Clean(Answers(w), log1)
    requires Flatten(log) <= Flatten(log1) + DataTokens(data)
    ensures Clean(Answers(w), log)
    ensures |Flatten(log)| <= |Flatten(log1)| + |data|
  {
    ExtendsTells(log1, log);
    var n := |Flatten(log)| - |Flatten(log1)|;
    var told := Flatten(log1) + DataTokens(data);
    assert Flatten(log) == told[..|Flatten(log)|] == Flatten(log1) + DataTokens(data[..n]);
    DataWritten(w, log1, log, data[..n]);
  }

  /** The call that goes beyond the data is the end of the part. */
  lemma CutAtEnd(log: History, cut: History, e: Event, told: seq<Token>, full: seq<Token>)
    requires |told| < |full| && full[|told|] == PartEnd && Flatten(log) <= full
    requires Extends(Then(cut, e), log) && Flatten(cut) <= told && |told| < |Flatten(cut)| + |TokensOf(e)|
    ensures e == OnPartDataEnd && Flatten(cut) == told
  {
    var k := |told|;
    assert k < |Flatten(log)| && Flatten(log)[k] == TokensOf(e)[k - |Flatten(cut)|] by {
      ExtendsTells(Then(cut, e), log);
    }
    hide Extends;
    hide Flatten;
    var i := |told| - |Flatten(cut)|;
    assert e == OnPartDataEnd && i == 0;
  }

  /** A call that is turned down is the last one. */
  lemma {:induction false} NothingAfter(w: Access, log0: History, log: History)
    requires Extends(log0, log) && log0.Then? && !Answers(w)(log0.earlier, log0.last)
    requires Clean(Answers(w), log) || Rejected(Answers(w), log)
    ensures log == log0
    decreases log
  {
    if log != log0 {
      NotClean(w, log0, log.earlier);
    } else {
    }
  }

  lemma {:induction false} NotClean(w: Access, log0: History, log: History)
    requires Extends(log0, log) && log0.Then? && !Answers(w)(log0.earlier, log0.last)
    ensures !Clean(Answers(w), log)
    decreases log
  {
    if log != log0 {
      NotClean(w, log0, log.earlier);
    }
  }

  // ----- what the parser tells about the data, whatever the chunks -----

  predicate InPart(m: Machine) {
    InData(m) || m.phase.PartDataStart?
  }

  /** No prefix of `t` leaves the data of the part. */
  ghost predicate StaysIn(b: seq<byte>, m: Machine, t: seq<byte>)
    requires WellFormed(b, m)
  {
    forall j :: 0 <= j < |t| ==> var o := Run(b, m, t[..j]); o.ok && InPart(o.m)
  }

  lemma StaysInRest(b: seq<byte>, m: Machine, t: seq<byte>, n: nat)
    requires WellFormed(b, m) && StaysIn(b, m, t) && n < |t| && Run(b, m, t).ok
    ensures var o := Run(b, m, t[..n]);
            && o.ok && InPart(o.m) && StaysIn(b, o.m, t[n..])
            && Run(b, o.m, t[n..]).ok && Run(b, m, t).toks == o.toks + Run(b, o.m, t[n..]).toks
  {
    var o := Run(b, m, t[..n]);
    assert t == t[..n] + t[n..];
    RunConcat(b, m, t[..n], t[n..]);
    forall j | 0 <= j < |t[n..]| ensures Run(b, o.m, t[n..][..j]).ok && InPart(Run(b, o.m, t[n..][..j]).m) {
      assert t[..n + j] == t[..n] + t[n..][..j];
      RunConcat(b, m, t[..n], t[n..][..j]);
    }
  }

  lemma DeliversInPart(b: seq<byte>, m: Machine, c: seq<byte>)
    requires WellFormed(b, m) && Run(b, m, c).ok && InPart(Run(b, m, c).m)
    ensures Delivered(b, m, c) == Run(b, m, c).toks
  {
  }

  lemma RestOfFlat(chunks: seq<seq<byte>>, t: seq<byte>)
    requires chunks != [] && t <= Flat(chunks)
    ensures var c := chunks[0];
            if |t| <= |c| then t <= c else c == t[..|c|] && t[|c|..] <= Flat(chunks[1..])
  {
    var c, rest := chunks[0], Flat(chunks[1..]);
    if |t| <= |c| {
      assert t == (c + rest)[..|t|] == c[..|t|];
    } else {
      assert c == (c + rest)[..|c|] == t[..|c|];
      assert t[|c|..] == (c + rest)[..|t|][|c|..] == rest[..|t| - |c|];
    }
  }

  lemma {:induction false} TellsAcrossChunks(b: seq<byte>, m: Machine, chunks: seq<seq<byte>>, t: seq<byte>)
    requires WellFormed(b, m) && InPart(m) && t != [] && t <= Flat(chunks)
    requires StaysIn(b, m, t) && Run(b, m, t).ok
    ensures Run(b, m, t).toks <= RunChunks(b, m, chunks).toks
    decreases |chunks|
  {
    hide Run;
    hide Delivered;
    hide StaysIn;
    RestOfFlat(chunks, t);
    var c := chunks[0];
    RunCleared(b, m, c);
    var o, p := Run(b, m, c), Run(b, m.(acc := []), c);
    if |t| <= |c| {
      assert Run(b, m, t).toks <= Run(b, m, c).toks by {
        assert c == t + c[|t|..];
        RunConcat(b, m, t, c[|t|..]);
        hide Run;
      }
      DeliversAtLeast(b, m.(acc := []), c);
    } else {
      StaysInRest(b, m, t, |c|);
      TellsAcrossChunks(b, o.m, chunks[1..], t[|c|..]);
      SameChunks(b, o.m, p.m, chunks[1..]);
      DeliversInPart(b, m.(acc := []), c);
    }
  }

  lemma DeliversAtLeast(b: seq<byte>, m: Machine, c: seq<byte>)
    requires WellFormed(b, m)
    ensures Run(b, m, c).toks <= Delivered(b, m, c)
  {
  }

  /** From the blank line to the end of the part. */
  lemma BodyStaysIn(b: seq<byte>, m: Machine, s: seq<byte>, k: nat)
    requires WellFormed(b, m) && m.phase.PartDataStart? && Restartable(Delimiter(b)) && FirstAt(Delimiter(b), s, k)
    ensures var t := s[..k + |Delimiter(b)|];
            && t != [] && StaysIn(b, m, t) && Run(b, m, t).ok
            && Run(b, m, t).toks == [HeadersComplete] + (DataTokens(s[..k]) + [PartEnd])
  {
    var t, n := s[..k + |Delimiter(b)|], Machine(PartData, m.index, []);
    UpToDelimiter(b, n, s, k);
    FromStart(b, m, n, t);
    forall j | 0 <= j < |t| ensures Run(b, m, t[..j]).ok && InPart(Run(b, m, t[..j]).m) {
      if j > 0 {
        assert Absent(Delimiter(b), t[..j]) by {
          var pat := Delimiter(b);
          assert Absent(pat, s[..j]) by {
            forall i: nat ensures !OccursAt(pat, s[..j], i) {
              if OccursAt(pat, s[..j], i) {
                OccursInPrefix(pat, s, j, i);
              }
            }
          }
          assert t[..j] == s[..j];
        }
        WithoutDelimiter(b, n, t[..j]);
        FromStart(b, m, n, t[..j]);
      }
    }
  }

  lemma FromStart(b: seq<byte>, m: Machine, n: Machine, t: seq<byte>)
    requires WellFormed(b, m) && m.phase.PartDataStart? && n == Machine(PartData, m.index, []) && t != []
    ensures var o, p := Run(b, m, t), Run(b, n, t);
            o.ok == p.ok && o.m == p.m && o.toks == [HeadersComplete] + p.toks
  {
    var o, p := Step(b, m, t[0]), Step(b, n, t[0]);
    assert o == Outcome(p.m, [HeadersComplete] + p.toks, 1, true) && p.ok;
    hide Step;
    var rest := Run(b, p.m, t[1..]);
    assert [HeadersComplete] + p.toks + rest.toks == [HeadersComplete] + (p.toks + rest.toks);
  }

  /** With the headers in the first chunk, the data is told whole, however the rest is cut. */
  lemma BodyAcrossChunks(b: seq<byte>, chunks: seq<seq<byte>>, head: seq<byte>, s: seq<byte>, k: nat)
    requires |b| > 0 && Restartable(Delimiter(b)) && chunks != [] && head <= chunks[0] && Flat(chunks) == head + s
    requires var o := Run(b, FRESH, head); o.ok && o.m.phase.PartDataStart?
    requires FirstAt(Delimiter(b), s, k)
    ensures Run(b, FRESH, head).toks + [HeadersComplete] + DataTokens(s[..k]) + [PartEnd] <=
            RunChunks(b, FRESH, chunks).toks
  {
    var m, t := Run(b, FRESH, head).m, s[..k + |Delimiter(b)|];
    var rest := [chunks[0][|head|..]] + chunks[1..];
    hide *;
    BodyStaysIn(b, m, s, k);
    FlatRest(chunks, head, s);
    assert InPart(m);
    TellsAcrossChunks(b, m, rest, t);
    PiecesOf(chunks, head);
    HeadFirst(b, head, chunks[0][|head|..], chunks[1..], m);
    Regrouped(Run(b, FRESH, head).toks, DataTokens(s[..k]));
    Prefixed(Run(b, FRESH, head).toks, Run(b, m, t).toks, RunChunks(b, m, rest).toks);
  }

  lemma PiecesOf(chunks: seq<seq<byte>>, head: seq<byte>)
    requires chunks != [] && head <= chunks[0]
    ensures chunks == [head + chunks[0][|head|..]] + chunks[1..]
  {
    assert chunks[0] == head + chunks[0][|head|..];
  }

  lemma FlatRest(chunks: seq<seq<byte>>, head: seq<byte>, s: seq<byte>)
    requires chunks != [] && head <= chunks[0] && Flat(chunks) == head + s
    ensures Flat([chunks[0][|head|..]] + chunks[1..]) == s
  {
    var c, x := chunks[0], chunks[0][|head|..];
    var rest := [x] + chunks[1..];
    assert c == head + x && rest[0] == x && rest[1..] == chunks[1..];
    assert head + Flat(rest) == Flat(chunks) by {
      assert head + (x + Flat(chunks[1..])) == head + x + Flat(chunks[1..]);
    }
    assert Flat(rest) == (head + Flat(rest))[|head|..] == (head + s)[|head|..] == s;
  }

  lemma Prefixed(a: seq<Token>, t: seq<Token>, u: seq<Token>)
    requires t <= u
    ensures a + t <= a + u
  {
    assert a + u == a + t + u[|t|..];
  }

  lemma Regrouped(told: seq<Token>, data: seq<Token>)
    ensures told + ([HeadersComplete] + (data + [PartEnd])) == told + [HeadersComplete] + data + [PartEnd]
  {
  }

  /** A chunk may as well be cut after the blank line. */
  lemma HeadFirst(b: seq<byte>, head: seq<byte>, x: seq<byte>, later: seq<seq<byte>>, m: Machine)
    requires |b| > 0
    requires var o := Run(b, FRESH, head); o.ok && o.m == m && m.phase.PartDataStart?
    ensures RunChunks(b, FRESH, [head + x] + later).toks ==
            Run(b, FRESH, head).toks + RunChunks(b, m, [x] + later).toks
  {
    assert FRESH.(acc := []) == FRESH && WellFormed(b, FRESH) && WellFormed(b, m.(acc := []));
    hide *;
    DeliveredAfter(b, m, head, x);
    ChunkFirst(b, FRESH, head + x, later);
    ChunkFirst(b, m, x, later);
    var o, p := Run(b, m, x), Run(b, m.(acc := []), x);
    if o.ok {
      SameChunks(b, o.m, p.m, later);
      Told(Run(b, FRESH, head).toks, Delivered(b, m.(acc := []), x), RunChunks(b, p.m, later).toks,
           RunChunks(b, FRESH, [head + x] + later).toks, RunChunks(b, m, [x] + later).toks);
    }
  }

  lemma Told(head: seq<Token>, d: seq<Token>, more: seq<Token>, all: seq<Token>, rest: seq<Token>)
    requires all == head + d + more && rest == d + more
    ensures all == head + rest
  {
  }

  lemma ChunkFirst(b: seq<byte>, m: Machine, c: seq<byte>, later: seq<seq<byte>>)
    requires WellFormed(b, m)
    ensures var m0 := m.(acc := []);
            var o := Run(b, m0, c);
            RunChunks(b, m, [c] + later).toks ==
            if o.ok then Delivered(b, m0, c) + RunChunks(b, o.m, later).toks else Delivered(b, m0, c)
  {
    hide Run;
    hide Delivered;
    assert ([c] + later)[0] == c && ([c] + later)[1..] == later;
  }

  lemma DeliveredAfter(b: seq<byte>, m: Machine, head: seq<byte>, x: seq<byte>)
    requires |b| > 0 && Run(b, FRESH, head).ok && Run(b, FRESH, head).m == m && m.phase.PartDataStart?
    ensures var o, p := Run(b, m, x), Run(b, m.(acc := []), x);
            && Run(b, FRESH, head + x).ok == o.ok == p.ok && Run(b, FRESH, head + x).m == o.m
            && o.m.(acc := []) == p.m.(acc := [])
            && Delivered(b, FRESH, head + x) == Run(b, FRESH, head).toks + Delivered(b, m.(acc := []), x)
  {
    RunConcat(b, FRESH, head, x);
    RunCleared(b, m, x);
    hide Run;
    var told, o, p := Run(b, FRESH, head).toks, Run(b, m, x), Run(b, m.(acc := []), x);
    if x == [] {
      assert Run(b, m, x) == Outcome(m, [], 0, true)
             && Run(b, m.(acc := []), x) == Outcome(m.(acc := []), [], 0, true) by {
        RunNothing(b, m);
      }
      assert told + [] == told;
    } else if o.ok {
      Associates(told, p.toks, Tail(p.m));
    } else {
      assert told + p.toks + [] == told + p.toks;
    }
  }

  lemma RunNothing(b: seq<byte>, m: Machine)
    requires WellFormed(b, m)
    ensures Run(b, m, []) == Outcome(m, [], 0, true) && Run(b, m.(acc := []), []) == Outcome(m.(acc := []), [], 0, true)
  {
  }

  // ----- the whole upload -----

  /** The calls before the headers of the file data are complete. */
  lemma {:induction false} SplitLog(log: History, told: seq<Token>) returns (log0: History)
    requires told + [HeadersComplete] <= Flatten(log)
    ensures Flatten(log0) == told && Extends(Then(log0, OnHeadersComplete), log)
    decreases log
  {
    var f := Flatten(log.earlier);
    if |told| < |f| {
      assert (told + [HeadersComplete]) == Flatten(log)[..|told| + 1] == f[..|told| + 1];
      log0 := SplitLog(log.earlier, told);
    } else {
      log0 := log.earlier;
      OtherCalls(log.last);
      var i := |told| - |f|;
      assert TokensOf(log.last)[i] == Flatten(log)[|told|] == (told + [HeadersComplete])[|told|] == HeadersComplete;
      assert log.last == OnHeadersComplete && i == 0;
      assert f == Flatten(log)[..|f|] == told;
    }
  }

  /** The run of the read loop over these chunks has made these calls, those in `first` for the first chunk. */
  ghost predicate Uploaded(b: seq<byte>, w: Access, chunks: seq<seq<byte>>, first: History, log: History)
    requires |b| > 0
  {
    && Ordered(log) && FirstCalls(b, Answers(w), chunks, first, log)
    && (Clean(Answers(w), log) || Rejected(Answers(w), log))
    && Flatten(log) <= RunChunks(b, FRESH, chunks).toks
    && (Clean(Answers(w), log) ==> Flatten(log) == RunChunks(b, FRESH, chunks).toks)
  }

  /** `main_upload`, the parser being set up for its callbacks. */
  method MainUpload(boundary: seq<byte>, w: Access, chunks: seq<seq<byte>>) returns (p: Parser, ghost first: History)
    requires |boundary| > 0
    ensures p.boundary == boundary && Uploaded(boundary, w, chunks, first, p.log)
    ensures Responses(Answers(w), p.log) <= 1
  {
    p := new Parser(boundary, Answers(w));
    var taken, done;
    taken, done, first := Upload(p, chunks);
  }

  /** The file data may be written: session and name have come, and the session may write that file. */
  predicate Permitted(w: Access, st: UploadHandlers.State) {
    st.sessionid.Some? && st.filename.Some? && w.write(st.sessionid.value, st.filename.value)
  }

  /** The calls up to those headers are there to be looked at as soon as any later one is. */
  lemma {:induction false} HeadersCall(b: seq<byte>, w: Access, chunks: seq<seq<byte>>, first: History, log: History,
                                       told: seq<Token>)
    returns (log0: History)
    requires |b| > 0 && Uploaded(b, w, chunks, first, log)
             && told + [HeadersComplete] <= RunChunks(b, FRESH, chunks).toks
    requires |told| < |Flatten(log)|
    ensures Flatten(log0) == told && Extends(Then(log0, OnHeadersComplete), log)
    ensures Clean(Answers(w), log0)
  {
    hide RunChunks;
    var all := RunChunks(b, FRESH, chunks).toks;
    assert told + [HeadersComplete] == all[..|told| + 1] == Flatten(log)[..|told| + 1];
    log0 := SplitLog(log, told);
    CleanBefore(w, Then(log0, OnHeadersComplete), log);
  }

  lemma {:induction false} CleanBefore(w: Access, log0: History, log: History)
    requires Extends(log0, log) && log0.Then? && (Clean(Answers(w), log) || Rejected(Answers(w), log))
    ensures Clean(Answers(w), log0.earlier)
    decreases log
  {
    if log != log0 {
      CleanBefore(w, log0, log.earlier);
    }
  }

  lemma {:induction false} DataFollows(b: seq<byte>, w: Access, chunks: seq<seq<byte>>, first: History, log: History,
                    head: seq<byte>, s: seq<byte>, k: nat, log1: History)
    requires |b| > 0 && Restartable(Delimiter(b)) && Uploaded(b, w, chunks, first, log)
    requires chunks != [] && head <= chunks[0] && Flat(chunks) == head + s && FirstAt(Delimiter(b), s, k)
    requires var o := Run(b, FRESH, head); o.ok && o.m.phase.PartDataStart?
    requires Extends(log1, log) && Flatten(log1) == Run(b, FRESH, head).toks + [HeadersComplete]
    requires Opened(StateAfter(w, log1)) && Clean(Answers(w), log1)
    ensures var st := StateAfter(w, log);
            st.temp == Some(s[..k]) && st.response == Some(k > 0) && SameFile(StateAfter(w, log1), st)
  {
    hide Run;
    hide RunChunks;
    hide Flatten;
    BodyAcrossChunks(b, chunks, head, s, k);
    var all, full := RunChunks(b, FRESH, chunks).toks, Flatten(log1) + DataTokens(s[..k]) + [PartEnd];
    var more := all[|full|..];
    assert all == full + more;
    hide FirstAt;
    hide Restartable;
    AnsweredAtEnd(w, log1, log, s[..k], more);
  }

  /**
   * If the first chunk holds everything through the blank line of the first part that is file data,
   * then however the rest is cut: either the end of an earlier part was turned down, nothing is
   * written and the client is told so; or, `st` being what the callbacks know at that blank line,
   * exactly the bytes up to the first delimiter are written and the client is told of success if
   * there were any; or the session may not write that file, with the same result as before.
   */
  lemma {:induction false} FileWritten(b: seq<byte>, w: Access, chunks: seq<seq<byte>>, first: History, log: History,
                    head: seq<byte>, s: seq<byte>, k: nat) returns (log0: History)
    requires |b| > 0 && Restartable(Delimiter(b)) && Uploaded(b, w, chunks, first, log)
    requires chunks != [] && head <= chunks[0] && Flat(chunks) == head + s && FirstAt(Delimiter(b), s, k)
    requires var o := Run(b, FRESH, head);
             o.ok && o.m.phase.PartDataStart? && NoFile(o.toks) && HeadingAfter(o.toks).part == FileData
    ensures SameFile(StateAfter(w, log0), StateAfter(w, log))
    ensures var told, st, end := Run(b, FRESH, head).toks, StateAfter(w, log0), StateAfter(w, log);
            if |Flatten(log)| <= |told| then
              && log == Then(log0, OnPartDataEnd) && Flatten(log) <= told
              && st.part == SessionId && !w.upload(st.sessionid)
              && end.temp == None && end.response == Some(false)
            else
              && Flatten(log0) == told && Extends(Then(log0, OnHeadersComplete), log) && Clean(Answers(w), log0)
              && if Permitted(w, st) then end.temp == Some(s[..k]) && end.response == Some(k > 0)
                 else end.temp == None && end.response == Some(false)
  {
    var told, all := Run(b, FRESH, head).toks, RunChunks(b, FRESH, chunks).toks;
    BodyAcrossChunks(b, chunks, head, s, k);
    RunWalks(b, FRESH, head);
    hide *;
    HeadersTold(told, DataTokens(s[..k]), all);
    if |Flatten(log)| <= |told| {
      StopsEarly(b, w, chunks, first, log, told);
      log0 := log.earlier;
      EndsAlike(w, log0, OnPartDataEnd);
    } else {
      log0 := HeadersCall(b, w, chunks, first, log, told);
      EndsAlike(w, log0, OnHeadersComplete);
      FileBegins(w, log0, told);
      if Permitted(w, StateAfter(w, log0)) {
        OpenedThere(w, log0);
        FlattenHeaders(log0);
        DataFollows(b, w, chunks, first, log, head, s, k, Then(log0, OnHeadersComplete));
      } else {
        RefusedThere(w, log0);
        UploadEnds(b, w, chunks, first, log);
        NothingAfter(w, Then(log0, OnHeadersComplete), log);
      }
    }
  }

  lemma EndsAlike(w: Access, log: History, e: Event)
    requires !e.OnPartData?
    ensures SameFile(StateAfter(w, log), StateAfter(w, Then(log, e)))
  {
    hide PartOf;
    hide IsDisposition;
  }

  lemma UploadEnds(b: seq<byte>, w: Access, chunks: seq<seq<byte>>, first: History, log: History)
    requires |b| > 0 && Uploaded(b, w, chunks, first, log)
    ensures Clean(Answers(w), log) || Rejected(Answers(w), log)
  {
    hide RunChunks;
  }

  lemma {:induction false} StopsEarly(b: seq<byte>, w: Access, chunks: seq<seq<byte>>, first: History, log: History,
                                      told: seq<Token>)
    requires |b| > 0 && Uploaded(b, w, chunks, first, log) && |Flatten(log)| <= |told|
    requires told + [HeadersComplete] <= RunChunks(b, FRESH, chunks).toks && NoFile(told) && Walk(false, told).Some?
    ensures log.Then? && log.last == OnPartDataEnd && Flatten(log) <= told
    ensures var st := StateAfter(w, log.earlier); st.part == SessionId && !w.upload(st.sessionid)
    ensures var st := StateAfter(w, log); st.temp == None && st.response == Some(false)
  {
    var all := RunChunks(b, FRESH, chunks).toks;
    hide RunChunks;
    assert told == all[..|told|] && Flatten(log) == all[..|Flatten(log)|] == told[..|Flatten(log)|];
    hide Flatten;
    hide Walk;
    hide NoFile;
    hide Clean;
    TurnedDown(w, log, told);
  }

  /** At the blank line of the first file data nothing has been written yet. */
  lemma FileBegins(w: Access, log0: History, told: seq<Token>)
    requires Clean(Answers(w), log0) && Flatten(log0) == told && HeadingAfter(told).part == FileData
    requires Walk(false, told) == Some(false)
    ensures var st := StateAfter(w, log0); st.part == FileData && !st.filedata && st.temp == None
  {
    HeadingIsTold(w, log0);
    NothingWritten(w, log0);
    hide HeadingAfter;
    hide Walk;
    hide Clean;
  }

  lemma RefusedThere(w: Access, log0: History)
    requires var st := StateAfter(w, log0); st.part == FileData && !Permitted(w, st)
    ensures !Answers(w)(log0, OnHeadersComplete)
    ensures var st := StateAfter(w, Then(log0, OnHeadersComplete));
            st.temp == StateAfter(w, log0).temp && st.response == Some(false)
  {
  }

  lemma HeadersTold(told: seq<Token>, data: seq<Token>, all: seq<Token>)
    requires told + [HeadersComplete] + data + [PartEnd] <= all
    ensures told + [HeadersComplete] <= all
  {
    var n := |told| + 1;
    assert told + [HeadersComplete] == (told + [HeadersComplete] + data + [PartEnd])[..n] == all[..n];
  }

  lemma OpenedThere(w: Access, log0: History)
    requires var st := StateAfter(w, log0); st.part == FileData && !st.filedata && Permitted(w, st)
    requires Clean(Answers(w), log0)
    ensures Opened(StateAfter(w, Then(log0, OnHeadersComplete))) && Clean(Answers(w), Then(log0, OnHeadersComplete))
  {
  }

  lemma FlattenHeaders(log0: History)
    ensures Flatten(Then(log0, OnHeadersComplete)) == Flatten(log0) + [HeadersComplete]
  {
  }
}
