/**
 How a request cut into chunks compares with the same request in one piece,
 and the read loop of `main_upload`.
 */
module MultipartChunks {
  import opened Bytes
  import opened Common
  import opened MultipartMachine
  import opened MultipartParser

  /** Everything but header names and values. */
  function Strip(toks: seq<Token>): seq<Token> {
    if toks == [] then []
    else (if toks[0].Field? || toks[0].Value? then [] else [toks[0]]) + Strip(toks[1..])
  }

  lemma {:induction false} StripConcat(s: seq<Token>, t: seq<Token>)
    ensures Strip(s + t) == Strip(s) + Strip(t)
  {
    if s == [] {
      assert s + t == t;
    } else {
      StripConcat(s[1..], t);
      assert (s + t)[0] == s[0] && (s + t)[1..] == s[1..] + t;
      Associates(if s[0].Field? || s[0].Value? then [] else [s[0]], Strip(s[1..]), Strip(t));
    }
  }

  function Flat(chunks: seq<seq<byte>>): seq<byte> {
    if chunks == [] then [] else chunks[0] + Flat(chunks[1..])
  }

  /** One `Execute` call a chunk, until one of them fails. */
  function RunChunks(b: seq<byte>, m: Machine, chunks: seq<seq<byte>>): (o: Outcome)
    requires WellFormed(b, m)
    ensures WellFormed(b, o.m)
    decreases |chunks|
  {
    if chunks == [] then Outcome(m, [], 0, true)
    else
      var m0 := m.(acc := []);
      var o := Run(b, m0, chunks[0]);
      var d := Delivered(b, m0, chunks[0]);
      if o.ok then After(|chunks[0]|, d, RunChunks(b, o.m, chunks[1..]))
      else Outcome(o.m, d, o.used, false)
  }

  /** The same error or none, at the same offset, in the same state, having told the receiver the same. */
  predicate Alike(o: Outcome, p: Outcome) {
    && o.ok == p.ok && o.used == p.used
    && o.m.phase == p.m.phase && o.m.index == p.m.index
    && Strip(o.toks) == Strip(p.toks)
  }

  lemma StepAlike(b: seq<byte>, m: Machine, acc: seq<byte>, c: byte)
    requires WellFormed(b, m)
    ensures Alike(Step(b, m, c), Step(b, m.(acc := acc), c))
  {
    assert Strip([Field(m.acc)]) == Strip([Field(acc)]) == [];
    assert Strip([Value(m.acc)]) == Strip([Value(acc)]) == [];
  }

  lemma {:induction false} RunAlike(b: seq<byte>, m: Machine, acc: seq<byte>, s: seq<byte>)
    requires WellFormed(b, m)
    ensures Alike(Run(b, m, s), Run(b, m.(acc := acc), s))
    decreases |s|
  {
    if s != [] {
      StepAlike(b, m, acc, s[0]);
      var o, p := Step(b, m, s[0]), Step(b, m.(acc := acc), s[0]);
      hide Step;
      if o.ok {
        assert o.m.(acc := p.m.acc) == p.m;
        RunAlike(b, o.m, p.m.acc, s[1..]);
        StripConcat(o.toks, Run(b, o.m, s[1..]).toks);
        StripConcat(p.toks, Run(b, p.m, s[1..]).toks);
      }
    }
  }

  lemma TailIsStripped(m: Machine)
    ensures Strip(Tail(m)) == []
  {
  }

  /** However a request is cut, errors, part data and notifications are those of the request in one piece. */
  lemma {:induction false} ChunkInvariance(b: seq<byte>, m: Machine, chunks: seq<seq<byte>>)
    requires WellFormed(b, m)
    ensures Alike(RunChunks(b, m, chunks), Run(b, m, Flat(chunks)))
    decreases |chunks|
  {
    if chunks != [] {
      var c, rest := chunks[0], Flat(chunks[1..]);
      var o, p := Run(b, m.(acc := []), c), Run(b, m, c);
      RunAlike(b, m, [], c);
      RunConcat(b, m, c, rest);
      TailIsStripped(o.m);
      StripConcat(o.toks, if o.ok && c != [] then Tail(o.m) else []);
      hide Run;
      hide Tail;
      var d := Delivered(b, m.(acc := []), c);
      assert Strip(d) == Strip(p.toks);
      if o.ok {
        ChunkInvariance(b, o.m, chunks[1..]);
        RunAlike(b, o.m, p.m.acc, rest);
        assert o.m.(acc := p.m.acc) == p.m;
        StripConcat(d, RunChunks(b, o.m, chunks[1..]).toks);
        StripConcat(p.toks, Run(b, p.m, rest).toks);
      }
    }
  }

  /** The machine is not in the middle of a header name or value, nor right after the CR that ends a value. */
  predicate CleanCut(m: Machine) {
    m.phase !in {HeaderField, HeaderValue, HeaderValueAlmostDone}
  }

  lemma RunCleared(b: seq<byte>, m: Machine, s: seq<byte>)
    requires WellFormed(b, m) && CleanCut(m)
    ensures var o, p := Run(b, m, s), Run(b, m.(acc := []), s);
            o.ok == p.ok && o.used == p.used && o.toks == p.toks && o.m.(acc := []) == p.m.(acc := [])
            && (s != [] ==> o == p)
  {
    if s != [] {
      AccIgnored(b, m, [], s[0]);
    }
  }

  lemma SameChunks(b: seq<byte>, m: Machine, n: Machine, chunks: seq<seq<byte>>)
    requires WellFormed(b, m) && WellFormed(b, n) && m.(acc := []) == n.(acc := [])
    ensures RunChunks(b, m, chunks).toks == RunChunks(b, n, chunks).toks
  {
  }

  // ----- header names and values -----

  /** What follows continues the header name up to its colon. */
  predicate ReachesColon(s: seq<byte>) {
    s != [] && (s[0] == COLON || ((IsLetter(s[0]) || s[0] == HYPHEN) && ReachesColon(s[1..])))
  }

  /** The length of a header name that reaches its colon. */
  function NameLength(s: seq<byte>): (n: nat)
    requires ReachesColon(s)
    ensures n < |s| && s[n] == COLON
  {
    if s[0] == COLON then 0 else NameLength(s[1..]) + 1
  }

  /**
   A chunk may end outside header lines, or after a hyphen in a name that has no colon: not in a value,
   not after the CR of a value, and not after a letter of a name.
   */
  predicate HarmlessCut(m: Machine, rest: seq<byte>) {
    match m.phase
    case HeaderField => m.acc != [] && m.acc[|m.acc| - 1] == HYPHEN && !ReachesColon(rest)
    case _ => CleanCut(m)
  }

  /** All chunks end in such places. */
  predicate Harmless(b: seq<byte>, m: Machine, chunks: seq<seq<byte>>)
    requires WellFormed(b, m)
    decreases |chunks|
  {
    chunks == [] ||
    (var o := Run(b, m.(acc := []), chunks[0]);
     o.ok ==> (chunks[0] != [] ==> HarmlessCut(o.m, Flat(chunks[1..]))) && Harmless(b, o.m, chunks[1..]))
  }

  predicate SameButAcc(m: Machine, n: Machine) {
    m.phase == n.phase && m.index == n.index
  }

  lemma {:induction false} RunLengths(b: seq<byte>, m: Machine, n: Machine, s: seq<byte>)
    requires WellFormed(b, m) && WellFormed(b, n) && SameButAcc(m, n)
    ensures var o, p := Run(b, m, s), Run(b, n, s);
            o.ok == p.ok && |o.toks| == |p.toks| && SameButAcc(o.m, p.m)
    decreases |s|
  {
    if s != [] {
      assert var o, p := Step(b, m, s[0]), Step(b, n, s[0]);
             o.ok == p.ok && |o.toks| == |p.toks| && SameButAcc(o.m, p.m) by {
        assert n == m.(acc := n.acc);
      }
      var o, p := Step(b, m, s[0]), Step(b, n, s[0]);
      hide Step;
      if o.ok {
        RunLengths(b, o.m, p.m, s[1..]);
      }
    }
  }

  /** Cutting never loses a callback. */
  lemma {:induction false} NoFewer(b: seq<byte>, m: Machine, n: Machine, chunks: seq<seq<byte>>)
    requires WellFormed(b, m) && WellFormed(b, n) && SameButAcc(m, n)
    ensures |RunChunks(b, m, chunks).toks| >= |Run(b, n, Flat(chunks)).toks|
    decreases |chunks|
  {
    if chunks != [] {
      var c, rest := chunks[0], Flat(chunks[1..]);
      RunLengths(b, m.(acc := []), n, c);
      RunConcat(b, n, c, rest);
      var o, p := Run(b, m.(acc := []), c), Run(b, n, c);
      hide Run;
      hide Tail;
      if o.ok {
        NoFewer(b, o.m, p.m, chunks[1..]);
      }
    }
  }

  lemma StepInName(b: seq<byte>, m: Machine, c: byte)
    requires |b| > 0 && m.phase.HeaderField? && (IsLetter(c) || c == HYPHEN)
    ensures Step(b, m, c) == Accept(HeaderField, m.index, m.acc + [c], [])
  {
  }

  /** The first token of a name that reaches its colon. */
  lemma {:induction false} NameToken(b: seq<byte>, n: Machine, s: seq<byte>)
    requires |b| > 0 && n.phase.HeaderField? && ReachesColon(s)
    ensures var o := Run(b, n, s); |o.toks| > 0 && o.toks[0] == Field(n.acc + s[..NameLength(s)])
    decreases |s|
  {
    if s[0] == COLON {
      assert Step(b, n, s[0]) == Accept(HeaderValueStart, n.index, [], [Field(n.acc)]);
      assert n.acc + s[..0] == n.acc;
    } else {
      StepInName(b, n, s[0]);
      NameToken(b, n.(acc := n.acc + [s[0]]), s[1..]);
      assert n.acc + [s[0]] + s[1..][..NameLength(s[1..])] == n.acc + s[..NameLength(s)];
    }
  }

  lemma {:induction false} ColonInFront(c: seq<byte>, rest: seq<byte>)
    ensures ReachesColon(c) ==> ReachesColon(c + rest) && NameLength(c + rest) == NameLength(c)
    decreases |c|
  {
    if c != [] {
      assert (c + rest)[0] == c[0] && (c + rest)[1..] == c[1..] + rest;
      ColonInFront(c[1..], rest);
    }
  }

  /** A name that reaches its colon only after `c`: all of `c` belongs to it. */
  lemma {:induction false} NameAcross(b: seq<byte>, n: Machine, c: seq<byte>, rest: seq<byte>)
    requires |b| > 0 && n.phase.HeaderField? && ReachesColon(c + rest) && !ReachesColon(c)
    ensures Run(b, n, c) == Outcome(Machine(HeaderField, n.index, n.acc + c), [], |c|, true)
    ensures ReachesColon(rest) && NameLength(c + rest) == |c| + NameLength(rest)
    decreases |c|
  {
    if c == [] {
      assert c + rest == rest && n.acc + c == n.acc;
    } else {
      assert (c + rest)[0] == c[0] && (c + rest)[1..] == c[1..] + rest;
      StepInName(b, n, c[0]);
      NameAcross(b, n.(acc := n.acc + [c[0]]), c[1..], rest);
      assert n.acc + [c[0]] + c[1..] == n.acc + c;
    }
  }

  /** In chunks, the first name delivered is no longer than what is left of the name. */
  lemma {:induction false} FirstName(b: seq<byte>, m: Machine, chunks: seq<seq<byte>>)
    requires |b| > 0 && m.phase.HeaderField? && ReachesColon(Flat(chunks))
    ensures var toks := RunChunks(b, m, chunks).toks;
            |toks| > 0 && toks[0].Field? && |toks[0].name| <= NameLength(Flat(chunks))
    decreases |chunks|
  {
    var c, rest, m0 := chunks[0], Flat(chunks[1..]), m.(acc := []);
    var o := Run(b, m0, c);
    ColonInFront(c, rest);
    FirstTokens(b, m, chunks);
    if ReachesColon(c) {
      NameToken(b, m0, c);
      hide RunChunks;
    } else {
      NameAcross(b, m0, c, rest);
      assert [] + c == c;
      FirstName(b, o.m, chunks[1..]);
      hide RunChunks;
      hide Run;
    }
  }

  lemma RunChunksToks(b: seq<byte>, m: Machine, chunks: seq<seq<byte>>)
    requires |b| > 0 && WellFormed(b, m) && chunks != []
    ensures var o := Run(b, m.(acc := []), chunks[0]);
            RunChunks(b, m, chunks).toks ==
            Delivered(b, m.(acc := []), chunks[0]) + if o.ok then RunChunks(b, o.m, chunks[1..]).toks else []
  {
    hide Run;
    hide Delivered;
    hide WellFormed;
  }

  lemma DeliveredTokens(b: seq<byte>, m: Machine, c: seq<byte>)
    requires |b| > 0 && WellFormed(b, m)
    ensures Run(b, m, c).toks <= Delivered(b, m, c)
    ensures Run(b, m, c) == Outcome(Machine(HeaderField, m.index, c), [], |c|, true) ==>
              Delivered(b, m, c) == [] || (c != [] && Delivered(b, m, c) == [Field(c)])
  {
    hide Run;
  }

  /** The first token: one of the first chunk, or the piece of a name it ends in, or what the others begin with. */
  lemma FirstTokens(b: seq<byte>, m: Machine, chunks: seq<seq<byte>>)
    requires |b| > 0 && WellFormed(b, m) && chunks != []
    ensures var o, toks := Run(b, m.(acc := []), chunks[0]), RunChunks(b, m, chunks).toks;
            && (o.toks != [] ==> toks != [] && toks[0] == o.toks[0])
            && (o == Outcome(Machine(HeaderField, m.index, chunks[0]), [], |chunks[0]|, true) ==>
                  var later := RunChunks(b, o.m, chunks[1..]).toks;
                  toks == later || (chunks[0] != [] && toks == [Field(chunks[0])] + later))
  {
    RunChunksToks(b, m, chunks);
    DeliveredTokens(b, m.(acc := []), chunks[0]);
    hide Run;
    hide RunChunks;
    hide Delivered;
    hide WellFormed;
    var later := RunChunks(b, Run(b, m.(acc := []), chunks[0]).m, chunks[1..]).toks;
    assert [] + later == later;
  }

  /** Names without a colon are never delivered, so that it does not matter what they are. */
  lemma {:induction false} NoColonSame(b: seq<byte>, m: Machine, n: Machine, s: seq<byte>)
    requires |b| > 0 && m.phase.HeaderField? && SameButAcc(m, n) && !ReachesColon(s)
    ensures var o, p := Run(b, m, s), Run(b, n, s);
            o.ok == p.ok && o.used == p.used && o.toks == p.toks && SameButAcc(o.m, p.m)
    decreases |s|
  {
    if s != [] {
      var c := s[0];
      if IsLetter(c) || c == HYPHEN {
        StepInName(b, m, c);
        StepInName(b, n, c);
        NoColonSame(b, m.(acc := m.acc + [c]), n.(acc := n.acc + [c]), s[1..]);
      } else if c == CR {
        assert Step(b, m, c) == Step(b, n, c);
      } else {
        assert !Step(b, m, c).ok && Step(b, m, c).toks == [] == Step(b, n, c).toks;
      }
    }
  }

  lemma NameInProgress(b: seq<byte>, m: Machine, s: seq<byte>)
    requires WellFormed(b, m) && s != []
    ensures var o := Run(b, m, s); o.ok && o.m.phase.HeaderField? ==> o.m.acc != []
  {
    var front, c := s[..|s| - 1], s[|s| - 1];
    assert s == front + [c];
    RunConcat(b, m, front, [c]);
    var o := Run(b, m, front);
    if o.ok {
      RunOne(b, o.m, c);
      StepInProgress(b, o.m, c);
    }
    hide Run;
    hide Step;
  }

  lemma StepInProgress(b: seq<byte>, m: Machine, c: byte)
    requires WellFormed(b, m)
    ensures var o := Step(b, m, c); o.ok && o.m.phase.HeaderField? ==> o.m.acc != []
  {
  }

  /** A chunk read after a cut and the same bytes read without it. */
  lemma ChunkSame(b: seq<byte>, m: Machine, n: Machine, c: seq<byte>)
    requires WellFormed(b, m) && WellFormed(b, n) && SameButAcc(m, n)
    requires CleanCut(m) || (m.phase.HeaderField? && !ReachesColon(c))
    ensures var o, p := Run(b, m.(acc := []), c), Run(b, n, c);
            o.ok == p.ok && o.toks == p.toks && SameButAcc(o.m, p.m)
  {
    var m0 := m.(acc := []);
    if CleanCut(m) {
      RunCleared(b, m0, c);
      RunCleared(b, n, c);
      assert n.(acc := []) == m0.(acc := []);
    } else {
      NoColonSame(b, m0, n, c);
    }
  }

  lemma CutTail(m: Machine, rest: seq<byte>)
    requires m.phase.HeaderField? ==> m.acc != []
    ensures HarmlessCut(m, rest) <==> Tail(m) == [] && (m.phase.HeaderField? ==> !ReachesColon(rest))
    ensures |Tail(m)| <= 1 && (Tail(m) == [] ==> CleanCut(m) || m.phase.HeaderField?)
  {
  }

  /** From a name that is under way, a chunk later. */
  lemma ExactStep(b: seq<byte>, m: Machine, n: Machine, chunks: seq<seq<byte>>)
    requires WellFormed(b, m) && WellFormed(b, n) && SameButAcc(m, n) && chunks != [] && chunks[0] != []
    requires CleanCut(m) || (m.phase.HeaderField? && !ReachesColon(Flat(chunks)))
    requires var o, p := Run(b, m.(acc := []), chunks[0]), Run(b, n, chunks[0]);
             o.ok && Tail(o.m) == [] ==>
               (RunChunks(b, o.m, chunks[1..]).toks == Run(b, p.m, Flat(chunks[1..])).toks <==>
                Harmless(b, o.m, chunks[1..]) && (o.m.phase.HeaderField? ==> !ReachesColon(Flat(chunks[1..]))))
    ensures RunChunks(b, m, chunks).toks == Run(b, n, Flat(chunks)).toks <==> Harmless(b, m, chunks)
  {
    var c, later, m0 := chunks[0], chunks[1..], m.(acc := []);
    var rest := Flat(later);
    ColonInFront(c, rest);
    ChunkSame(b, m, n, c);
    RunConcat(b, n, c, rest);
    NameInProgress(b, m0, c);
    RunChunksToks(b, m, chunks);
    var o, p := Run(b, m0, c), Run(b, n, c);
    hide Run;
    hide RunChunks;
    hide ReachesColon;
    hide NameLength;
    hide Step;
    hide CleanCut;
    hide WellFormed;
    if o.ok {
      CutTail(o.m, rest);
      NoFewer(b, o.m, p.m, later);
      hide Tail;
      hide HarmlessCut;
      OneMore(o.toks, Tail(o.m), RunChunks(b, o.m, later).toks, Run(b, p.m, rest).toks);
    }
  }

  lemma OneMore(toks: seq<Token>, tail: seq<Token>, s: seq<Token>, t: seq<Token>)
    requires |s| >= |t|
    ensures toks + tail + s == toks + t <==> tail == [] && s == t
  {
    assert toks + tail + s == toks + t <==> tail + s == t by {
      Associates(toks, tail, s);
      if toks + (tail + s) == toks + t {
        assert (toks + (tail + s))[|toks|..] == tail + s && (toks + t)[|toks|..] == t;
      }
    }
    if tail == [] {
      assert [] + s == s;
    }
  }

  lemma EmptyChunk(b: seq<byte>, m: Machine, chunks: seq<seq<byte>>)
    requires WellFormed(b, m) && chunks != [] && chunks[0] == []
    ensures RunChunks(b, m, chunks).toks == RunChunks(b, m.(acc := []), chunks[1..]).toks
    ensures Flat(chunks) == Flat(chunks[1..])
    ensures Harmless(b, m, chunks) == Harmless(b, m.(acc := []), chunks[1..])
  {
    var m0 := m.(acc := []);
    assert Run(b, m0, []) == Outcome(m0, [], 0, true);
    hide Harmless;
    var toks := RunChunks(b, m0, chunks[1..]).toks;
    assert [] + toks == toks && [] + Flat(chunks[1..]) == Flat(chunks[1..]);
    assert Harmless(b, m, chunks) == Harmless(b, m.(acc := []), chunks[1..]) by {
      var m0 := m.(acc := []);
      assert Run(b, m0, []) == Outcome(m0, [], 0, true);
      hide Run;
      hide HarmlessCut;
    }
  }

  lemma {:induction false} Exact(b: seq<byte>, m: Machine, n: Machine, chunks: seq<seq<byte>>)
    requires WellFormed(b, m) && WellFormed(b, n) && SameButAcc(m, n)
    requires CleanCut(m) || (m.phase.HeaderField? && n.acc != [])
    ensures RunChunks(b, m, chunks).toks == Run(b, n, Flat(chunks)).toks <==>
            Harmless(b, m, chunks) && (m.phase.HeaderField? ==> !ReachesColon(Flat(chunks)))
    decreases |chunks|
  {
    if chunks == [] {
    } else if chunks[0] == [] {
      EmptyChunk(b, m, chunks);
      hide *;
      Exact(b, m.(acc := []), n, chunks[1..]) by { CleanStays(m); }
    } else if m.phase.HeaderField? && ReachesColon(Flat(chunks)) {
      // A name that is cut loses what stands before the cut.
      assert RunChunks(b, m, chunks).toks != Run(b, n, Flat(chunks)).toks by {
        FirstName(b, m, chunks);
        NameToken(b, n, Flat(chunks));
        hide RunChunks;
        hide Run;
      }
    } else {
      var m0 := m.(acc := []);
      var o, p := Run(b, m0, chunks[0]), Run(b, n, chunks[0]);
      var c, rest := chunks[0], Flat(chunks[1..]);
      assert Flat(chunks) == c + rest;
      hide Run;
      hide RunChunks;
      hide Harmless;
      hide Flat;
      ColonInFront(c, rest);
      hide ReachesColon;
      ChunkSame(b, m, n, c);
      NameInProgress(b, m0, c);
      NameInProgress(b, n, c);
      if o.ok && Tail(o.m) == [] {
        CutTail(o.m, rest);
        Exact(b, o.m, p.m, chunks[1..]);
      }
      ExactStep(b, m, n, chunks);
    }
  }

  lemma CleanStays(m: Machine)
    ensures CleanCut(m.(acc := [])) == CleanCut(m)
  {
  }

  /** Header names and values are delivered as in one call if and only if every cut is harmless. */
  lemma HeadersExactly(b: seq<byte>, m: Machine, chunks: seq<seq<byte>>)
    requires WellFormed(b, m) && CleanCut(m)
    ensures RunChunks(b, m, chunks).toks == Run(b, m, Flat(chunks)).toks <==> Harmless(b, m, chunks)
  {
    Exact(b, m, m, chunks);
  }

  /** How many callbacks answered with an error, each of which has printed a response. */
  function Responses(accepts: Callbacks, log: History): nat {
    match log
    case NoCalls => 0
    case Then(earlier, e) => Responses(accepts, earlier) + if accepts(earlier, e) then 0 else 1
  }

  predicate Extends(log0: History, log: History) {
    log == log0 || (log.Then? && Extends(log0, log.earlier))
  }

  lemma {:induction false} LumpedExtends(origin: History, log: History)
    requires Lumped(origin, log)
    ensures Extends(origin, log)
    decreases log
  {
    if log != origin {
      LumpedExtends(origin, log.earlier);
    }
  }

  lemma {:induction false} ExtendsOn(a: History, log: History, log': History)
    requires Extends(a, log) && Extends(log, log')
    ensures Extends(a, log')
    decreases log'
  {
    if log' != log {
      ExtendsOn(a, log, log'.earlier);
    }
  }

  /** `first` are the calls made for the first chunk, which was read to its end if there are more. */
  ghost predicate FirstCalls(b: seq<byte>, accepts: Callbacks, chunks: seq<seq<byte>>, first: History, log: History)
    requires |b| > 0
  {
    && Extends(first, log) && Lumped(NoCalls, first)
    && (first == log || (chunks != [] && Clean(accepts, first) && Flatten(first) == Delivered(b, FRESH, chunks[0])))
  }

  lemma CleanIsSilent(accepts: Callbacks, log: History)
    ensures Clean(accepts, log) ==> Responses(accepts, log) == 0
    ensures Rejected(accepts, log) ==> Responses(accepts, log) == 1
  {
  }

  lemma RunChunksNext(b: seq<byte>, m: Machine, chunks: seq<seq<byte>>, k: nat)
    requires WellFormed(b, m) && k < |chunks|
    ensures var o, d := Run(b, m.(acc := []), chunks[k]), Delivered(b, m.(acc := []), chunks[k]);
            RunChunks(b, m, chunks[k..]) ==
            if o.ok then After(|chunks[k]|, d, RunChunks(b, o.m, chunks[k + 1..])) else Outcome(o.m, d, o.used, false)
  {
    assert chunks[k..][0] == chunks[k] && chunks[k..][1..] == chunks[k + 1..];
    hide Run;
    hide Delivered;
  }

  /** The state of the read loop after `k` chunks, as long as no callback has failed. */
  ghost predicate Reading(b: seq<byte>, chunks: seq<seq<byte>>, k: nat, m: Machine, phase: Phase, index: nat,
                          taken: nat, done: bool, told: seq<Token>)
    requires WellFormed(b, FRESH) && WellFormed(b, m) && k <= |chunks|
  {
    var full := RunChunks(b, FRESH, chunks);
    && m.phase == phase && m.index == index
    && full == if done then Outcome(m, told, taken, false) else After(taken, told, RunChunks(b, m, chunks[k..]))
  }

  lemma {:induction false} ReadNext(b: seq<byte>, chunks: seq<seq<byte>>, k: nat, m: Machine, taken: nat,
                                    told: seq<Token>)
    requires |b| > 0 && WellFormed(b, m) && k < |chunks|
    requires Reading(b, chunks, k, m, m.phase, m.index, taken, false, told)
    ensures var o, d := Run(b, m.(acc := []), chunks[k]), Delivered(b, m.(acc := []), chunks[k]);
            Reading(b, chunks, k + 1, o.m, o.m.phase, o.m.index, taken + o.used, o.used < |chunks[k]|, told + d)
  {
    hide Run;
    hide Delivered;
    hide RunChunks;
    RunChunksNext(b, m, chunks, k);
    var o, d := Run(b, m.(acc := []), chunks[k]), Delivered(b, m.(acc := []), chunks[k]);
    if o.ok {
      var rest := RunChunks(b, o.m, chunks[k + 1..]);
      assert After(taken, told, After(|chunks[k]|, d, rest)) == After(taken + |chunks[k]|, told + d, rest) by {
        Associates(told, d, rest.toks);
      }
    }
    hide After;
  }

  /**
   `o` is what reading the request in one piece gives; header callbacks
   included if and only if every cut is harmless to them.
   */
  ghost predicate Equivalent(b: seq<byte>, chunks: seq<seq<byte>>, o: Outcome)
    requires |b| > 0
  {
    var whole := Run(b, FRESH, Flat(chunks));
    Alike(o, whole) && (o.toks == whole.toks <==> Harmless(b, FRESH, chunks))
  }

  /** What the receiver and the caller know once the input is exhausted. */
  lemma {:induction false} ReadAll(b: seq<byte>, chunks: seq<seq<byte>>, m: Machine, taken: nat, done: bool,
                                   told: seq<Token>)
    requires |b| > 0 && WellFormed(b, m)
    requires Reading(b, chunks, |chunks|, m, m.phase, m.index, taken, done, told)
    ensures Equivalent(b, chunks, Outcome(Machine(m.phase, m.index, []), told, taken, !done))
    ensures told == RunChunks(b, FRESH, chunks).toks
  {
    hide Run;
    var full := RunChunks(b, FRESH, chunks);
    if !done {
      assert RunChunks(b, m, chunks[|chunks|..]) == Outcome(m, [], 0, true);
      assert told + [] == told;
    }
    hide RunChunks;
    assert full == Outcome(m, told, taken, !done);
    ChunkInvariance(b, FRESH, chunks);
    HeadersExactly(b, FRESH, chunks);
  }

  /** What has been told is how the whole story begins. */
  lemma {:induction false} ToldIsPrefix(b: seq<byte>, chunks: seq<seq<byte>>, k: nat, m: Machine, taken: nat,
                                        done: bool, told: seq<Token>)
    requires |b| > 0 && WellFormed(b, m) && k <= |chunks|
    requires Reading(b, chunks, k, m, m.phase, m.index, taken, done, told)
    ensures told <= RunChunks(b, FRESH, chunks).toks
  {
    hide RunChunks;
  }

  lemma {:induction false} ReadMore(b: seq<byte>, accepts: Callbacks, chunks: seq<seq<byte>>, k: nat, m: Machine,
                                    taken: nat,
                 told: seq<Token>, log: History, phase: Phase, index: nat, rem: nat) returns (m': Machine)
    requires |b| > 0 && WellFormed(b, m) && k < |chunks|
    requires Reading(b, chunks, k, m, m.phase, m.index, taken, false, told)
    requires Performed(b, accepts, m.(acc := []), chunks[k], told, log, phase, index, rem)
    ensures WellFormed(b, m')
    ensures !Clean(accepts, log) ==>
              Rejected(accepts, log) && rem < |chunks[k]| && Flatten(log) <= RunChunks(b, FRESH, chunks).toks
    ensures Clean(accepts, log) ==>
              m'.phase == phase && m'.index == index &&
              Reading(b, chunks, k + 1, m', phase, index, taken + rem, rem < |chunks[k]|, Flatten(log))
  {
    hide Reading;
    hide Run;
    hide RunChunks;
    hide Delivered;
    hide Clean;
    hide Rejected;
    hide Flatten;
    var o, d := Run(b, m.(acc := []), chunks[k]), Delivered(b, m.(acc := []), chunks[k]);
    m' := o.m;
    ReadNext(b, chunks, k, m, taken, told);
    ToldIsPrefix(b, chunks, k + 1, o.m, taken + o.used, o.used < |chunks[k]|, told + d);
  }

  lemma ReadStart(b: seq<byte>, chunks: seq<seq<byte>>)
    requires |b| > 0
    ensures Reading(b, chunks, 0, FRESH, Start, 0, 0, false, [])
  {
    assert chunks[0..] == chunks;
    var full := RunChunks(b, FRESH, chunks);
    hide RunChunks;
    assert [] + full.toks == full.toks;
  }

  ghost predicate FirstRead(b: seq<byte>, accepts: Callbacks, chunks: seq<seq<byte>>, first: History)
    requires |b| > 0
  {
    chunks != [] && Lumped(NoCalls, first) && Clean(accepts, first) && Flatten(first) == Delivered(b, FRESH, chunks[0])
  }

  /** What is known of the calls after `k` chunks. */
  ghost predicate Calling(b: seq<byte>, accepts: Callbacks, chunks: seq<seq<byte>>, k: nat, first: History,
                          log: History, phase: Phase, index: nat, done: bool)
    requires |b| > 0
  {
    && Ordered(log) && FirstCalls(b, accepts, chunks, first, log)
    && (k == 0 ==> log == NoCalls && Machine(phase, index, []) == FRESH)
    && (!done ==> InStep(log, phase) && (k > 0 ==> FirstRead(b, accepts, chunks, first)))
  }

  lemma CallingStarts(b: seq<byte>, accepts: Callbacks, chunks: seq<seq<byte>>)
    requires |b| > 0
    ensures Calling(b, accepts, chunks, 0, NoCalls, NoCalls, Start, 0, false)
  {
  }

  lemma {:induction false} CallingFor(b: seq<byte>, accepts: Callbacks, chunks: seq<seq<byte>>, k: nat,
                                      first: History, log: History,
                   phase: Phase, index: nat)
    requires |b| > 0 && Calling(b, accepts, chunks, k, first, log, phase, index, false)
    ensures Ordered(log) && InStep(log, phase)
  {
  }

  lemma {:induction false} Called(b: seq<byte>, accepts: Callbacks, chunks: seq<seq<byte>>, k: nat, first: History,
                                  log: History,
               phase: Phase, index: nat, done: bool)
    requires |b| > 0 && Calling(b, accepts, chunks, k, first, log, phase, index, done)
    ensures Ordered(log) && FirstCalls(b, accepts, chunks, first, log)
  {
  }

  lemma {:induction false} CallingOn(b: seq<byte>, accepts: Callbacks, chunks: seq<seq<byte>>, k: nat, first: History,
                                     before: History,
                  phase0: Phase, index0: nat, log: History, phase: Phase, index: nat, rem: nat)
    returns (first': History)
    requires |b| > 0 && k < |chunks| && Calling(b, accepts, chunks, k, first, before, phase0, index0, false)
    requires WellFormed(b, Machine(phase0, index0, [])) && rem <= |chunks[k]|
    requires Performed(b, accepts, Machine(phase0, index0, []), chunks[k], Flatten(before), log, phase, index, rem)
    requires Ordered(log) && Lumped(before, log) && (Clean(accepts, log) ==> InStep(log, phase))
    ensures Calling(b, accepts, chunks, k + 1, first', log, phase, index, rem < |chunks[k]|)
  {
    hide Run;
    hide Delivered;
    hide Ordered;
    hide InStep;
    LumpedExtends(before, log);
    if k == 0 {
      first' := log;
      assert [] + Delivered(b, FRESH, chunks[0]) == Delivered(b, FRESH, chunks[0]);
    } else {
      first' := first;
      ExtendsOn(first, before, log);
    }
    hide Extends;
    hide Lumped;
  }

  lemma UploadStarts(p: Parser)
    requires p.Valid() && Machine(p.phase, p.index, []) == FRESH && p.log == NoCalls
    ensures |p.boundary| > 0 && WellFormed(p.boundary, FRESH)
    ensures p.phase == Start && p.index == 0 && Flatten(p.log) == [] && Clean(p.accepts, p.log)
  {
  }

  lemma {:induction false} AlreadyDone(b: seq<byte>, accepts: Callbacks, chunks: seq<seq<byte>>, k: nat, m: Machine,
                                       first: History,
                    log: History, phase: Phase, index: nat, taken: nat, told: seq<Token>)
    requires |b| > 0 && k < |chunks| && WellFormed(b, m)
             && Calling(b, accepts, chunks, k, first, log, phase, index, true)
    ensures Calling(b, accepts, chunks, k + 1, first, log, phase, index, true)
    ensures Reading(b, chunks, k, m, phase, index, taken, true, told) ==>
              Reading(b, chunks, k + 1, m, phase, index, taken, true, told)
  {
  }

  lemma StillWellFormed(p: Parser)
    requires p.Valid()
    ensures |p.boundary| > 0 && WellFormed(p.boundary, Machine(p.phase, p.index, []))
  {
  }

  lemma Cleared(m: Machine, phase: Phase, index: nat)
    requires m.phase == phase && m.index == index
    ensures m.(acc := []) == Machine(phase, index, [])
  {
  }

  /** The read loop of `main_upload`: once the parser stops early, later chunks are read and ignored. */
  method Upload(p: Parser, chunks: seq<seq<byte>>) returns (taken: nat, done: bool, ghost first: History)
    requires p.Valid() && Machine(p.phase, p.index, []) == FRESH && p.log == NoCalls
    modifies p, p.lookbehind
    ensures Ordered(p.log) && FirstCalls(p.boundary, p.accepts, chunks, first, p.log)
    ensures Responses(p.accepts, p.log) <= 1
    ensures Responses(p.accepts, p.log) == 1 ==> done && Rejected(p.accepts, p.log)
    ensures Responses(p.accepts, p.log) == 0 ==> Clean(p.accepts, p.log)
    ensures Flatten(p.log) <= RunChunks(p.boundary, FRESH, chunks).toks
    ensures Clean(p.accepts, p.log) ==> Flatten(p.log) == RunChunks(p.boundary, FRESH, chunks).toks
    ensures Responses(p.accepts, p.log) == 0 ==>
              Equivalent(p.boundary, chunks, Outcome(Machine(p.phase, p.index, []), Flatten(p.log), taken, !done))
  {
    hide *;
    taken, done, first := 0, false, NoCalls;
    ghost var m := FRESH;
    UploadStarts(p);
    ReadStart(p.boundary, chunks);
    CallingStarts(p.boundary, p.accepts, chunks);
    for k := 0 to |chunks|
      invariant WellFormed(p.boundary, m)
      invariant Clean(p.accepts, p.log) ||
                  (Rejected(p.accepts, p.log) && done && Flatten(p.log) <= RunChunks(p.boundary, FRESH, chunks).toks)
      invariant !done ==> p.Valid()
      invariant Calling(p.boundary, p.accepts, chunks, k, first, p.log, p.phase, p.index, done)
      invariant Clean(p.accepts, p.log) ==>
                  && m.phase == p.phase && m.index == p.index
                  && Reading(p.boundary, chunks, k, m, p.phase, p.index, taken, done, Flatten(p.log))
    {
      if !done {
        ghost var told, before, phase, index := Flatten(p.log), p.log, p.phase, p.index;
        CallingFor(p.boundary, p.accepts, chunks, k, first, before, phase, index);
        StillWellFormed(p);
        Cleared(m, phase, index);
        var rem := p.Execute(chunks[k]);
        first := CallingOn(p.boundary, p.accepts, chunks, k, first, before, phase, index, p.log, p.phase, p.index, rem);
        m := ReadMore(p.boundary, p.accepts, chunks, k, m, taken, told, p.log, p.phase, p.index, rem);
        taken := taken + rem;
        done := rem < |chunks[k]|;
      } else {
        AlreadyDone(p.boundary, p.accepts, chunks, k, m, first, p.log, p.phase, p.index, taken, Flatten(p.log));
      }
    }
    Called(p.boundary, p.accepts, chunks, |chunks|, first, p.log, p.phase, p.index, done);
    CleanIsSilent(p.accepts, p.log);
    if Clean(p.accepts, p.log) {
      ToldIsPrefix(p.boundary, chunks, |chunks|, m, taken, done, Flatten(p.log));
      ReadAll(p.boundary, chunks, m, taken, done, Flatten(p.log));
    }
  }
}
