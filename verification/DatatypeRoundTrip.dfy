/** Printing datatype expressions, and compiling them back. */
module DatatypeRoundTrip {
  import opened Common
  import opened DatatypeCompiler

  datatype Quote = Single | Double

  function Mark(q: Quote): string {
    if q.Single? then "'" else "\""
  }

  /**
   A number, a string in either quotes, a validator without an argument list, or one with arguments: each with
   the blanks before and after it, the last also with those before its parenthesis.
   */
  datatype Expr =
    | Num(lead: string, text: string, trail: string)
    | Str(lead: string, quote: Quote, text: string, trail: string)
    | Bare(lead: string, name: string, trail: string)
    | Call(lead: string, name: string, before: string, args: seq<Expr>, trail: string)

  predicate IsSpecial(c: char) {
    c == '\\' || c == '(' || c == ')' || c == ','
  }

  function Escape(s: string): string {
    if s == "" then ""
    else (if IsSpecial(s[0]) then ['\\', s[0]] else [s[0]]) + Escape(s[1..])
  }

  /** The expression without the blanks around it. */
  function PrintCore(e: Expr): string
    decreases e, 0
  {
    match e
    case Num(_, text, _) => text
    case Str(_, q, text, _) => Mark(q) + Escape(text) + Mark(q)
    case Bare(_, name, _) => name
    case Call(_, name, before, args, _) => name + before + ("(" + (Print(args) + ")"))
  }

  function PrintExpr(e: Expr): string
    decreases e, 1
  {
    e.lead + (PrintCore(e) + e.trail)
  }

  /** Expressions with commas in between. */
  function Print(es: seq<Expr>): string
    decreases es
  {
    if es == [] then ""
    else if |es| == 1 then PrintExpr(es[0])
    else PrintExpr(es[0]) + ("," + Print(es[1..]))
  }

  function Flat(e: Expr): seq<Item>
    decreases e
  {
    match e
    case Num(_, text, _) => [Number(text)]
    case Str(_, _, text, _) => [Text(text)]
    case Bare(_, name, _) => [Validator(name), NoArgs]
    case Call(_, name, _, args, _) => [Validator(name), Args(Flats(args))]
  }

  function Flats(es: seq<Expr>): seq<Item>
    decreases es
  {
    if es == [] then [] else Flat(es[0]) + Flats(es[1..])
  }

  /** No blanks after a closing parenthesis, at any depth. */
  predicate Neat(e: Expr)
    decreases e
  {
    e.Call? ==> e.trail == "" && AllNeat(e.args)
  }

  predicate AllNeat(es: seq<Expr>)
    decreases es
  {
    es == [] || (Neat(es[0]) && AllNeat(es[1..]))
  }

  predicate Blanks(s: string) {
    forall i :: 0 <= i < |s| ==> s[i] in " \t"
  }

  predicate OneLine(s: string) {
    forall i :: 0 <= i < |s| ==> s[i] !in "\n\r\U{2028}\U{2029}"
  }

  /** Written as it is: no character of its own meaning, no blank at either end. */
  predicate Verbatim(s: string) {
    && s != "" && s[0] !in " \t" && s[|s| - 1] !in " \t"
    && forall i :: 0 <= i < |s| ==> !IsSpecial(s[i])
  }

  predicate Callable(lex: Lexicon, name: string) {
    Verbatim(name) && !lex.numeric(name) && !IsQuoted(name) && name in lex.types
  }

  predicate Printable(lex: Lexicon, e: Expr)
    decreases e
  {
    && Blanks(e.lead) && Blanks(e.trail)
    && match e
       case Num(_, text, _) => Verbatim(text) && lex.numeric(text)
       case Str(_, q, text, _) => !lex.numeric(Mark(q) + text + Mark(q)) && OneLine(text)
       case Bare(_, name, _) => Callable(lex, name)
       case Call(_, name, before, args, _) => Callable(lex, name) && Blanks(before) && AllPrintable(lex, args)
  }

  predicate AllPrintable(lex: Lexicon, es: seq<Expr>)
    decreases es
  {
    es == [] || (Printable(lex, es[0]) && AllPrintable(lex, es[1..]))
  }

  // ----- text the scan passes over -----

  /** Ordinary and escaped characters only. */
  predicate Quiet(s: string) {
    s == "" ||
    (if s[0] == ESCAPE then |s| > 1 && Quiet(s[2..]) else !IsSpecial(s[0]) && Quiet(s[1..]))
  }

  predicate Ended(rest: string) {
    rest != "" && EndsWithComma(rest)
  }

  lemma EndedAfter(s: string, rest: string)
    requires Ended(rest) || (s == "," && EndsWithComma(rest))
    ensures Ended(s + rest) && EndsWithComma(s + rest)
  {
  }

  lemma {:induction false} ScanNext(lex: Lexicon, c: char, rest: string, token: string, depth: int, stack: seq<Item>)
    requires Ended(rest) && !IsSpecial(c)
    ensures EndsWithComma([c] + rest)
    ensures Scan(lex, [c] + rest, token, false, depth, stack) == Scan(lex, rest, token + [c], false, depth, stack)
  {
    assert ([c] + rest)[1..] == rest;
  }

  lemma {:induction false} ScanEscaped(lex: Lexicon, c: char, rest: string, token: string, depth: int, stack: seq<Item>)
    requires Ended(rest)
    ensures EndsWithComma([ESCAPE, c] + rest)
    ensures Scan(lex, [ESCAPE, c] + rest, token, false, depth, stack) ==
            Scan(lex, rest, token + [ESCAPE, c], false, depth, stack)
  {
    var s := [ESCAPE, c] + rest;
    assert s[1..] == [c] + rest && s[1..][1..] == rest;
    assert token + [ESCAPE] + [c] == token + [ESCAPE, c];
    assert Scan(lex, s, token, false, depth, stack) == Scan(lex, s[1..], token + [ESCAPE], true, depth, stack);
  }

  lemma {:induction false} PassesQuiet(lex: Lexicon, s: string, rest: string, token: string, depth: int,
                                       stack: seq<Item>)
    requires Quiet(s) && Ended(rest)
    ensures EndsWithComma(s + rest)
    ensures Scan(lex, s + rest, token, false, depth, stack) == Scan(lex, rest, token + s, false, depth, stack)
    decreases |s|
  {
    hide Scan;
    if s == "" {
      assert s + rest == rest && token + s == token;
    } else if s[0] == ESCAPE {
      var more := s[2..];
      assert s == [ESCAPE, s[1]] + more;
      assert s + rest == [ESCAPE, s[1]] + (more + rest) && token + [ESCAPE, s[1]] + more == token + s;
      EndedAfter(more, rest);
      ScanEscaped(lex, s[1], more + rest, token, depth, stack);
      PassesQuiet(lex, more, rest, token + [ESCAPE, s[1]], depth, stack);
    } else {
      var more := s[1..];
      assert s + rest == [s[0]] + (more + rest) && token + [s[0]] + more == token + s;
      EndedAfter(more, rest);
      ScanNext(lex, s[0], more + rest, token, depth, stack);
      PassesQuiet(lex, more, rest, token + [s[0]], depth, stack);
    }
  }

  lemma {:induction false} OrdinaryIsQuiet(s: string)
    requires forall i :: 0 <= i < |s| ==> !IsSpecial(s[i])
    ensures Quiet(s)
    decreases |s|
  {
    if s != "" {
      OrdinaryIsQuiet(s[1..]);
    }
  }

  lemma {:induction false} EscapedIsQuiet(s: string, t: string)
    requires Quiet(t)
    ensures Quiet(Escape(s) + t)
    decreases |s|
  {
    if s == "" {
      assert Escape(s) + t == t;
    } else {
      EscapedIsQuiet(s[1..], t);
      var more := Escape(s[1..]) + t;
      if IsSpecial(s[0]) {
        assert Escape(s) + t == [ESCAPE, s[0]] + more;
        assert ([ESCAPE, s[0]] + more)[2..] == more;
      } else {
        assert Escape(s) + t == [s[0]] + more;
        assert ([s[0]] + more)[1..] == more;
      }
    }
  }

  lemma StrIsQuiet(q: Quote, s: string)
    ensures Quiet(Mark(q) + Escape(s) + Mark(q))
  {
    OrdinaryIsQuiet(Mark(q));
    EscapedIsQuiet(s, Mark(q));
    var more := Escape(s) + Mark(q);
    assert Mark(q) + Escape(s) + Mark(q) == Mark(q) + more;
    assert (Mark(q) + more)[1..] == more;
  }

  /** Inside an argument list only the parentheses count, and they balance. */
  lemma {:induction false} PassesMark(lex: Lexicon, c: char, rest: string, token: string, depth: int, stack: seq<Item>)
    requires Ended(rest) && depth > 0 && (c == '(' || c == ',' || (c == ')' && depth > 1))
    ensures EndsWithComma([c] + rest)
    ensures Scan(lex, [c] + rest, token, false, depth, stack) ==
            Scan(lex, rest, token + [c], false,
                 if c == '(' then depth + 1 else if c == ')' then depth - 1 else depth, stack)
  {
    assert ([c] + rest)[1..] == rest;
  }

  lemma {:induction false} PassesCore(lex: Lexicon, e: Expr, rest: string, token: string, depth: int, stack: seq<Item>)
    requires Printable(lex, e) && Ended(rest) && depth > 0
    ensures EndsWithComma(PrintCore(e) + rest)
    ensures Scan(lex, PrintCore(e) + rest, token, false, depth, stack) ==
            Scan(lex, rest, token + PrintCore(e), false, depth, stack)
    decreases e, 0
  {
    EndedAfter(PrintCore(e), rest);
    hide Scan;
    match e {
      case Num(_, text, _) =>
        OrdinaryIsQuiet(text);
        PassesQuiet(lex, text, rest, token, depth, stack);
      case Str(_, q, text, _) =>
        StrIsQuiet(q, text);
        PassesQuiet(lex, PrintCore(e), rest, token, depth, stack);
      case Bare(_, name, _) =>
        OrdinaryIsQuiet(name);
        PassesQuiet(lex, name, rest, token, depth, stack);
      case Call(_, name, before, args, _) =>
        NameIsQuiet(lex, name, before);
        var inner := Print(args);
        hide Print;
        EndedAfter(")", rest);
        EndedAfter(inner, ")" + rest);
        EndedAfter("(", inner + (")" + rest));
        PassesQuiet(lex, name + before, "(" + (inner + (")" + rest)), token, depth, stack);
        PassesMark(lex, '(', inner + (")" + rest), token + (name + before), depth, stack);
        PassesArgs(lex, args, ")" + rest, token + (name + before) + "(", depth + 1, stack);
        PassesMark(lex, ')', rest, token + (name + before) + "(" + inner, depth + 1, stack);
        Regroup(name + before, inner, rest, token);
    }
  }

  lemma NameIsQuiet(lex: Lexicon, name: string, before: string)
    requires Callable(lex, name) && Blanks(before)
    ensures Quiet(name + before)
  {
    OrdinaryIsQuiet(name + before);
  }

  lemma {:induction false} PassesExpr(lex: Lexicon, e: Expr, rest: string, token: string, depth: int, stack: seq<Item>)
    requires Printable(lex, e) && Ended(rest) && depth > 0
    ensures EndsWithComma(PrintExpr(e) + rest)
    ensures Scan(lex, PrintExpr(e) + rest, token, false, depth, stack) ==
            Scan(lex, rest, token + PrintExpr(e), false, depth, stack)
    decreases e, 1
  {
    hide Scan;
    var core := PrintCore(e);
    BlanksAreQuiet(e.lead);
    BlanksAreQuiet(e.trail);
    EndedAfter(e.trail, rest);
    EndedAfter(core, e.trail + rest);
    PassesQuiet(lex, e.lead, core + (e.trail + rest), token, depth, stack);
    PassesCore(lex, e, e.trail + rest, token + e.lead, depth, stack);
    PassesQuiet(lex, e.trail, rest, token + e.lead + core, depth, stack);
    RegroupExpr(e.lead, core, e.trail, rest, token);
  }

  lemma RegroupExpr(lead: string, core: string, trail: string, rest: string, token: string)
    ensures lead + (core + trail) + rest == lead + (core + (trail + rest))
    ensures token + (lead + (core + trail)) == token + lead + core + trail
  {
    assert core + trail + rest == core + (trail + rest);
  }

  lemma Regroup(name: string, inner: string, rest: string, token: string)
    ensures name + ("(" + (inner + ")")) + rest == name + ("(" + (inner + (")" + rest)))
    ensures token + (name + ("(" + (inner + ")"))) == token + name + "(" + inner + ")"
  {
    assert inner + ")" + rest == inner + (")" + rest);
    assert "(" + (inner + ")") + rest == "(" + (inner + ")" + rest);
  }

  lemma RegroupList(head: string, tail: string, rest: string, token: string)
    ensures head + ("," + tail) + rest == head + ("," + (tail + rest))
    ensures token + (head + ("," + tail)) == token + head + "," + tail
  {
    assert "," + tail + rest == "," + (tail + rest);
  }

  lemma {:induction false} PassesArgs(lex: Lexicon, es: seq<Expr>, rest: string, token: string, depth: int,
                                      stack: seq<Item>)
    requires AllPrintable(lex, es) && Ended(rest) && depth > 0
    ensures EndsWithComma(Print(es) + rest)
    ensures Scan(lex, Print(es) + rest, token, false, depth, stack) ==
            Scan(lex, rest, token + Print(es), false, depth, stack)
    decreases es
  {
    EndedAfter(Print(es), rest);
    hide Scan;
    if es == [] {
      assert "" + rest == rest && token + "" == token;
    } else if |es| == 1 {
      PassesExpr(lex, es[0], rest, token, depth, stack);
    } else {
      var head, tail := PrintExpr(es[0]), Print(es[1..]);
      EndedAfter(tail, rest);
      EndedAfter(",", tail + rest);
      PassesExpr(lex, es[0], "," + (tail + rest), token, depth, stack);
      PassesMark(lex, ',', tail + rest, token + head, depth, stack);
      PassesArgs(lex, es[1..], rest, token + head + ",", depth, stack);
      RegroupList(head, tail, rest, token);
    }
  }

  lemma BlanksAreQuiet(s: string)
    requires Blanks(s)
    ensures Quiet(s)
  {
    OrdinaryIsQuiet(s);
  }

  // ----- what a token becomes -----

  lemma {:induction false} UnescapeOrdinary(s: string, t: string)
    requires ESCAPE !in s
    ensures Unescape(s + t) == s + Unescape(t)
    decreases |s|
  {
    if s == "" {
      assert s + t == t && s + Unescape(t) == Unescape(t);
    } else {
      assert (s + t)[1..] == s[1..] + t;
      UnescapeOrdinary(s[1..], t);
      assert [s[0]] + (s[1..] + Unescape(t)) == s + Unescape(t);
    }
  }

  lemma UnescapeChar(c: char, t: string)
    ensures Unescape((if IsSpecial(c) then [ESCAPE, c] else [c]) + t) == [c] + Unescape(t)
  {
    if IsSpecial(c) {
      assert ([ESCAPE, c] + t)[2..] == t;
    } else {
      assert ([c] + t)[1..] == t;
    }
  }

  lemma EscapeNext(s: string, t: string)
    requires s != ""
    ensures Escape(s) + t == (if IsSpecial(s[0]) then [ESCAPE, s[0]] else [s[0]]) + (Escape(s[1..]) + t)
  {
  }

  lemma ConsRest(s: string, t: string)
    requires s != ""
    ensures [s[0]] + (s[1..] + t) == s + t
  {
  }

  lemma {:induction false} UnescapeEscaped(s: string, t: string)
    ensures Unescape(Escape(s) + t) == s + Unescape(t)
    decreases |s|
  {
    assert Escape("") + t == t;
    hide *;
    if s == "" {
    } else {
      UnescapeEscaped(s[1..], t);
      EscapeNext(s, t);
      UnescapeChar(s[0], Escape(s[1..]) + t);
      ConsRest(s, Unescape(t));
    }
  }

  lemma {:induction false} TrimsLeft(lead: string, s: string)
    requires Blanks(lead) && s != "" && !IsBlank(s[0])
    ensures TrimLeft(lead + s) == s
    decreases |lead|
  {
    if lead == "" {
      assert lead + s == s;
    } else {
      assert (lead + s)[1..] == lead[1..] + s;
      TrimsLeft(lead[1..], s);
    }
  }

  lemma {:induction false} TrimsRight(s: string, trail: string)
    requires Blanks(trail) && s != "" && !IsBlank(s[|s| - 1])
    ensures TrimRight(s + trail) == s
    decreases |trail|
  {
    if trail == "" {
      assert s + trail == s;
    } else {
      var n := |trail| - 1;
      assert (s + trail)[..|s + trail| - 1] == s + trail[..n];
      TrimsRight(s, trail[..n]);
    }
  }

  /** The blanks around a token do not count. */
  lemma Trims(lead: string, s: string, trail: string)
    requires Blanks(lead) && Blanks(trail) && s != "" && s[0] !in " \t" && s[|s| - 1] !in " \t"
    ensures TrimRight(TrimLeft(lead + (s + trail))) == s
  {
    TrimsLeft(lead, s + trail);
    TrimsRight(s, trail);
  }

  lemma PushVerbatim(lex: Lexicon, lead: string, s: string, trail: string)
    requires Blanks(lead) && Blanks(trail) && Verbatim(s)
    requires lex.numeric(s) || Callable(lex, s)
    ensures Push(lex, lead + (s + trail)) == Ok(if lex.numeric(s) then [Number(s)] else [Validator(s), NoArgs])
  {
    var token := lead + (s + trail);
    UnescapeOrdinary(token, "");
    assert token + "" == token;
    Trims(lead, s, trail);
    hide TrimLeft;
    hide TrimRight;
    hide Unescape;
  }

  /** A label in quotes, the same at both ends, and within one line. */
  ghost predicate InQuotes(s: string, t: string) {
    (s == "'" + t + "'" || s == "\"" + t + "\"") && OneLine(t)
  }

  lemma QuotedExactly(s: string)
    ensures IsQuoted(s) ==> InQuotes(s, s[1..|s| - 1])
    ensures forall t :: InQuotes(s, t) ==> IsQuoted(s) && s[1..|s| - 1] == t
  {
    if IsQuoted(s) {
      var t := s[1..|s| - 1];
      assert s == [s[0]] + t + [s[0]];
      assert OneLine(t) by {
        assert forall i :: 0 <= i < |t| ==> t[i] == s[i + 1];
      }
    }
    forall t | InQuotes(s, t) ensures IsQuoted(s) && s[1..|s| - 1] == t {
      assert forall i :: 0 < i < |s| - 1 ==> s[i] == t[i - 1];
    }
  }

  /** What a label becomes that is not empty, whatever characters it is made of. */
  ghost predicate Becomes(lex: Lexicon, s: string, r: Result) {
    && (lex.numeric(s) ==> r == Ok([Number(s)]))
    && (forall t :: !lex.numeric(s) && InQuotes(s, t) ==> r == Ok([Text(t)]))
    && (!lex.numeric(s) && (forall t :: !InQuotes(s, t)) ==>
          r == if s in lex.types then Ok([Validator(s), NoArgs]) else SyntaxError)
  }

  lemma PushBecomes(lex: Lexicon, lead: string, s: string, trail: string)
    requires Blanks(lead) && Blanks(trail) && s != "" && s[0] !in " \t" && s[|s| - 1] !in " \t"
    ensures Becomes(lex, s, Push(lex, lead + (Escape(s) + trail)))
  {
    hide *;
    UnescapesLabel(lead, s, trail);
    Trims(lead, s, trail);
    TrimmedBecomes(lex, lead + (Escape(s) + trail), s);
  }

  lemma TrimmedBecomes(lex: Lexicon, token: string, s: string)
    requires TrimRight(TrimLeft(Unescape(token))) == s != ""
    ensures Becomes(lex, s, Push(lex, token))
  {
    QuotedExactly(s);
    hide Unescape;
    hide TrimLeft;
    hide TrimRight;
    hide IsQuoted;
    hide InQuotes;
  }

  lemma UnescapesLabel(lead: string, s: string, trail: string)
    requires Blanks(lead) && Blanks(trail)
    ensures Unescape(lead + (Escape(s) + trail)) == lead + (s + trail)
  {
    assert Unescape(trail) == trail by {
      UnescapeOrdinary(trail, "");
      assert trail + "" == trail;
    }
    UnescapeOrdinary(lead, Escape(s) + trail);
    UnescapeEscaped(s, trail);
  }

  lemma {:induction false} EscapeConcat(s: string, t: string)
    ensures Escape(s + t) == Escape(s) + Escape(t)
    decreases |s|
  {
    if s == "" {
      assert s + t == t;
    } else {
      assert (s + t)[1..] == s[1..] + t;
      EscapeConcat(s[1..], t);
    }
  }

  lemma EscapeQuoted(q: Quote, s: string)
    ensures Escape(Mark(q) + s + Mark(q)) == Mark(q) + Escape(s) + Mark(q)
  {
    EscapeConcat(Mark(q) + s, Mark(q));
    EscapeConcat(Mark(q), s);
    assert Mark(q)[1..] == "" && Escape(Mark(q)) == Mark(q);
  }

  lemma PushStr(lex: Lexicon, lead: string, q: Quote, s: string, trail: string)
    requires Printable(lex, Str(lead, q, s, trail))
    ensures Push(lex, lead + (Mark(q) + Escape(s) + Mark(q) + trail)) == Ok([Text(s)])
  {
    EscapeQuoted(q, s);
    PushBecomes(lex, lead, Mark(q) + s + Mark(q), trail);
    assert InQuotes(Mark(q) + s + Mark(q), s);
    hide Push;
    hide Escape;
    hide InQuotes;
  }

  // ----- compiling what was printed -----

  /** A comma after a token, outside any parentheses. */
  lemma EndsToken(lex: Lexicon, token: string, more: string, stack: seq<Item>, items: seq<Item>)
    requires EndsWithComma(more) && token != "" && Push(lex, token) == Ok(items)
    ensures EndsWithComma("," + more)
    ensures Scan(lex, "," + more, token, false, 0, stack) == Scan(lex, more, "", false, 0, stack + items)
  {
    assert ("," + more)[1..] == more;
    hide Push;
  }

  lemma OpensArgs(lex: Lexicon, token: string, more: string, stack: seq<Item>, name: string)
    requires Ended(more) && token != "" && Push(lex, token) == Ok([Validator(name), NoArgs])
    ensures EndsWithComma("(" + more)
    ensures Scan(lex, "(" + more, token, false, 0, stack) ==
            Scan(lex, more, "", false, 1, stack + [Validator(name), NoArgs])
  {
    assert ("(" + more)[1..] == more;
    hide Push;
  }

  lemma ClosesArgs(lex: Lexicon, inner: string, more: string, stack: seq<Item>, name: string)
    requires Ended(more)
    ensures EndsWithComma(")" + more)
    ensures Scan(lex, ")" + more, inner, false, 1, stack + [Validator(name), NoArgs]) ==
            match Compiled(lex, inner)
            case Ok(items) => Scan(lex, more, "", false, 0, stack + [Validator(name), Args(items)])
            case SyntaxError => SyntaxError
  {
    var s, t := ")" + more, stack + [Validator(name), NoArgs];
    assert s[1..] == more;
    assert t[|t| - 2] == Validator(name);
    assert forall items :: t[|t| - 1 := Args(items)] == stack + [Validator(name), Args(items)];
    hide Compiled;
  }

  /** Blanks between a closing parenthesis and a comma make a token of their own, which nothing is called. */
  lemma EndsBlanks(lex: Lexicon, blanks: string, more: string, stack: seq<Item>)
    requires EndsWithComma(more) && Blanks(blanks) && "" !in lex.types
    ensures EndsWithComma(blanks + ("," + more))
    ensures Scan(lex, blanks + ("," + more), "", false, 0, stack) ==
            if blanks == "" then Scan(lex, more, "", false, 0, stack) else SyntaxError
  {
    EndedAfter(",", more);
    EndedAfter(blanks, "," + more);
    BlanksAreQuiet(blanks);
    PassesQuiet(lex, blanks, "," + more, "", 0, stack);
    assert "" + blanks == blanks && ("," + more)[1..] == more;
    if blanks != "" {
      PushBlank(lex, blanks);
    }
    hide Push;
  }

  lemma PushBlank(lex: Lexicon, blank: string)
    requires Blanks(blank) && "" !in lex.types
    ensures Push(lex, blank) == SyntaxError
  {
    UnescapeOrdinary(blank, "");
    assert blank + "" == blank;
    TrimsAll(blank);
  }

  lemma {:induction false} TrimsAll(blank: string)
    requires Blanks(blank)
    ensures TrimLeft(blank) == ""
    decreases |blank|
  {
    if blank != "" {
      TrimsAll(blank[1..]);
    }
  }

  /** A call, up to its closing parenthesis. */
  lemma {:induction false} CompilesCall(lex: Lexicon, e: Expr, after: string, stack: seq<Item>)
    requires e.Call? && Printable(lex, e) && Ended(after) && "" !in lex.types
    ensures EndsWithComma(e.lead + (PrintCore(e) + after))
    ensures Scan(lex, e.lead + (PrintCore(e) + after), "", false, 0, stack) ==
            if AllNeat(e.args) then Scan(lex, after, "", false, 0, stack + Flat(e)) else SyntaxError
    decreases e, 0
  {
    var name, head, inner := e.name, e.name + e.before, Print(e.args);
    EndedAfter(PrintCore(e), after);
    EndedAfter(e.lead, PrintCore(e) + after);
    CompilesArgs(lex, e.args);
    NameIsQuiet(lex, name, e.before);
    BlanksAreQuiet(e.lead);
    PushVerbatim(lex, e.lead, name, e.before);
    hide Scan;
    hide Push;
    hide Compiled;
    hide Print;
    hide AllNeat;
    var rest, pushed := ")" + after, [Validator(name), NoArgs];
    EndedAfter(")", after);
    EndedAfter(inner, rest);
    EndedAfter("(", inner + rest);
    EndedAfter(head, "(" + (inner + rest));
    PassesQuiet(lex, e.lead, head + ("(" + (inner + rest)), "", 0, stack);
    assert "" + e.lead == e.lead;
    PassesQuiet(lex, head, "(" + (inner + rest), e.lead, 0, stack);
    OpensArgs(lex, e.lead + head, inner + rest, stack, name);
    PassesArgs(lex, e.args, rest, "", 1, stack + pushed);
    assert "" + inner == inner;
    ClosesArgs(lex, inner, after, stack, name);
    Regroup(head, inner, after, "");
  }

  lemma {:induction false} CompilesExpr(lex: Lexicon, e: Expr, more: string, stack: seq<Item>)
    requires Printable(lex, e) && EndsWithComma(more) && "" !in lex.types
    ensures EndsWithComma(PrintExpr(e) + ("," + more))
    ensures Scan(lex, PrintExpr(e) + ("," + more), "", false, 0, stack) ==
            if Neat(e) then Scan(lex, more, "", false, 0, stack + Flat(e)) else SyntaxError
    decreases e, 1
  {
    var after := "," + more;
    EndedAfter(",", more);
    EndedAfter(PrintExpr(e), after);
    RegroupExpr(e.lead, PrintCore(e), e.trail, after, "");
    hide Scan;
    hide Push;
    match e {
      case Num(lead, text, trail) =>
        TokenIsQuiet(lead, text, trail);
        PushVerbatim(lex, lead, text, trail);
      case Str(lead, q, text, trail) =>
        var core := Mark(q) + Escape(text) + Mark(q);
        assert Quiet(lead + (core + trail)) by {
          StrIsQuiet(q, text);
          BlanksAreQuiet(lead);
          BlanksAreQuiet(trail);
          QuietConcat(core, trail);
          QuietConcat(lead, core + trail);
        }
        PushStr(lex, lead, q, text, trail);
      case Bare(lead, name, trail) =>
        TokenIsQuiet(lead, name, trail);
        PushVerbatim(lex, lead, name, trail);
      case Call(_, _, _, _, trail) =>
        EndedAfter(trail, after);
        CompilesCall(lex, e, trail + after, stack);
        EndsBlanks(lex, trail, more, stack + Flat(e));
    }
    if !e.Call? {
      PassesQuiet(lex, PrintExpr(e), after, "", 0, stack);
      assert "" + PrintExpr(e) == PrintExpr(e);
      EndsToken(lex, PrintExpr(e), more, stack, Flat(e));
    }
  }

  lemma TokenIsQuiet(lead: string, s: string, trail: string)
    requires Blanks(lead) && Blanks(trail) && Verbatim(s)
    ensures Quiet(lead + (s + trail))
  {
    OrdinaryIsQuiet(lead + (s + trail));
  }

  lemma {:induction false} QuietConcat(s: string, t: string)
    requires Quiet(s) && Quiet(t)
    ensures Quiet(s + t)
    decreases |s|
  {
    if s == "" {
      assert s + t == t;
    } else if s[0] == ESCAPE {
      assert (s + t)[2..] == s[2..] + t;
      QuietConcat(s[2..], t);
    } else {
      assert (s + t)[1..] == s[1..] + t;
      QuietConcat(s[1..], t);
    }
  }

  lemma {:induction false} CompilesList(lex: Lexicon, es: seq<Expr>, stack: seq<Item>)
    requires es != [] && AllPrintable(lex, es) && "" !in lex.types
    ensures Scan(lex, Print(es) + ",", "", false, 0, stack) ==
            if AllNeat(es) then Ok(stack + Flats(es)) else SyntaxError
    decreases es, 1
  {
    if |es| == 1 {
      CompilesExpr(lex, es[0], "", stack);
      assert es[1..] == [] && Flat(es[0]) + [] == Flat(es[0]);
      assert "," + "" == ",";
    } else {
      ListIs(es);
      hide *;
      var head, tail := PrintExpr(es[0]), Print(es[1..]);
      var more := tail + ",";
      EndedAfter(tail, ",");
      CompilesExpr(lex, es[0], more, stack);
      CompilesList(lex, es[1..], stack + Flat(es[0]));
      RegroupList(head, tail, ",", "");
      Associates(stack, Flat(es[0]), Flats(es[1..]));
    }
  }

  lemma ListIs(es: seq<Expr>)
    requires |es| > 1
    ensures Print(es) == PrintExpr(es[0]) + ("," + Print(es[1..]))
    ensures Flats(es) == Flat(es[0]) + Flats(es[1..])
    ensures AllNeat(es) <==> Neat(es[0]) && AllNeat(es[1..])
  {
  }

  /**
   Compiling a printed list of expressions yields their flat form, whatever blanks stand around them,
   unless some follow a closing parenthesis: then it is refused.
   */
  lemma {:induction false} CompilesArgs(lex: Lexicon, es: seq<Expr>)
    requires AllPrintable(lex, es) && "" !in lex.types
    ensures Compiled(lex, Print(es)) == if AllNeat(es) then Ok(Flats(es)) else SyntaxError
    decreases es, 2
  {
    if es == [] {
      assert "" + "," == "," && ","[1..] == "";
    } else {
      CompilesList(lex, es, []);
      assert [] + Flats(es) == Flats(es);
    }
  }

  // ----- labels in whatever spelling -----

  /** A character as it is, or any one with a backslash before it. */
  datatype Piece = Plain(c: char) | Escaped(c: char)

  predicate Spelling(ps: seq<Piece>) {
    forall i :: 0 <= i < |ps| && ps[i].Plain? ==> ps[i].c !in "\\(),"
  }

  /** How the pieces stand in the code. */
  function Source(ps: seq<Piece>): string {
    if ps == [] then ""
    else (if ps[0].Plain? then [ps[0].c] else ['\\', ps[0].c]) + Source(ps[1..])
  }

  /** What they say: the backslash falls away, but for one at the end of a line. */
  function Said(ps: seq<Piece>): string {
    if ps == [] then ""
    else (if ps[0].Plain? || OneLine([ps[0].c]) then [ps[0].c] else ['\\', ps[0].c]) + Said(ps[1..])
  }

  lemma {:induction false} PiecesAreRead(ps: seq<Piece>)
    requires Spelling(ps)
    ensures Quiet(Source(ps)) && Unescape(Source(ps)) == Said(ps)
    decreases |ps|
  {
    if ps != [] {
      PiecesAreRead(ps[1..]);
      var c, more := ps[0].c, Source(ps[1..]);
      if ps[0].Plain? {
        assert ([c] + more)[1..] == more;
      } else {
        var s := ['\\', c] + more;
        assert s[2..] == more && s[1..] == [c] + more && s[1..][1..] == more;
        assert OneLine([c]) <==> !IsLineEnd(c) by {
          assert [c][0] == c;
        }
        if IsLineEnd(c) {
          LineEndStays(c, more);
        }
      }
    }
  }

  lemma LineEndStays(c: char, more: string)
    requires IsLineEnd(c)
    ensures Unescape(['\\', c] + more) == ['\\', c] + Unescape(more)
  {
    var s := ['\\', c] + more;
    assert s[1..] == [c] + more && ([c] + more)[1..] == more;
  }

  /**
   A label on its own, in whatever spelling: what it is compiled to, and when it is refused, blanks around
   it not counting.
   */
  lemma CompilesLabel(lex: Lexicon, ps: seq<Piece>, lead: string, s: string, trail: string)
    requires Spelling(ps) && ps != [] && Said(ps) == lead + (s + trail) && Blanks(lead) && Blanks(trail)
    requires s != "" ==> s[0] !in " \t" && s[|s| - 1] !in " \t"
    requires "" !in lex.types
    ensures if s == "" then Compiled(lex, Source(ps)) == SyntaxError else Becomes(lex, s, Compiled(lex, Source(ps)))
  {
    var token := Source(ps);
    PiecesAreRead(ps);
    assert token != "";
    if s == "" {
      BlanksTrimmed(lead + trail);
      assert lead + (s + trail) == lead + trail;
    } else {
      Trims(lead, s, trail);
      TrimmedBecomes(lex, token, s);
    }
    hide *;
    OneToken(lex, token);
  }

  lemma {:induction false} BlanksTrimmed(s: string)
    requires Blanks(s)
    ensures TrimLeft(s) == ""
    decreases |s|
  {
    if s != "" {
      BlanksTrimmed(s[1..]);
    }
  }

  lemma OneToken(lex: Lexicon, token: string)
    requires Quiet(token) && token != ""
    ensures Compiled(lex, token) == Push(lex, token)
  {
    PassesQuiet(lex, token, ",", "", 0, []);
    assert "" + token == token && ","[1..] == "";
    hide Push;
    assert forall items: seq<Item> :: [] + items == items;
  }

  /** A text whose quotes do not match is no text, however it is spelt. */
  lemma MismatchedQuotes(lex: Lexicon, ps: seq<Piece>, q: Quote, t: string, other: Quote)
    requires var s := Mark(q) + t + Mark(other);
             Spelling(ps) && Said(ps) == s && q != other && !lex.numeric(s) && s !in lex.types && "" !in lex.types
    ensures Compiled(lex, Source(ps)) == SyntaxError
  {
    var s := Mark(q) + t + Mark(other);
    assert "" + (s + "") == s;
    CompilesLabel(lex, ps, "", s, "");
    assert forall t' :: !InQuotes(s, t') by {
      QuotedExactly(s);
      assert s[0] == Mark(q)[0] && s[|s| - 1] == Mark(other)[0];
    }
    hide Compiled;
  }

  // ----- texts that are no printed lists -----

  /** Up to the opening parenthesis after a label, and then through the arguments. */
  lemma {:induction false} ReadsIntoArgs(lex: Lexicon, head: string, items: seq<Item>, args: seq<Expr>, rest: string,
                                         stack: seq<Item>)
    requires Quiet(head) && head != "" && Push(lex, head) == Ok(items) && AllPrintable(lex, args) && Ended(rest)
    ensures EndsWithComma(head + ("(" + (Print(args) + rest)))
    ensures Scan(lex, head + ("(" + (Print(args) + rest)), "", false, 0, stack) ==
            Scan(lex, rest, Print(args), false, 1, stack + items)
  {
    hide *;
    var inner := Print(args);
    EndedAfter(inner, rest);
    EndedAfter("(", inner + rest);
    EndedAfter(head, "(" + (inner + rest));
    PassesQuiet(lex, head, "(" + (inner + rest), "", 0, stack);
    assert "" + head == head && "" + inner == inner;
    OpensAfter(lex, head, inner + rest, stack, items);
    PassesArgs(lex, args, rest, "", 1, stack + items);
  }

  lemma OpensAfter(lex: Lexicon, token: string, more: string, stack: seq<Item>, items: seq<Item>)
    requires Ended(more) && token != "" && Push(lex, token) == Ok(items)
    ensures EndsWithComma("(" + more)
    ensures Scan(lex, "(" + more, token, false, 0, stack) == Scan(lex, more, "", false, 1, stack + items)
  {
    assert ("(" + more)[1..] == more;
    hide Push;
  }

  lemma LiteralIsLabel(lex: Lexicon, e: Expr)
    requires Printable(lex, e) && !e.Call?
    ensures Quiet(PrintExpr(e)) && PrintExpr(e) != "" && Push(lex, PrintExpr(e)) == Ok(Flat(e))
  {
    hide Push;
    match e {
      case Num(lead, text, trail) =>
        TokenIsQuiet(lead, text, trail);
        PushVerbatim(lex, lead, text, trail);
      case Str(lead, q, text, trail) =>
        var core := Mark(q) + Escape(text) + Mark(q);
        StrIsQuiet(q, text);
        BlanksAreQuiet(lead);
        BlanksAreQuiet(trail);
        QuietConcat(core, trail);
        QuietConcat(lead, core + trail);
        PushStr(lex, lead, q, text, trail);
      case Bare(lead, name, trail) =>
        TokenIsQuiet(lead, name, trail);
        PushVerbatim(lex, lead, name, trail);
    }
  }

  /** Arguments after a number or a text are refused, whatever comes before and after. */
  lemma LiteralTakesNoArgs(lex: Lexicon, e: Expr, args: seq<Expr>, more: string, stack: seq<Item>)
    requires Printable(lex, e) && (e.Num? || e.Str?) && AllPrintable(lex, args) && EndsWithComma(more)
    requires stack == [] || stack[|stack| - 1] == NoArgs || stack[|stack| - 1].Args?
    ensures EndsWithComma(PrintExpr(e) + ("(" + (Print(args) + (")," + more))))
    ensures Scan(lex, PrintExpr(e) + ("(" + (Print(args) + (")," + more))), "", false, 0, stack) == SyntaxError
  {
    hide *;
    var rest := ")," + more;
    LiteralIsLabel(lex, e);
    LiteralIsOne(e);
    ClosesWrong(lex, Print(args), more, stack + Flat(e));
    ReadsIntoArgs(lex, PrintExpr(e), Flat(e), args, rest, stack);
  }

  lemma LiteralIsOne(e: Expr)
    requires e.Num? || e.Str?
    ensures |Flat(e)| == 1
  {
  }

  lemma ClosesWrong(lex: Lexicon, inner: string, more: string, stack: seq<Item>)
    requires EndsWithComma(more) && (|stack| < 2 || !stack[|stack| - 2].Validator?)
    ensures Ended(")," + more) && Scan(lex, ")," + more, inner, false, 1, stack) == SyntaxError
  {
    assert (")," + more)[1..] == "," + more;
  }

  /** Without its closing parenthesis a call loses its arguments. */
  lemma UnclosedLosesArgs(lex: Lexicon, e: Expr, args: seq<Expr>)
    requires Printable(lex, e) && e.Bare? && AllPrintable(lex, args)
    ensures Compiled(lex, PrintExpr(e) + ("(" + Print(args))) == Ok([Validator(e.name), NoArgs])
  {
    LiteralIsLabel(lex, e);
    ReadsIntoArgs(lex, PrintExpr(e), Flat(e), args, ",", []);
    assert PrintExpr(e) + ("(" + Print(args)) + "," == PrintExpr(e) + ("(" + (Print(args) + ","));
    assert ","[1..] == "" && [] + Flat(e) == Flat(e);
    hide Push;
    hide Quiet;
    hide PrintExpr;
    hide Print;
  }

  /** A backslash at the end swallows the label before it. */
  lemma EscapeAtEnd(lex: Lexicon, ps: seq<Piece>)
    requires Spelling(ps)
    ensures Compiled(lex, Source(ps) + "\\") == Ok([])
  {
    var token := Source(ps);
    var code, rest := token + "\\", "\\" + ",";
    PiecesAreRead(ps);
    assert "" + token == token;
    assert code + "," == token + rest && rest[1..] == "," && ","[1..] == "";
    PassesQuiet(lex, token, rest, "", 0, []);
    hide Quiet;
    hide Source;
    assert Scan(lex, rest, token, false, 0, []) == Scan(lex, ",", token + "\\", true, 0, []);
    assert Scan(lex, ",", token + "\\", true, 0, []) == Scan(lex, "", token + "\\" + ",", false, 0, []);
  }
}
