/** Checking a value against a compiled datatype: the `or` and `and` validators of validation.js. */
module DatatypeEval {
  import opened DatatypeCompiler
  import opened DatatypeRoundTrip

  /** Which literals equal the value, and which of the other validators accept it, given their arguments. */
  datatype Value = Value(same: Item -> bool, accepted: (string, seq<Item>) -> bool)

  predicate IsLiteral(item: Item) {
    item.Number? || item.Text?
  }

  /** Literals, and validators each with its arguments. */
  predicate WellFormed(items: seq<Item>)
    decreases items
  {
    items == [] ||
    if items[0].Validator? then
      && |items| > 1 && (items[1].NoArgs? || (items[1].Args? && WellFormed(items[1].items)))
      && WellFormed(items[2..])
    else IsLiteral(items[0]) && WellFormed(items[1..])
  }

  function ArgsOf(item: Item): (items: seq<Item>)
    ensures item.Args? ==> items == item.items
  {
    if item.Args? then item.items else []
  }

  /** The verdict of one validator. */
  predicate Applies(v: Value, name: string, arg: Item)
    requires arg.NoArgs? || (arg.Args? && WellFormed(arg.items))
    decreases arg
  {
    if arg.NoArgs? then
      if name == "or" then false else if name == "and" then true else v.accepted(name, [])
    else if name == "or" then AnyHolds(v, arg.items)
    else if name == "and" then AllHold(v, arg.items)
    else v.accepted(name, arg.items)
  }

  predicate AnyHolds(v: Value, items: seq<Item>)
    requires WellFormed(items)
    decreases items
  {
    items != [] &&
    if items[0].Validator? then Applies(v, items[0].name, items[1]) || AnyHolds(v, items[2..])
    else v.same(items[0]) || AnyHolds(v, items[1..])
  }

  predicate AllHold(v: Value, items: seq<Item>)
    requires WellFormed(items)
    decreases items
  {
    items == [] ||
    if items[0].Validator? then Applies(v, items[0].name, items[1]) && AllHold(v, items[2..])
    else v.same(items[0]) && AllHold(v, items[1..])
  }

  // ----- the loops -----

  lemma FromHere(items: seq<Item>, i: nat)
    requires i < |items| && WellFormed(items[i..])
    ensures items[i..][0] == items[i] && items[i..][1..] == items[i + 1..]
    ensures items[i].Validator? ==>
      && i + 1 < |items| && items[i..][1] == items[i + 1] && items[i..][2..] == items[i + 2..]
      && (items[i + 1].NoArgs? || (items[i + 1].Args? && WellFormed(items[i + 1].items)))
      && WellFormed(items[i + 2..])
    ensures !items[i].Validator? ==> WellFormed(items[i + 1..])
  {
    assert items[i..][1..] == items[i + 1..];
    if items[i].Validator? {
      assert items[i..][2..] == items[i + 2..];
    }
  }

  method Apply(v: Value, name: string, arg: Item) returns (valid: bool)
    requires arg.NoArgs? || (arg.Args? && WellFormed(arg.items))
    ensures valid == Applies(v, name, arg)
    decreases arg
  {
    if name == "or" {
      if arg.Args? {
        valid := Or(v, arg.items);
      } else {
        valid := false;
      }
    } else if name == "and" {
      if arg.Args? {
        valid := And(v, arg.items);
      } else {
        valid := true;
      }
    } else {
      valid := v.accepted(name, ArgsOf(arg));
    }
  }

  /** One argument of the list at a time, or two when the first is a validator. */
  method Or(v: Value, items: seq<Item>) returns (valid: bool)
    requires WellFormed(items)
    ensures valid == AnyHolds(v, items)
    decreases items
  {
    var i := 0;
    assert items[0..] == items;
    while i < |items|
      invariant 0 <= i <= |items| && WellFormed(items[i..])
      invariant AnyHolds(v, items) == AnyHolds(v, items[i..])
      decreases |items| - i
    {
      FromHere(items, i);
      if !items[i].Validator? {
        if v.same(items[i]) {
          return true;
        }
        i := i - 1;
      } else {
        var accepted := Apply(v, items[i].name, items[i + 1]);
        if accepted {
          return true;
        }
      }
      i := i + 2;
    }
    valid := false;
  }

  method And(v: Value, items: seq<Item>) returns (valid: bool)
    requires WellFormed(items)
    ensures valid == AllHold(v, items)
    decreases items
  {
    var i := 0;
    assert items[0..] == items;
    while i < |items|
      invariant 0 <= i <= |items| && WellFormed(items[i..])
      invariant AllHold(v, items) == AllHold(v, items[i..])
      decreases |items| - i
    {
      FromHere(items, i);
      if !items[i].Validator? {
        if !v.same(items[i]) {
          return false;
        }
        i := i - 1;
      } else {
        var accepted := Apply(v, items[i].name, items[i + 1]);
        if !accepted {
          return false;
        }
      }
      i := i + 2;
    }
    valid := true;
  }

  // ----- the meaning of an expression -----

  predicate Meets(v: Value, e: Expr)
    decreases e
  {
    match e
    case Num(_, text, _) => v.same(Number(text))
    case Str(_, _, text, _) => v.same(Text(text))
    case Bare(_, name, _) => if name == "or" then false else if name == "and" then true else v.accepted(name, [])
    case Call(_, name, _, args, _) =>
      if name == "or" then exists i :: 0 <= i < |args| && Meets(v, args[i])
      else if name == "and" then forall i :: 0 <= i < |args| ==> Meets(v, args[i])
      else v.accepted(name, Flats(args))
  }

  lemma {:induction false} FlatsWellFormed(es: seq<Expr>)
    ensures WellFormed(Flats(es))
    decreases es
  {
    if es != [] {
      var e, rest := es[0], Flats(es[1..]);
      FlatsWellFormed(es[1..]);
      if e.Call? {
        FlatsWellFormed(e.args);
      }
      FirstItems(e, rest);
    }
  }

  lemma FirstItems(e: Expr, rest: seq<Item>)
    ensures var items := Flat(e) + rest;
      && (e.Num? || e.Str? ==> items[1..] == rest && items[0] == Flat(e)[0] && IsLiteral(items[0]))
      && (e.Bare? || e.Call? ==> items[2..] == rest && items[0] == Validator(e.name))
      && (e.Bare? ==> items[1] == NoArgs)
      && (e.Call? ==> items[1] == Args(Flats(e.args)))
  {
  }

  /** What the arguments of a call mean, if it has any. */
  ghost predicate ArgsMean(v: Value, e: Expr) {
    e.Call? ==>
      && WellFormed(Flats(e.args))
      && (AnyHolds(v, Flats(e.args)) <==> exists i :: 0 <= i < |e.args| && Meets(v, e.args[i]))
      && (AllHold(v, Flats(e.args)) <==> forall i :: 0 <= i < |e.args| ==> Meets(v, e.args[i]))
  }

  lemma FirstMeans(v: Value, e: Expr, rest: seq<Item>)
    requires WellFormed(rest) && ArgsMean(v, e)
    ensures WellFormed(Flat(e) + rest)
    ensures AnyHolds(v, Flat(e) + rest) <==> Meets(v, e) || AnyHolds(v, rest)
    ensures AllHold(v, Flat(e) + rest) <==> Meets(v, e) && AllHold(v, rest)
  {
    FirstItems(e, rest);
    hide Flats;
  }

  /** The flat lists mean what the expressions mean: `or` some of them, `and` all of them. */
  lemma {:induction false} FlatMeaning(v: Value, es: seq<Expr>)
    ensures WellFormed(Flats(es))
    ensures AnyHolds(v, Flats(es)) <==> exists i :: 0 <= i < |es| && Meets(v, es[i])
    ensures AllHold(v, Flats(es)) <==> forall i :: 0 <= i < |es| ==> Meets(v, es[i])
    decreases es
  {
    if es != [] {
      var e, rest := es[0], es[1..];
      FlatMeaning(v, rest);
      if e.Call? {
        FlatMeaning(v, e.args);
      }
      FirstMeans(v, e, Flats(rest));
      hide Meets;
      hide AnyHolds;
      hide AllHold;
      hide Flat;
      assert forall i :: 0 <= i < |rest| ==> rest[i] == es[i + 1];
      assert forall i :: 1 <= i < |es| ==> es[i] == rest[i - 1];
    }
  }

  // ----- anything that compiles can be evaluated -----

  lemma {:induction false} WellFormedConcat(a: seq<Item>, b: seq<Item>)
    requires WellFormed(a) && WellFormed(b)
    ensures WellFormed(a + b)
    decreases |a|
  {
    if a == [] {
      assert a + b == b;
    } else if a[0].Validator? {
      assert (a + b)[2..] == a[2..] + b;
      WellFormedConcat(a[2..], b);
    } else {
      assert (a + b)[1..] == a[1..] + b;
      WellFormedConcat(a[1..], b);
    }
  }

  /** The slot after a validator, at the end of the list, takes its arguments. */
  lemma {:induction false} ReplaceArgs(a: seq<Item>, items: seq<Item>)
    requires WellFormed(a) && |a| >= 2 && a[|a| - 2].Validator? && WellFormed(items)
    ensures WellFormed(a[|a| - 1 := Args(items)])
    decreases |a|
  {
    var b := a[|a| - 1 := Args(items)];
    if a[0].Validator? {
      if |a| == 2 {
        assert b[2..] == [];
      } else {
        assert a[1].NoArgs? || a[1].Args?;
        assert |a| > 3;
        assert b[2..] == a[2..][|a[2..]| - 1 := Args(items)];
        ReplaceArgs(a[2..], items);
      }
    } else {
      assert |a| > 2 by {
        assert IsLiteral(a[0]);
      }
      assert b[1..] == a[1..][|a[1..]| - 1 := Args(items)];
      ReplaceArgs(a[1..], items);
    }
  }

  lemma {:induction false} ScanWellFormed(lex: Lexicon, rest: string, token: string, esc: bool, depth: int,
                                          stack: seq<Item>)
    requires EndsWithComma(rest) && WellFormed(stack)
    ensures var r := Scan(lex, rest, token, esc, depth, stack); r.Ok? ==> WellFormed(r.items)
    decreases |token| + |rest|, |rest|
  {
    if rest != "" {
      var c, more := rest[0], rest[1..];
      if esc {
        ScanWellFormed(lex, more, token + [c], false, depth, stack);
      } else if c == ESCAPE {
        ScanWellFormed(lex, more, token + [c], true, depth, stack);
      } else if c == '(' || c == ',' {
        var depth' := if c == '(' then depth + 1 else depth;
        if depth > 0 {
          ScanWellFormed(lex, more, token + [c], false, depth', stack);
        } else if token == "" {
          ScanWellFormed(lex, more, "", false, depth', stack);
        } else {
          var pushed := Push(lex, token);
          if pushed.Ok? {
            PushWellFormed(lex, token);
            WellFormedConcat(stack, pushed.items);
            ScanWellFormed(lex, more, "", false, depth', stack + pushed.items);
          }
        }
      } else if c == ')' && depth - 1 > 0 {
        ScanWellFormed(lex, more, token + [c], false, depth - 1, stack);
      } else if c == ')' {
        if |stack| >= 2 && stack[|stack| - 2].Validator? {
          CompiledWellFormed(lex, token);
          var args := Compiled(lex, token);
          if args.Ok? {
            ReplaceArgs(stack, args.items);
            ScanWellFormed(lex, more, "", false, depth - 1, stack[|stack| - 1 := Args(args.items)]);
          }
        }
      } else {
        ScanWellFormed(lex, more, token + [c], false, depth, stack);
      }
    }
  }

  lemma PushWellFormed(lex: Lexicon, token: string)
    ensures var r := Push(lex, token); r.Ok? ==> WellFormed(r.items)
  {
    var r := Push(lex, token);
    if r.Ok? && |r.items| == 2 {
      assert r.items[2..] == [];
    } else if r.Ok? {
      assert r.items[1..] == [];
    }
  }

  /** Whatever text compiles gives a list the validators can go through. */
  lemma CompiledWellFormed(lex: Lexicon, code: string)
    ensures var r := Compiled(lex, code); r.Ok? ==> WellFormed(r.items)
    decreases |code| + 1, |code| + 2
  {
    ScanWellFormed(lex, code + ",", "", false, 0, []);
  }

  // ----- a field and its datatype -----

  /**
   What becomes of a field: its datatype does not compile, there is nothing in it that could be asked
   (JavaScript raises a TypeError), or the verdict on its value.
   */
  datatype Outcome = Uncompiled | Unaskable | Verdict(valid: bool)

  /** Only the first item of the compiled list is asked, and only about a value that is not empty. */
  function Judged(lex: Lexicon, code: string, v: Value, empty: bool, optional: bool): Outcome {
    match Compiled(lex, code)
    case SyntaxError => Uncompiled
    case Ok(items) =>
      CompiledWellFormed(lex, code);
      if empty then Verdict(optional)
      else if items == [] || !items[0].Validator? then Unaskable
      else Verdict(Applies(v, items[0].name, items[1]))
  }

  /** The constructor and `validate`, up to the field's own check. */
  method Validate(lex: Lexicon, code: string, v: Value, empty: bool, optional: bool) returns (r: Outcome)
    ensures r == Judged(lex, code, v, empty, optional)
    ensures r.Unaskable? <==>
      !empty && var c := Compiled(lex, code); c.Ok? && (c.items == [] || IsLiteral(c.items[0]))
  {
    CompiledWellFormed(lex, code);
    var compiled := Compile(lex, code);
    if compiled.SyntaxError? {
      return Uncompiled;
    }
    var vstack := compiled.items;
    if empty {
      return Verdict(optional);
    }
    if |vstack| == 0 || !vstack[0].Validator? {
      return Unaskable;
    }
    var valid := Apply(v, vstack[0].name, vstack[1]);
    r := Verdict(valid);
  }

  /** What a field with a list of expressions for a datatype is meant to say about a value. */
  function Meaning(es: seq<Expr>, v: Value, empty: bool, optional: bool): Outcome {
    if empty then Verdict(optional)
    else if es == [] || es[0].Num? || es[0].Str? then Unaskable
    else Verdict(Meets(v, es[0]))
  }

  /**
   A printed datatype accepts exactly the values its first expression means, if that is a validator and
   no blanks follow a closing parenthesis; an empty value is left to whether the field may be empty.
   */
  lemma ValidatesExactly(lex: Lexicon, es: seq<Expr>, v: Value, empty: bool, optional: bool)
    requires AllPrintable(lex, es) && "" !in lex.types
    ensures Judged(lex, Print(es), v, empty, optional) ==
            if AllNeat(es) then Meaning(es, v, empty, optional) else Uncompiled
  {
    CompilesArgs(lex, es);
    FlatsWellFormed(es);
    hide Compiled;
    hide Print;
    hide AllNeat;
    hide AllPrintable;
    if es != [] {
      FirstItems(es[0], Flats(es[1..]));
      if es[0].Call? {
        FlatMeaning(v, es[0].args);
      }
    }
  }
}
