/** `compile` of validation.js: datatype expressions to flat argument lists. */
module DatatypeCompiler {

  /** What a compiled expression consists of; a validator is always followed by its arguments. */
  datatype Item =
    | Number(text: string)
    | Text(text: string)
    | Validator(name: string)
    | NoArgs
    | Args(items: seq<Item>)

  /** Which labels JavaScript takes for numbers, and the names of the validators. */
  datatype Lexicon = Lexicon(numeric: string -> bool, types: set<string>)

  datatype Result = Ok(items: seq<Item>) | SyntaxError

  const ESCAPE := '\\'

  predicate IsBlank(c: char) {
    c == ' ' || c == '\t'
  }

  /** What `.` does not match. */
  predicate IsLineEnd(c: char) {
    c == '\n' || c == '\r' || c == '\U{2028}' || c == '\U{2029}'
  }

  /** `replace(/\\(.)/g, '$1')` */
  function Unescape(s: string): string {
    if s == "" then ""
    else if s[0] == ESCAPE && |s| > 1 && !IsLineEnd(s[1]) then [s[1]] + Unescape(s[2..])
    else [s[0]] + Unescape(s[1..])
  }

  function TrimLeft(s: string): string {
    if s != "" && IsBlank(s[0]) then TrimLeft(s[1..]) else s
  }

  function TrimRight(s: string): string {
    if s != "" && IsBlank(s[|s| - 1]) then TrimRight(s[..|s| - 1]) else s
  }

  /** `^(['"]).*\1$` */
  predicate IsQuoted(s: string) {
    && |s| >= 2 && (s[0] == '\'' || s[0] == '"') && s[|s| - 1] == s[0]
    && forall i :: 0 < i < |s| - 1 ==> !IsLineEnd(s[i])
  }

  /** What a token becomes. */
  function Push(lex: Lexicon, token: string): Result {
    var s := TrimRight(TrimLeft(Unescape(token)));
    if s != "" && lex.numeric(s) then Ok([Number(s)])
    else if IsQuoted(s) then Ok([Text(s[1..|s| - 1])])
    else if s in lex.types then Ok([Validator(s), NoArgs])
    else SyntaxError
  }

  predicate EndsWithComma(s: string) {
    s == "" || s[|s| - 1] == ','
  }

  /** The rest of the scan; `token` is what has passed since the last one. */
  function Scan(lex: Lexicon, rest: string, token: string, esc: bool, depth: int, stack: seq<Item>): Result
    requires EndsWithComma(rest)
    decreases |token| + |rest|, |rest|
  {
    if rest == "" then Ok(stack)
    else
      var c, more := rest[0], rest[1..];
      if esc then Scan(lex, more, token + [c], false, depth, stack)
      else if c == ESCAPE then Scan(lex, more, token + [c], true, depth, stack)
      else if c == '(' || c == ',' then
        var depth' := if c == '(' then depth + 1 else depth;
        if depth > 0 then Scan(lex, more, token + [c], false, depth', stack)
        else if token == "" then Scan(lex, more, "", false, depth', stack)
        else match Push(lex, token)
          case Ok(items) => Scan(lex, more, "", false, depth', stack + items)
          case SyntaxError => SyntaxError
      else if c == ')' && depth - 1 > 0 then Scan(lex, more, token + [c], false, depth - 1, stack)
      else if c == ')' then
        if |stack| < 2 || !stack[|stack| - 2].Validator? then SyntaxError
        else match Compiled(lex, token)
          case Ok(items) => Scan(lex, more, "", false, depth - 1, stack[|stack| - 1 := Args(items)])
          case SyntaxError => SyntaxError
      else Scan(lex, more, token + [c], false, depth, stack)
  }

  function Compiled(lex: Lexicon, code: string): Result
    decreases |code| + 1, |code| + 2
  {
    Scan(lex, code + ",", "", false, 0, [])
  }

  method Compile(lex: Lexicon, code: string) returns (r: Result)
    ensures r == Compiled(lex, code)
    decreases |code|
  {
    var all := code + ",";
    var pos, esc, depth: int, stack: seq<Item> := 0, false, 0, [];
    var i := 0;
    assert all[0..] == all && all[0..0] == "";
    while i < |all|
      invariant 0 <= pos <= i <= |all|
      invariant Compiled(lex, code) == Scan(lex, all[i..], all[pos..i], esc, depth, stack)
    {
      var c := all[i];
      Next(all, pos, i);
      if esc {
        esc := false;
      } else if c == ESCAPE {
        esc := true;
      } else if c == '(' || c == ',' {
        if depth <= 0 {
          if pos < i {
            var pushed := Push(lex, all[pos..i]);
            if pushed.SyntaxError? {
              return SyntaxError;
            }
            stack := stack + pushed.items;
          }
          pos := i + 1;
        }
        depth := depth + if c == '(' then 1 else 0;
      } else if c == ')' {
        depth := depth - 1;
        if depth <= 0 {
          if |stack| < 2 || !stack[|stack| - 2].Validator? {
            return SyntaxError;
          }
          var args := Compile(lex, all[pos..i]);
          if args.SyntaxError? {
            return SyntaxError;
          }
          stack := stack[|stack| - 1 := Args(args.items)];
          pos := i + 1;
        }
      }
      i := i + 1;
    }
    r := Ok(stack);
  }

  lemma Next(all: string, pos: nat, i: nat)
    requires pos <= i < |all|
    ensures all[i..][0] == all[i] && all[i..][1..] == all[i + 1..]
    ensures all[pos..i + 1] == all[pos..i] + [all[i]] && all[i + 1..i + 1] == ""
  {
  }
}
