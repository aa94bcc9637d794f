/** `canonicalize_path` of util.c: the text of a path without empty, "." and ".." components. */
module CanonicalPath {
  import opened Bytes
  import opened CStrings

  /** Where a path leads: whatever stands before its first slash, and the names after it. */
  datatype Place = Place(head: seq<byte>, names: seq<seq<byte>>)

  /** The bytes before the first slash. */
  function Component(s: seq<byte>): (c: seq<byte>)
    ensures |c| <= |s| && c == s[..|c|] && SLASH !in c
    ensures |c| == |s| || s[|c|] == SLASH
  {
    if s == [] || s[0] == SLASH then [] else [s[0]] + Component(s[1..])
  }

  const HERE: seq<byte> := [DOT]
  const UP: seq<byte> := [DOT, DOT]

  function Enter(at: Place, c: seq<byte>): Place {
    if c == [] || c == HERE then at
    else if c == UP then
      if at.names == [] then Place([], []) else at.(names := at.names[..|at.names| - 1])
    else at.(names := at.names + [c])
  }

  /** Components one after the other, each with a slash before it. */
  function Resolve(at: Place, rest: seq<byte>): Place
    requires rest == [] || rest[0] == SLASH
    decreases |rest|
  {
    if rest == [] then at
    else
      var c := Component(rest[1..]);
      assert rest[1 + |c|..] == rest[1..][|c|..];
      Resolve(Enter(at, c), rest[1 + |c|..])
  }

  function Render(names: seq<seq<byte>>): seq<byte> {
    if names == [] then [] else Render(names[..|names| - 1]) + [SLASH] + names[|names| - 1]
  }

  function Text(at: Place): seq<byte> {
    at.head + Render(at.names)
  }

  function Destination(path: seq<byte>): Place {
    Resolve(Place(Component(path), []), path[|Component(path)|..])
  }

  function Canonical(path: seq<byte>): seq<byte> {
    var text := Text(Destination(path));
    if text == [] then [SLASH] else text
  }

  predicate Normal(c: seq<byte>) {
    c != [] && c != HERE && c != UP && SLASH !in c
  }

  predicate Tidy(at: Place) {
    SLASH !in at.head && forall i :: 0 <= i < |at.names| ==> Normal(at.names[i])
  }

  // ----- what the result looks like -----

  lemma {:induction false} ResolveTidies(at: Place, rest: seq<byte>)
    requires (rest == [] || rest[0] == SLASH) && Tidy(at)
    ensures Tidy(Resolve(at, rest))
    decreases |rest|
  {
    if rest != [] {
      var c := Component(rest[1..]);
      assert rest[1 + |c|..] == rest[1..][|c|..];
      ResolveTidies(Enter(at, c), rest[1 + |c|..]);
    }
  }

  lemma {:induction false} ComponentOf(c: seq<byte>, rest: seq<byte>)
    requires SLASH !in c && (rest == [] || rest[0] == SLASH)
    ensures Component(c + rest) == c && (c + rest)[|c|..] == rest
    decreases |c|
  {
    if c == [] {
      assert c + rest == rest;
    } else {
      assert (c + rest)[1..] == c[1..] + rest;
      ComponentOf(c[1..], rest);
    }
  }

  lemma {:induction false} RenderStarts(names: seq<seq<byte>>)
    ensures names == [] <==> Render(names) == []
    ensures names != [] ==> Render(names)[0] == SLASH
    decreases |names|
  {
    if |names| > 1 {
      RenderStarts(names[..|names| - 1]);
    }
  }

  lemma ResolveNext(at: Place, s: seq<byte>)
    requires s != [] && s[0] == SLASH
    ensures var c := Component(s[1..]);
            && (1 + |c| == |s| || s[1 + |c|] == SLASH)
            && Resolve(at, s) == Resolve(Enter(at, c), s[1 + |c|..])
            && s == [SLASH] + (c + s[1 + |c|..])
  {
    hide Component;
    hide Enter;
    var c := Component(s[1..]);
    assert s[1..][|c|..] == s[1 + |c|..] && s == [s[0]] + (c + s[1 + |c|..]);
  }

  lemma {:induction false} ResolveConcat(at: Place, s: seq<byte>, t: seq<byte>)
    requires (s == [] || s[0] == SLASH) && (t == [] || t[0] == SLASH)
    ensures s + t == [] || (s + t)[0] == SLASH
    ensures Resolve(at, s + t) == Resolve(Resolve(at, s), t)
    decreases |s|
  {
    if s == [] {
      assert s + t == t;
    } else {
      hide *;
      var c := Component(s[1..]);
      var more := s[1 + |c|..];
      ResolveNext(at, s);
      ResolveConcat(Enter(at, c), more, t);
      ComponentOf(c, more + t);
      Shift(s, t, c, more);
      ResolveNext(at, s + t);
    }
  }

  lemma Shift(s: seq<byte>, t: seq<byte>, c: seq<byte>, more: seq<byte>)
    requires s == [SLASH] + (c + more)
    ensures (s + t)[0] == SLASH && (s + t)[1..] == c + (more + t) && (s + t)[1 + |c|..] == more + t
  {
    assert s + t == [SLASH] + (c + (more + t));
  }

  lemma ResolveOne(at: Place, c: seq<byte>)
    requires SLASH !in c
    ensures Resolve(at, [SLASH] + c) == Enter(at, c)
  {
    var s := [SLASH] + c;
    assert s[1..] == c && c + [] == c;
    ComponentOf(c, []);
    assert s[1 + |c|..] == [];
  }

  /** Entering one component after the other. */
  function Walk(at: Place, cs: seq<seq<byte>>): Place {
    if cs == [] then at else Enter(Walk(at, cs[..|cs| - 1]), cs[|cs| - 1])
  }

  /** Splitting at the slashes and walking is what the destination of a path means. */
  lemma {:induction false} ResolveWalks(at: Place, cs: seq<seq<byte>>)
    requires forall i :: 0 <= i < |cs| ==> SLASH !in cs[i]
    ensures Render(cs) == [] || Render(cs)[0] == SLASH
    ensures Resolve(at, Render(cs)) == Walk(at, cs)
    decreases |cs|
  {
    RenderStarts(cs);
    if cs != [] {
      var front, last := cs[..|cs| - 1], cs[|cs| - 1];
      RenderStarts(front);
      assert Render(cs) == Render(cs[..|cs| - 1]) + ([SLASH] + cs[|cs| - 1]);
      ResolveWalks(at, front);
      hide Resolve;
      hide Render;
      ResolveConcat(at, Render(front), [SLASH] + last);
      ResolveOne(Resolve(at, Render(front)), last);
    }
  }

  lemma {:induction false} WalkNames(at: Place, names: seq<seq<byte>>)
    requires forall i :: 0 <= i < |names| ==> Normal(names[i])
    ensures Walk(at, names) == at.(names := at.names + names)
    decreases |names|
  {
    if names == [] {
      assert at.names + names == at.names;
    } else {
      var front, last := names[..|names| - 1], names[|names| - 1];
      assert Normal(last) && at.names + front + [last] == at.names + names;
      WalkNames(at, front);
    }
  }

  /** Nothing is left to remove: canonical paths are fixed points, absolute or not. */
  lemma Idempotent(path: seq<byte>)
    ensures Canonical(Canonical(path)) == Canonical(path)
  {
    var at := Destination(path);
    ResolveTidies(Place(Component(path), []), path[|Component(path)|..]);
    // The text of a tidy place leads to that place.
    assert Destination(Text(at)) == at by {
      RenderStarts(at.names);
      ComponentOf(at.head, Render(at.names));
      ResolveWalks(Place(at.head, []), at.names);
      WalkNames(Place(at.head, []), at.names);
      assert [] + at.names == at.names;
    }
    assert Destination([SLASH]) == Place([], []) by {
      var s: seq<byte> := [SLASH];
      assert s[1..] == [] && Component(s) == [] && s[0..] == s;
      assert Resolve(Place([], []), s) == Enter(Place([], []), []);
    }
    hide Resolve;
  }

  /** An absolute path stays absolute, and every one of its components is a name. */
  lemma Absolute(path: seq<byte>)
    requires path != [] && path[0] == '/' as int
    ensures var at := Destination(path);
            && Tidy(at) && at.head == []
            && Canonical(path) == (if at.names == [] then [SLASH] else Render(at.names))
            && Canonical(path)[0] == SLASH
  {
    var at := Destination(path);
    ResolveTidies(Place([], []), path);
    HeadStaysEmpty(Place([], []), path);
    RenderStarts(at.names);
    assert path[0..] == path;
    assert [] + Render(at.names) == Render(at.names);
  }

  lemma {:induction false} HeadStaysEmpty(at: Place, rest: seq<byte>)
    requires (rest == [] || rest[0] == SLASH) && at.head == []
    ensures Resolve(at, rest).head == []
    decreases |rest|
  {
    if rest != [] {
      var c := Component(rest[1..]);
      assert rest[1 + |c|..] == rest[1..][|c|..];
      HeadStaysEmpty(Enter(at, c), rest[1 + |c|..]);
    }
  }

  // ----- how long it is -----

  lemma EnterShortens(at: Place, c: seq<byte>)
    ensures |Text(Enter(at, c))| <= |Text(at)| + 1 + |c|
  {
    var at' := Enter(at, c);
    if c != [] && c != HERE && c != UP {
      assert at'.names[..|at'.names| - 1] == at.names;
    }
  }

  lemma {:induction false} ResolveShortens(at: Place, rest: seq<byte>)
    requires rest == [] || rest[0] == SLASH
    ensures |Text(Resolve(at, rest))| <= |Text(at)| + |rest|
    decreases |rest|
  {
    hide Enter;
    hide Component;
    hide Text;
    if rest == [] {
    } else {
      var c := Component(rest[1..]);
      ResolveNext(at, rest);
      EnterShortens(at, c);
      ResolveShortens(Enter(at, c), rest[1 + |c|..]);
    }
  }

  /** The canonical text is no longer than the path it is made of, unless there is no path at all. */
  lemma FitsExactly(path: seq<byte>)
    ensures |Canonical(path)| <= |path| <==> path != []
  {
    var head := Component(path);
    ResolveShortens(Place(head, []), path[|head|..]);
    hide Resolve;
  }

  // ----- the loop -----

  /** Between components: the text of `at` is written, and the rest of the path leads on from there. */
  ghost predicate Between(path: seq<byte>, b: seq<byte>, p: nat, cp: nat, at: Place) {
    && |b| == |path| + 1 && cp <= p <= |path| && (p < |path| ==> path[p] == SLASH)
    && Resolve(at, path[p..]) == Destination(path) && Tidy(at)
    && b[..cp] == Text(at)
  }

  /** Inside a component: with its next `todo` bytes the text will be that of `at`. */
  ghost predicate Inside(path: seq<byte>, b: seq<byte>, p: nat, cp: nat, at: Place, todo: nat) {
    && |b| == |path| + 1 && cp <= p && 0 < todo && p + todo <= |path|
    && (p + todo < |path| ==> path[p + todo] == SLASH)
    && Resolve(at, path[p + todo..]) == Destination(path) && Tidy(at)
    && SLASH !in path[p..p + todo]
    && b[..cp] + path[p..p + todo] == Text(at)
  }

  /** The path ended with a slash, which was copied. */
  ghost predicate Trailing(path: seq<byte>, b: seq<byte>, p: nat, cp: nat, at: Place) {
    && |b| == |path| + 1 && cp <= p == |path| && at == Destination(path) && Tidy(at)
    && b[..cp] == Text(at) + [SLASH]
  }

  ghost predicate Reached(path: seq<byte>, b: seq<byte>, p: nat, cp: nat, at: Place, todo: nat, trailing: bool) {
    if todo > 0 then Inside(path, b, p, cp, at, todo)
    else if trailing then Trailing(path, b, p, cp, at)
    else Between(path, b, p, cp, at)
  }

  lemma Sets(path: seq<byte>, b: seq<byte>)
    requires |b| == |path| + 1
    ensures Reached(path, b, 0, 0, Place(Component(path), []), |Component(path)|, false)
  {
    var n := |Component(path)|;
    assert b[..0] == [] && path[0..n] == path[..n];
    assert [] + path[..n] == path[..n];
  }

  lemma {:induction false} Copies(path: seq<byte>, b: seq<byte>, p: nat, cp: nat, at: Place, todo: nat)
    requires Inside(path, b, p, cp, at, todo)
    ensures path[p] != SLASH && Reached(path, b[cp := path[p]], p + 1, cp + 1, at, todo - 1, false)
  {
    hide Resolve;
    hide Text;
    hide Destination;
    hide Tidy;
    var b', rest := b[cp := path[p]], path[p..p + todo];
    assert rest[0] == path[p] && path[p + 1..p + todo] == rest[1..];
    assert b'[..cp + 1] == b[..cp] + [path[p]];
    assert b[..cp] + [path[p]] + rest[1..] == b[..cp] + rest;
    if todo == 1 {
      assert rest[1..] == [] && b'[..cp + 1] + [] == b'[..cp + 1];
    }
  }

  /** What the code looks at after a slash tells which component follows. */
  lemma Follows(path: seq<byte>, p: nat)
    requires p < |path| && path[p] == SLASH
    ensures var c, e := Component(path[p + 1..]), |path|;
            && p + 1 + |c| <= e && c == path[p + 1..p + 1 + |c|] && (p + 1 + |c| < e ==> path[p + 1 + |c|] == SLASH)
            && (c == [] <==> p + 1 == e || path[p + 1] == SLASH)
            && (c == HERE <==> p + 1 < e && path[p + 1] == DOT && (p + 2 >= e || path[p + 2] == SLASH))
            && (c == UP <==>
                p + 2 < e && path[p + 1] == DOT && path[p + 2] == DOT
                && (p + 3 >= e || path[p + 3] == SLASH))
  {
    var s := path[p + 1..];
    var c := Component(s);
    assert forall k :: 0 <= k < |s| ==> s[k] == path[p + 1 + k];
    assert forall k :: 0 <= k < |c| ==> c[k] == s[k];
  }

  lemma EntersNext(path: seq<byte>, p: nat, at: Place)
    requires p < |path| && path[p] == SLASH
    ensures var c := Component(path[p + 1..]);
            && path[p..][0] == SLASH
            && p + 1 + |c| <= |path| && (p + 1 + |c| < |path| ==> path[p + 1 + |c|..][0] == SLASH)
            && Resolve(at, path[p..]) == Resolve(Enter(at, c), path[p + 1 + |c|..])
  {
    hide Enter;
    hide Resolve;
    hide Component;
    var rest := path[p..];
    assert rest[1..] == path[p + 1..];
    ResolveNext(at, rest);
    var c := Component(rest[1..]);
    assert rest[1 + |c|..] == path[p + 1 + |c|..];
  }

  /** An empty or "." component is skipped. */
  lemma Skips(path: seq<byte>, b: seq<byte>, p: nat, cp: nat, at: Place)
    requires Between(path, b, p, cp, at) && p < |path|
    requires var c := Component(path[p + 1..]); c == [] || c == HERE
    ensures Between(path, b, p + 1 + |Component(path[p + 1..])|, cp, at)
  {
    EntersNext(path, p, at);
    hide Resolve;
    hide Text;
    hide Destination;
    hide Tidy;
  }

  lemma TextNext(at: Place)
    requires at.names != []
    ensures Text(at) == Text(at.(names := at.names[..|at.names| - 1])) + ([SLASH] + at.names[|at.names| - 1])
  {
  }

  /** A ".." component: the text is cut at the slash of its last name. */
  lemma {:induction false} BacksUp(path: seq<byte>, b: seq<byte>, p: nat, cp: nat, at: Place, cp': nat)
    requires Between(path, b, p, cp, at) && p < |path|
    requires Component(path[p + 1..]) == UP
    requires cp' == |Text(Enter(at, UP))|
    ensures Between(path, b, p + 3, cp', Enter(at, UP))
  {
    hide *;
    BetweenHolds(path, b, p, cp, at);
    EntersNext(path, p, at);
    UpTidies(at);
    assert b[..cp'] == b[..cp][..cp'];
    assert |UP| == 2;
    NowBetween(path, b, p + 3, cp', Enter(at, UP));
  }

  lemma BetweenHolds(path: seq<byte>, b: seq<byte>, p: nat, cp: nat, at: Place)
    requires Between(path, b, p, cp, at)
    ensures |b| == |path| + 1 && cp <= p <= |path| && (p < |path| ==> path[p] == SLASH)
    ensures (path[p..] == [] || path[p..][0] == SLASH) && Resolve(at, path[p..]) == Destination(path)
    ensures Tidy(at) && b[..cp] == Text(at)
  {
  }

  lemma NowBetween(path: seq<byte>, b: seq<byte>, p: nat, cp: nat, at: Place)
    requires |b| == |path| + 1 && cp <= p <= |path| && (p < |path| ==> path[p] == SLASH)
    requires Resolve(at, path[p..]) == Destination(path) && Tidy(at) && b[..cp] == Text(at)
    ensures Between(path, b, p, cp, at)
  {
  }

  lemma UpTidies(at: Place)
    requires Tidy(at)
    ensures Tidy(Enter(at, UP)) && Text(Enter(at, UP)) <= Text(at) && |UP| == 2
  {
    if at.names != [] {
      TextNext(at);
    }
  }

  lemma EnterName(at: Place, c: seq<byte>)
    requires Tidy(at) && Normal(c)
    ensures Tidy(Enter(at, c)) && Text(Enter(at, c)) == Text(at) + [SLASH] + c
  {
    var at' := Enter(at, c);
    assert at'.names[..|at'.names| - 1] == at.names;
    TextNext(at');
    hide Text;
    assert Text(at) + ([SLASH] + c) == Text(at) + [SLASH] + c;
  }

  /** A slash that is copied: a name begins, or the path ends. */
  lemma CopiesSlash(path: seq<byte>, b: seq<byte>, p: nat, cp: nat, at: Place)
    requires Between(path, b, p, cp, at) && p < |path|
    requires var c := Component(path[p + 1..]); c != HERE && c != UP && (c == [] ==> p + 1 == |path|)
    ensures var c := Component(path[p + 1..]);
            Reached(path, b[cp := SLASH], p + 1, cp + 1, Enter(at, c), |c|, c == [])
  {
    var c := Component(path[p + 1..]);
    if c == [] {
      assert path[p + 1..] == [] && Trailing(path, b[cp := SLASH], p + 1, cp + 1, at) by {
        EntersNext(path, p, at);
        assert path[p + 1..] == [];
        var b' := b[cp := SLASH];
        assert b'[..cp + 1] == b[..cp] + [SLASH];
        hide Destination;
        hide Text;
      }
      hide Between;
      hide Trailing;
    } else {
      CopiesNameSlash(path, b, p, cp, at, c);
      hide Between;
      hide Inside;
    }
  }

  lemma {:induction false} CopiesNameSlash(path: seq<byte>, b: seq<byte>, p: nat, cp: nat, at: Place, c: seq<byte>)
    requires Between(path, b, p, cp, at) && p < |path|
    requires c == Component(path[p + 1..]) && Normal(c)
    ensures Inside(path, b[cp := SLASH], p + 1, cp + 1, Enter(at, c), |c|)
  {
    hide Resolve;
    hide Destination;
    hide Text;
    hide Enter;
    hide Tidy;
    EntersNext(path, p, at);
    Follows(path, p);
    EnterName(at, c);
    hide Component;
    assert b[cp := SLASH][..cp + 1] == b[..cp] + [SLASH];
  }

  /** The slash that starts the last name is the last one in the text. */
  lemma LastSlash(b: seq<byte>, cp: nat, at: Place)
    requires cp <= |b| && Tidy(at) && b[..cp] == Text(at)
    ensures at.names == [] ==> forall k :: 0 <= k < cp ==> b[k] != SLASH
    ensures at.names != [] ==>
      var n := |Text(Enter(at, UP))|;
      n + 1 < cp && b[n] == SLASH && forall k :: n < k < cp ==> b[k] != SLASH
  {
    assert forall k :: 0 <= k < cp ==> b[k] == b[..cp][k];
    if at.names == [] {
      assert Text(at) == at.head;
    } else {
      var last, front := at.names[|at.names| - 1], Text(Enter(at, UP));
      assert Normal(last);
      TextNext(at);
      assert b[..cp] == front + ([SLASH] + last);
      hide Text;
      hide Tidy;
      assert forall k :: |front| < k < cp ==> b[k] == last[k - |front| - 1];
    }
  }

  /** The text is written; there is room for its end exactly if the path was not empty. */
  ghost predicate Finishes(path: seq<byte>, b: seq<byte>, cp: nat) {
    && cp == |Canonical(path)| && cp <= |b| && b[..cp] == Canonical(path)
    && (cp < |b| <==> path != [])
  }

  /** A text never ends with a slash. */
  lemma Ends(path: seq<byte>, b: seq<byte>, cp: nat, at: Place, trailing: bool)
    requires Reached(path, b, |path|, cp, at, 0, trailing) && (trailing ==> path != [])
    ensures if cp > 1 && b[cp - 1] == SLASH then Finishes(path, b, cp - 1)
            else if cp == 0 then Finishes(path, b[0 := SLASH], 1)
            else Finishes(path, b, cp)
  {
    assert path[|path|..] == [];
    if trailing {
      hide Destination;
      hide Text;
      assert b[..cp][cp - 1] == SLASH;
      assert b[..cp - 1] == b[..cp][..cp - 1] == Text(at);
    } else {
      assert at == Destination(path);
      LastSlash(b, cp, at);
      hide Destination;
      hide Text;
    }
  }

  /** Cuts the text back to the last slash before `cp`, that slash included. */
  method BackUp(canonpath: array<byte>, start: nat, ghost at: Place) returns (cp: nat)
    requires start <= canonpath.Length && Tidy(at) && canonpath[..start] == Text(at)
    ensures cp == |Text(Enter(at, UP))| <= start
  {
    ghost var target := |Text(Enter(at, UP))|;
    LastSlash(canonpath[..], start, at);
    assert canonpath[..][..start] == canonpath[..start];
    assert at.names == [] ==> Text(Enter(at, UP)) == [];
    hide Text;
    hide Enter;
    cp := start;
    while cp > 0
      invariant target <= cp <= start
      invariant at.names != [] ==> target < cp
    {
      cp := cp - 1;
      if canonpath[cp] == SLASH {
        break;
      }
    }
  }

  /** Nothing for an empty string, the text, or a text whose end lies behind the buffer. */
  datatype Outcome = Nothing | Made | Overrun

  /** How the call ends, from the byte `path` points at and the length. */
  function OutcomeOf(first: byte, len: nat): Outcome {
    if first == NUL then Nothing else if len == 0 then Overrun else Made
  }

  /**
   * The canonical text of the first `len` bytes, relative paths included, or nothing if the first
   * byte, which is looked at whatever `len` is, is a NUL. The write position never passes the read
   * position, so the copy of the path has room for the text, but for "/" made of no bytes at all:
   * its NUL is written behind the buffer.
   */
  method CanonicalizePath(data: seq<byte>, len: nat) returns (r: Outcome, canonpath: array<byte>)
    requires data != [] && len <= |data|
    ensures r == OutcomeOf(data[0], len)
    ensures fresh(canonpath) && canonpath.Length == len + 1
    ensures r.Made? ==> Holds(canonpath[..], 0, Canonical(data[..len]))
    ensures r.Overrun? ==> canonpath[..] == Canonical(data[..len])
  {
    hide *;
    OutcomeCases(data[0], len);
    var path := data[..len];
    canonpath := new byte[len + 1](i requires 0 <= i <= len => if i < |path| then path[i] else NUL);
    if data[0] == NUL {
      return Nothing, canonpath;
    }
    ghost var at, todo, trailing := Place(Component(path), []), |Component(path)|, false;
    Sets(path, canonpath[..]);
    var cp: nat, p: nat, e: nat := 0, 0, |path|;
    while p < e
      invariant cp <= p <= e && 0 <= todo && p + todo <= e
      invariant trailing ==> p == e > 0
      invariant Reached(path, canonpath[..], p, cp, at, todo, trailing)
      decreases e - p
    {
      ghost var b := canonpath[..];
      Looks(path, b, p, cp, at, todo);
      if path[p] == SLASH {
        ghost var c := Component(path[p + 1..]);
        if p + 1 < e && path[p + 1] == SLASH {
          Skips(path, b, p, cp, at);
          BetweenIsReached(path, b, p + 1, cp, at);
          p := p + 1;
          continue;
        }
        if p + 1 < e && path[p + 1] == DOT {
          if p + 2 >= e || path[p + 2] == SLASH {
            Skips(path, b, p, cp, at);
            BetweenIsReached(path, b, p + 2, cp, at);
            p := p + 2;
            continue;
          }
          if p + 2 < e && path[p + 2] == DOT && (p + 3 >= e || path[p + 3] == SLASH) {
            ghost var was := cp;
            TextWritten(path, b, p, cp, at);
            cp := BackUp(canonpath, cp, at);
            BacksUp(path, b, p, was, at, cp);
            at := Enter(at, UP);
            BetweenIsReached(path, b, p + 3, cp, at);
            p := p + 3;
            continue;
          }
        }
        CopiesSlash(path, b, p, cp, at);
        at, todo, trailing := Enter(at, c), |c|, c == [];
      } else {
        Copies(path, b, p, cp, at, todo);
        todo := todo - 1;
      }
      canonpath[cp] := path[p];
      assert canonpath[..] == b[cp := path[p]];
      cp, p := cp + 1, p + 1;
    }
    ghost var b := canonpath[..];
    Ends(path, b, cp, at, trailing);
    if cp > 1 && canonpath[cp - 1] == SLASH {
      cp := cp - 1;
    } else if cp == 0 {
      canonpath[0] := SLASH;
      assert canonpath[..] == b[0 := SLASH];
      cp := 1;
    }
    Terminates(path, canonpath[..], cp);
    if cp == canonpath.Length {
      return Overrun, canonpath;
    }
    ghost var b' := canonpath[..];
    canonpath[cp] := NUL;
    assert canonpath[..] == b'[cp := NUL];
    r := Made;
  }

  lemma OutcomeCases(first: byte, len: nat)
    ensures OutcomeOf(first, len) == if first == NUL then Nothing else if len == 0 then Overrun else Made
  {
  }

  /** Before the end of the path: inside a component exactly if the next byte is not a slash. */
  lemma {:induction false} Looks(path: seq<byte>, b: seq<byte>, p: nat, cp: nat, at: Place, todo: nat)
    requires Reached(path, b, p, cp, at, todo, false) && p < |path|
    ensures cp < |b| == |path| + 1
    ensures path[p] == SLASH ==> todo == 0 && Between(path, b, p, cp, at)
    ensures path[p] != SLASH ==> todo > 0 && Inside(path, b, p, cp, at, todo)
    ensures path[p] == SLASH ==>
      var c, e := Component(path[p + 1..]), |path|;
      && p + 1 + |c| <= e
      && (c == [] <==> p + 1 == e || path[p + 1] == SLASH)
      && (c == HERE <==> p + 1 < e && path[p + 1] == DOT && (p + 2 >= e || path[p + 2] == SLASH))
      && (c == UP <==> p + 2 < e && path[p + 1] == DOT && path[p + 2] == DOT && (p + 3 >= e || path[p + 3] == SLASH))
  {
    if todo > 0 {
      assert path[p..p + todo][0] == path[p];
    }
    if path[p] == SLASH {
      Follows(path, p);
    }
  }

  lemma BetweenIsReached(path: seq<byte>, b: seq<byte>, p: nat, cp: nat, at: Place)
    requires Between(path, b, p, cp, at)
    ensures Reached(path, b, p, cp, at, 0, false)
  {
  }

  lemma TextWritten(path: seq<byte>, b: seq<byte>, p: nat, cp: nat, at: Place)
    requires Between(path, b, p, cp, at)
    ensures Tidy(at) && cp <= |b| && b[..cp] == Text(at)
  {
  }

  lemma Terminates(path: seq<byte>, b: seq<byte>, cp: nat)
    requires Finishes(path, b, cp)
    ensures cp <= |b| && (cp < |b| <==> path != [])
    ensures if path != [] then Holds(b[cp := NUL], 0, Canonical(path)) else b == Canonical(path)
  {
    if path != [] {
      var b' := b[cp := NUL];
      assert b'[0..0 + cp] == b[..cp];
    } else {
      assert b[..cp] == b;
    }
  }
}
