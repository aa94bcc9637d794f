/** The arguments `exec_direct` is given are the ones `main_exec` passes on. */
module ExecRoundTrip {
  import opened Bytes
  import opened CStrings
  import opened Common
  import opened UrlEncoding
  import opened FormFields
  import opened FormRoundTrip
  import opened CommandLine
  import opened ExecRequest

  /** The arguments that are not empty, as bytes. */
  function NonEmpty(args: seq<seq<scalar>>): seq<seq<byte>> {
    if args == [] then []
    else NonEmpty(args[..|args| - 1]) + (if args[|args| - 1] == [] then [] else [Utf8(args[|args| - 1])])
  }

  function Texts(args: seq<seq<scalar>>): seq<seq<byte>> {
    seq(|args|, i requires 0 <= i < |args| => Utf8(args[i]))
  }

  predicate NulFree(args: seq<seq<scalar>>) {
    forall i :: 0 <= i < |args| ==> 0 !in args[i]
  }

  // ----- a quoted argument is read back as itself -----

  /** What ECMAScript calls white space and line terminators. */
  const WHITE_SPACE: set<scalar> :=
    {0x9, 0xA, 0xB, 0xC, 0xD, 0x20, 0xA0, 0x1680, 0x2000, 0x2001, 0x2002, 0x2003, 0x2004, 0x2005, 0x2006, 0x2007,
     0x2008, 0x2009, 0x200A, 0x2028, 0x2029, 0x202F, 0x205F, 0x3000, 0xFEFF}

  function QuoteChar(c: scalar): seq<scalar> {
    if c == '\\' as int || c in WHITE_SPACE then ['\\' as int, c] else [c]
  }

  lemma SpacesSpelt(c: scalar)
    ensures IsJsSpace(c) <==> c in WHITE_SPACE
  {
  }

  lemma EscapesNext(c: scalar, rest: seq<scalar>)
    ensures EscapeSpaces([c] + rest) == (if IsJsSpace(c) then [ESCAPE, c] else [c]) + EscapeSpaces(rest)
  {
    assert ([c] + rest)[1..] == rest;
  }

  /** The two replacements amount to one escape before each backslash and each white space. */
  lemma QuoteNext(s: seq<scalar>)
    requires s != []
    ensures Quote(s) == QuoteChar(s[0]) + Quote(s[1..])
  {
    var rest := DoubleEscapes(s[1..]);
    SpacesSpelt(s[0]);
    hide WHITE_SPACE;
    EscapesNext(s[0], rest);
    if s[0] == ESCAPE {
      EscapesNext(ESCAPE, [ESCAPE] + rest);
      assert [ESCAPE, ESCAPE] + rest == [ESCAPE] + ([ESCAPE] + rest);
      assert [ESCAPE] + ([ESCAPE] + EscapeSpaces(rest)) == [ESCAPE, ESCAPE] + EscapeSpaces(rest);
    }
  }

  /** Six more bits, in a byte of their own. */
  predicate GoesOn(front: int, u: byte, c: int) {
    0x80 <= u <= 0xBF && c == front * 0x40 + (u as int - 0x80)
  }

  /** The table of section 3 of RFC 3629. */
  predicate IsUtf8Of(u: seq<byte>, c: scalar) {
    if c <= 0x7F then u == [c]
    else if c <= 0x7FF then |u| == 2 && GoesOn(u[0] as int - 0xC0, u[1], c)
    else if c <= 0xFFFF then |u| == 3 && GoesOn(u[0] as int - 0xE0, u[1], c / 0x40) && GoesOn(c / 0x40, u[2], c)
    else
      && |u| == 4 && GoesOn(u[0] as int - 0xF0, u[1], c / 0x1000) && GoesOn(c / 0x1000, u[2], c / 0x40)
      && GoesOn(c / 0x40, u[3], c)
  }

  lemma GoesOnExactly(front: int, u: byte, c: int)
    requires c >= 0
    ensures GoesOn(front, u, c) <==> front == c / 0x40 && u as int == 0x80 + c % 0x40
  {
  }

  lemma Quotients(c: int)
    requires c >= 0
    ensures c / 0x40 / 0x40 == c / 0x1000 && c / 0x1000 / 0x40 == c / 0x40000
  {
  }

  /** The bytes one by one. */
  predicate IsUtf8Char(u: seq<byte>, c: scalar) {
    if c < 0x80 then |u| == 1 && u[0] == c
    else if c < 0x800 then |u| == 2 && u[0] as int == 0xC0 + c / 64 && u[1] as int == 0x80 + c % 64
    else if c < 0x10000 then
      |u| == 3 && u[0] as int == 0xE0 + c / 4096 && u[1] as int == 0x80 + c / 64 % 64 && u[2] as int == 0x80 + c % 64
    else
      && |u| == 4 && u[0] as int == 0xF0 + c / 262144 && u[1] as int == 0x80 + c / 4096 % 64
      && u[2] as int == 0x80 + c / 64 % 64 && u[3] as int == 0x80 + c % 64
  }

  lemma BytesAre(u: seq<byte>, c: scalar)
    ensures u == Utf8Char(c) <==> IsUtf8Char(u, c)
  {
    if IsUtf8Char(u, c) {
      assert |u| == |Utf8Char(c)| && forall i :: 0 <= i < |u| ==> u[i] == Utf8Char(c)[i];
    }
  }

  lemma BytesGoOn(u: seq<byte>, c: scalar)
    ensures IsUtf8Char(u, c) <==> IsUtf8Of(u, c)
  {
    Quotients(c);
    if |u| == 1 {
      assert u == [u[0]];
    } else if |u| == 2 {
      GoesOnExactly(u[0] as int - 0xC0, u[1], c);
    } else if |u| == 3 {
      GoesOnExactly(u[0] as int - 0xE0, u[1], c / 0x40);
      GoesOnExactly(c / 0x40, u[2], c);
    } else if |u| == 4 {
      GoesOnExactly(u[0] as int - 0xF0, u[1], c / 0x1000);
      GoesOnExactly(c / 0x1000, u[2], c / 0x40);
      GoesOnExactly(c / 0x40, u[3], c);
    }
    hide GoesOn;
  }

  /** A character is written as its bytes in UTF-8, and no other. */
  lemma Utf8Exactly(c: scalar, u: seq<byte>)
    ensures u == Utf8Char(c) <==> IsUtf8Of(u, c)
  {
    hide *;
    BytesAre(u, c);
    BytesGoOn(u, c);
  }

  lemma {:induction false} Utf8Concat(s: seq<scalar>, t: seq<scalar>)
    ensures Utf8(s + t) == Utf8(s) + Utf8(t)
    decreases |s|
  {
    if s == [] {
      assert s + t == t;
    } else {
      assert (s + t)[1..] == s[1..] + t;
      Utf8Concat(s[1..], t);
    }
  }

  lemma Utf8One(c: scalar)
    ensures Utf8([c]) == Utf8Char(c)
  {
    assert [c][1..] == [];
  }

  predicate Plain(u: seq<byte>) {
    forall k :: 0 <= k < |u| ==> u[k] != BACKSLASH && !IsSpace(u[k])
  }

  lemma {:induction false} ReadsPlain(u: seq<byte>, rest: seq<byte>, cur: seq<byte>, begun: bool)
    requires Plain(u)
    ensures Words(u + rest, cur, begun) == Words(rest, cur + u, begun || u != [])
    decreases |u|
  {
    if u == [] {
      assert u + rest == rest && cur + u == cur;
    } else {
      var s := u + rest;
      assert s[1..] == u[1..] + rest && cur + [u[0]] + u[1..] == cur + u;
      ReadsPlain(u[1..], rest, cur + [u[0]], true);
    }
  }

  lemma ReadsEscaped(u: seq<byte>, rest: seq<byte>, cur: seq<byte>, begun: bool)
    requires u != [] && Plain(u[1..])
    ensures Words([BACKSLASH] + u + rest, cur, begun) == Words(rest, cur + u, true)
  {
    var s := [BACKSLASH] + u + rest;
    assert s[2..] == u[1..] + rest && s[1] == u[0];
    ReadsPlain(u[1..], rest, cur + [u[0]], true);
    assert cur + [u[0]] + u[1..] == cur + u;
  }

  lemma EscapeIsBackslash()
    ensures Utf8Char(ESCAPE) == [BACKSLASH] && Utf8Char(BLANK) == [SPACE]
  {
  }

  lemma ReadsChar(c: scalar, rest: seq<byte>, cur: seq<byte>, begun: bool)
    ensures Words(Utf8(QuoteChar(c)) + rest, cur, begun) == Words(rest, cur + Utf8Char(c), true)
  {
    SpacesSpelt(c);
    hide WHITE_SPACE;
    assert Utf8Char(c) != [] && Plain(Utf8Char(c)[1..])
           && (c != ESCAPE && !IsJsSpace(c) ==> Plain(Utf8Char(c)));
    EscapeIsBackslash();
    Utf8One(c);
    assert Utf8([ESCAPE, c]) == Utf8Char(ESCAPE) + Utf8Char(c) by {
      assert [ESCAPE, c] == [ESCAPE] + [c];
      Utf8Concat([ESCAPE], [c]);
      Utf8One(ESCAPE);
      Utf8One(c);
    }
    hide Words;
    hide Utf8Char;
    hide Utf8;
    hide Plain;
    if c == ESCAPE || IsJsSpace(c) {
      ReadsEscaped(Utf8Char(c), rest, cur, begun);
    } else {
      ReadsPlain(Utf8Char(c), rest, cur, begun);
    }
  }

  /** Quoting, then UTF-8, then splitting: one argument, and no word boundary inside it. */
  lemma {:induction false} ReadsQuoted(s: seq<scalar>, rest: seq<byte>, cur: seq<byte>, begun: bool)
    ensures Words(Utf8(Quote(s)) + rest, cur, begun) == Words(rest, cur + Utf8(s), begun || s != [])
    decreases |s|
  {
    if s == [] {
      assert Utf8(Quote(s)) + rest == rest && cur + Utf8(s) == cur;
    } else {
      var u, head, tail := Utf8Char(s[0]), Utf8(QuoteChar(s[0])), Utf8(Quote(s[1..]));
      assert Utf8(s) == u + Utf8(s[1..]);
      QuoteNext(s);
      hide *;
      ReadsQuoted(s[1..], rest, cur + u, true);
      Utf8Concat(QuoteChar(s[0]), Quote(s[1..]));
      Associates(head, tail, rest);
      Associates(cur, u, Utf8(s[1..]));
      ReadsChar(s[0], tail + rest, cur, begun);
    }
  }

  /** After the command string, the last argument is still open. */
  lemma {:induction false} ReadsCommand(args: seq<seq<scalar>>, rest: seq<byte>)
    requires args != []
    ensures var last := args[|args| - 1];
            Words(Utf8(CommandString(args)) + rest, [], false) ==
            NonEmpty(args[..|args| - 1]) + Words(rest, Utf8(last), last != [])
    decreases |args|
  {
    hide *;
    var n := |args| - 1;
    assert Words(Utf8(Quote(args[n])) + rest, [], false) == Words(rest, Utf8(args[n]), args[n] != []) by {
      hide *;
      ReadsQuoted(args[n], rest, [], false);
      Leftmost(Utf8(args[n]));
    }
    if n == 0 {
      OneCommand(args);
      Leftmost(Words(rest, Utf8(args[n]), args[n] != []));
    } else {
      var front, prev, quoted := args[..n], args[n - 1], Utf8(Quote(args[n])) + rest;
      CommandUtf8(args, rest);
      ReadsCommand(front, [SPACE] + quoted);
      ReadsSpace(quoted, Utf8(prev), prev != []);
      NonEmptyNext(front);
      Associates(NonEmpty(front[..n - 1]), if prev != [] then [Utf8(prev)] else [],
                 Words(rest, Utf8(args[n]), args[n] != []));
    }
  }

  lemma Leftmost<T>(a: seq<T>)
    ensures [] + a == a
  {
  }

  lemma OneCommand(args: seq<seq<scalar>>)
    requires |args| == 1
    ensures CommandString(args) == Quote(args[0]) && NonEmpty(args[..0]) == []
  {
  }

  lemma NonEmptyNext(args: seq<seq<scalar>>)
    requires args != []
    ensures var last := args[|args| - 1];
            NonEmpty(args) == NonEmpty(args[..|args| - 1]) + if last != [] then [Utf8(last)] else []
  {
  }

  lemma ReadsSpace(rest: seq<byte>, cur: seq<byte>, begun: bool)
    ensures Words([SPACE] + rest, cur, begun) == (if begun then [cur] else []) + Words(rest, [], false)
  {
    assert ([SPACE] + rest)[1..] == rest;
  }

  lemma Regroup<T>(a: seq<T>, b: seq<T>, c: seq<T>, d: seq<T>)
    ensures a + b + c + d == a + (b + (c + d))
  {
    Associates(b, c, d);
    Associates(a, b + c, d);
    Associates(a, b, c);
  }

  lemma CommandUtf8(args: seq<seq<scalar>>, rest: seq<byte>)
    requires |args| > 1
    ensures Utf8(CommandString(args)) + rest ==
            Utf8(CommandString(args[..|args| - 1])) + ([SPACE] + (Utf8(Quote(args[|args| - 1])) + rest))
  {
    var front, last := CommandString(args[..|args| - 1]), Quote(args[|args| - 1]);
    Utf8Concat(front + [BLANK], last);
    Utf8Concat(front, [BLANK]);
    Utf8One(BLANK);
    EscapeIsBackslash();
    hide Utf8;
    hide Quote;
    Regroup(Utf8(front), [SPACE], Utf8(last), rest);
  }

  lemma CommandWords(args: seq<seq<scalar>>)
    requires args != []
    ensures Words(Utf8(CommandString(args)), [], false) == NonEmpty(args)
  {
    ReadsCommand(args, []);
    assert Utf8(CommandString(args)) + [] == Utf8(CommandString(args));
  }

  // ----- no NUL gets in -----

  lemma {:induction false} Utf8NulFree(s: seq<scalar>)
    requires 0 !in s
    ensures NUL !in Utf8(s)
    decreases |s|
  {
    if s != [] {
      Utf8NulFree(s[1..]);
    }
  }

  lemma {:induction false} QuoteNulFree(s: seq<scalar>)
    requires 0 !in s
    ensures 0 !in Quote(s)
    decreases |s|
  {
    if s != [] {
      QuoteNext(s);
      QuoteNulFree(s[1..]);
    }
  }

  lemma {:induction false} CommandNulFree(args: seq<seq<scalar>>)
    requires args != [] && NulFree(args)
    ensures 0 !in CommandString(args)
    decreases |args|
  {
    QuoteNulFree(args[|args| - 1]);
    if |args| > 1 {
      CommandNulFree(args[..|args| - 1]);
    }
  }

  lemma {:induction false} WholeCString(s: seq<byte>, k: nat)
    requires NUL !in s && k <= |s|
    ensures CString(s, k) == s[k..]
    decreases |s| - k
  {
    if k < |s| {
      WholeCString(s, k + 1);
    }
  }

  // ----- the form -----

  lemma EncodedIsUncut(s: seq<byte>)
    ensures Uncut(Encode(s))
  {
    var e := Encode(s);
    forall k | 0 <= k < |e| ensures !Cuts(e[k]) {
      assert e[k] in e;
    }
  }

  /** What `main_exec` finds in the body `exec_direct` sends. */
  lemma FormFound(sid: seq<scalar>, args: seq<seq<scalar>>, f: nat)
    requires args != [] && f < |NAMES|
    ensures FieldOf(Print(Form(sid, args)), NAMES, f) ==
      if f == 0 then Given(Utf8(sid)) else if f == 1 then Given(Utf8(CommandString(args))) else Missing
  {
    var ps := Form(sid, args);
    EncodedIsUncut(Utf8(sid));
    EncodedIsUncut(Utf8(CommandString(args)));
    assert Uncut(SESSION_ID) && Uncut(COMMAND);
    FieldOfPrinted(ps, NAMES, f);
    FormKept(sid, args);
    FormLast(sid, args, f);
    DecodeEncode(Utf8(sid));
    DecodeEncode(Utf8(CommandString(args)));
  }

  lemma FormKept(sid: seq<scalar>, args: seq<seq<scalar>>)
    requires args != []
    ensures Kept(Form(sid, args), NAMES) == Form(sid, args)
  {
    var ps := Form(sid, args);
    assert ps[..1][..0] == [];
    assert Wanted(ps[..1], NAMES) <= 1 < |NAMES|;
    NothingDropped(ps, NAMES);
  }

  lemma FormLast(sid: seq<scalar>, args: seq<seq<scalar>>, f: nat)
    requires args != [] && f < |NAMES|
    ensures Last(Form(sid, args), NAMES[f]) ==
      if f == 0 then Some(UriComponent(sid)) else if f == 1 then Some(UriComponent(CommandString(args))) else None
  {
    var ps := Form(sid, args);
    NamesAreDistinct();
    assert ps[..1] == [ps[0]] && ps[..1][..0] == [];
    assert NAMES[0] == SESSION_ID && NAMES[1] == COMMAND;
    assert f != 0 ==> NAMES[f] != SESSION_ID;
    assert f > 1 ==> NAMES[f] != COMMAND;
    hide UriComponent;
    hide NAMES;
    assert Last(ps[..1], NAMES[f]) == if f == 0 then Some(UriComponent(sid)) else None;
  }

  // ----- the round trip -----

  /**
   * Whatever the arguments hold (blanks, backslashes, percent, plus and ampersand signs, any
   * Unicode character), each one that is not empty arrives as it was, in its place, if the
   * session may execute commands; without one that is not empty the answer is an error.
   */
  lemma RoundTrip(sid: seq<scalar>, args: seq<seq<scalar>>, granted: seq<byte> -> bool)
    requires args != [] && NulFree(args)
    ensures Requested(Print(Form(sid, args)), granted) ==
            if !granted(CString(Utf8(sid), 0)) then Failure(403)
            else if NonEmpty(args) == [] then Failure(400)
            else Command(NonEmpty(args))
  {
    hide *;
    var body, text := Print(Form(sid, args)), Utf8(CommandString(args));
    forall f: nat | f < |NAMES| ensures FieldOf(body, NAMES, f) == ExpectedField(Utf8(sid), text, f) {
      FormFound(sid, args, f);
      FieldExpected(Utf8(sid), text, f);
    }
    RequestedOf(body, granted, Utf8(sid), text);
    CommandNulFree(args);
    Utf8NulFree(CommandString(args));
    WholeCString(text, 0);
    assert text[0..] == text;
    CommandWords(args);
  }

  function ExpectedField(sid: seq<byte>, text: seq<byte>, f: nat): Field {
    if f == 0 then Given(sid) else if f == 1 then Given(text) else Missing
  }

  lemma FieldExpected(sid: seq<byte>, text: seq<byte>, f: nat)
    ensures ExpectedField(sid, text, f) == if f == 0 then Given(sid) else if f == 1 then Given(text) else Missing
  {
  }

  lemma RequestedOf(body: seq<byte>, granted: seq<byte> -> bool, sid: seq<byte>, text: seq<byte>)
    requires forall f: nat :: f < |NAMES| ==> FieldOf(body, NAMES, f) == ExpectedField(sid, text, f)
    ensures Requested(body, granted) ==
            if !granted(CString(sid, 0)) then Failure(403)
            else if Words(CString(text, 0), [], false) == [] then Failure(400)
            else Command(Words(CString(text, 0), [], false))
  {
    hide Words;
    hide CString;
    hide FieldOf;
    hide Consists;
  }

  lemma {:induction false} NonEmptySize(args: seq<seq<scalar>>)
    ensures |NonEmpty(args)| <= |args|
    ensures |NonEmpty(args)| == |args| <==> [] !in args
    ensures [] !in args ==> NonEmpty(args) == Texts(args)
    decreases |args|
  {
    if args != [] {
      var front, last := args[..|args| - 1], args[|args| - 1];
      NonEmptySize(front);
      assert args == front + [last];
      assert [] in args <==> [] in front || last == [];
      if [] !in args {
        assert Texts(args) == Texts(front) + [Utf8(last)];
      }
    }
  }

  /** The whole list arrives if the session may execute commands and no argument is empty, and only then. */
  lemma AllArrive(sid: seq<scalar>, args: seq<seq<scalar>>, granted: seq<byte> -> bool)
    requires args != [] && NulFree(args)
    ensures Requested(Print(Form(sid, args)), granted) == Command(Texts(args)) <==>
            granted(CString(Utf8(sid), 0)) && [] !in args
  {
    RoundTrip(sid, args, granted);
    NonEmptySize(args);
    hide *;
    hide Requested;
  }

  // ----- all four fields -----

  /** A letter, a digit or one of the others. */
  predicate Allowed(c: byte, others: string) {
    var x := c as char;
    'a' <= x <= 'z' || 'A' <= x <= 'Z' || '0' <= x <= '9' || x in others
  }

  predicate AllAllowed(s: seq<byte>, others: string) {
    forall k :: 0 <= k < |s| ==> Allowed(s[k], others)
  }

  lemma SpeltIn(c: byte, s: seq<byte>, t: string)
    requires Spelt(s, t)
    ensures c in s <==> c as char in t
  {
    if c in s {
      var i :| 0 <= i < |s| && s[i] == c;
      assert t[i] == c as char;
    }
    if c as char in t {
      var i :| 0 <= i < |t| && t[i] == c as char;
      assert s[i] == c;
    }
  }

  lemma ConsistsMeans(s: seq<byte>, others: seq<byte>, t: string)
    requires Spelt(others, t)
    ensures Consists(s, others) <==> AllAllowed(s, t)
  {
    forall k | 0 <= k < |s| ensures IsAlnum(s[k]) || s[k] in others <==> Allowed(s[k], t) {
      SpeltIn(s[k], others, t);
    }
    hide IsAlnum;
    hide Allowed;
  }

  lemma FieldsSpelt()
    ensures |NAMES| == 4 && Spelt(NAMES[0], "sessionid") && Spelt(NAMES[1], "command")
    ensures Spelt(NAMES[2], "filename") && Spelt(NAMES[3], "mimetype")
    ensures Spelt(IN_FILENAME, " ()<>@,;:[]?.=%-") && Spelt(IN_MIMETYPE, " .;=/-")
  {
  }

  lemma SameSpelling(s: seq<byte>, s': seq<byte>, t: string)
    requires Spelt(s, t) && Spelt(s', t)
    ensures s == s'
  {
  }

  function Four(names: seq<seq<byte>>, texts: seq<seq<byte>>): seq<Pair>
    requires |names| == 4 && |texts| == 4
  {
    [Pair(names[0], Encode(texts[0])), Pair(names[1], Encode(texts[1])), Pair(names[2], Encode(texts[2])),
     Pair(names[3], Encode(texts[3]))]
  }

  lemma FourFound(texts: seq<seq<byte>>, f: nat)
    requires |texts| == 4 && f < 4
    ensures FieldOf(Print(Four(NAMES, texts)), NAMES, f) == Given(texts[f])
  {
    var ps := Four(NAMES, texts);
    forall i: nat | i < 4 ensures Uncut(Encode(texts[i])) {
      EncodedIsUncut(texts[i]);
    }
    assert Uncut(SESSION_ID) && Uncut(COMMAND) && Uncut(FILENAME) && Uncut(MIMETYPE);
    hide Uncut;
    FieldOfPrinted(ps, NAMES, f);
    FourKept(texts);
    FourLast(texts, f);
    DecodeEncode(texts[f]);
    hide *;
  }

  lemma FourKept(texts: seq<seq<byte>>)
    requires |texts| == 4
    ensures Kept(Four(NAMES, texts), NAMES) == Four(NAMES, texts)
  {
    var ps := Four(NAMES, texts);
    forall n | 0 < n < |ps| ensures Wanted(ps[..n], NAMES) < |NAMES| {
      WantedFew(ps[..n], NAMES);
    }
    NothingDropped(ps, NAMES);
  }

  lemma {:induction false} WantedFew(ps: seq<Pair>, names: seq<seq<byte>>)
    ensures Wanted(ps, names) <= |ps|
    decreases |ps|
  {
    if ps != [] {
      WantedFew(ps[..|ps| - 1], names);
    }
  }

  lemma FourLast(texts: seq<seq<byte>>, f: nat)
    requires |texts| == 4 && f < 4
    ensures Last(Four(NAMES, texts), NAMES[f]) == Some(Encode(texts[f]))
  {
    var ps := Four(NAMES, texts);
    NamesAreDistinct();
    hide NAMES;
    LastEarlier(ps, NAMES[f], 3);
    LastEarlier(ps, NAMES[f], 2);
    LastEarlier(ps, NAMES[f], 1);
    LastEarlier(ps, NAMES[f], 0);
    assert ps[..4] == ps;
  }

  lemma LastEarlier(ps: seq<Pair>, name: seq<byte>, n: nat)
    requires n < |ps|
    ensures Last(ps[..n + 1], name) == if ps[n].name == name then Some(ps[n].raw) else Last(ps[..n], name)
  {
    assert ps[..n + 1][..n] == ps[..n];
  }

  /**
   * A form with all four fields, whatever their texts, as C strings: the session is looked at first,
   * then the characters of the file name, then those of the media type, then the words of the command.
   */
  lemma FourFields(names: seq<seq<byte>>, texts: seq<seq<byte>>, granted: seq<byte> -> bool)
    requires |names| == 4 && |texts| == 4
    requires Spelt(names[0], "sessionid") && Spelt(names[1], "command")
    requires Spelt(names[2], "filename") && Spelt(names[3], "mimetype")
    ensures var words := Words(CString(texts[1], 0), [], false);
            Requested(Print(Four(names, texts)), granted) ==
            if !granted(CString(texts[0], 0)) then Failure(403)
            else if !AllAllowed(CString(texts[2], 0), " ()<>@,;:[]?.=%-") then Failure(400)
            else if !AllAllowed(CString(texts[3], 0), " .;=/-") then Failure(400)
            else if words == [] then Failure(400)
            else Command(words)
  {
    hide *;
    FieldsSpelt();
    SameSpelling(names[0], NAMES[0], "sessionid");
    SameSpelling(names[1], NAMES[1], "command");
    SameSpelling(names[2], NAMES[2], "filename");
    SameSpelling(names[3], NAMES[3], "mimetype");
    assert names == NAMES;
    forall f: nat | f < 4 ensures FieldOf(Print(Four(NAMES, texts)), NAMES, f) == Given(texts[f]) {
      FourFound(texts, f);
    }
    ConsistsMeans(CString(texts[2], 0), IN_FILENAME, " ()<>@,;:[]?.=%-");
    ConsistsMeans(CString(texts[3], 0), IN_MIMETYPE, " .;=/-");
    FourRequested(Print(Four(NAMES, texts)), texts, granted);
  }

  lemma FourRequested(body: seq<byte>, texts: seq<seq<byte>>, granted: seq<byte> -> bool)
    requires |texts| == 4 && |NAMES| == 4 && forall f: nat :: f < 4 ==> FieldOf(body, NAMES, f) == Given(texts[f])
    ensures Requested(body, granted) ==
            if !granted(CString(texts[0], 0)) then Failure(403)
            else if !Consists(CString(texts[2], 0), IN_FILENAME) then Failure(400)
            else if !Consists(CString(texts[3], 0), IN_MIMETYPE) then Failure(400)
            else if Words(CString(texts[1], 0), [], false) == [] then Failure(400)
            else Command(Words(CString(texts[1], 0), [], false))
  {
    hide Words;
    hide CString;
    hide FieldOf;
    hide Consists;
  }
}
