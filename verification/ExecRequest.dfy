/** The command line's way from `exec_direct` of fs.js to the argument vector of `main_exec`. */
module ExecRequest {
  import opened Common
  import opened Bytes
  import opened CStrings
  import opened UrlEncoding
  import opened FormFields
  import opened FormRoundTrip
  import opened CommandLine

  // ----- the encoder -----

  /** A character of a well-formed JavaScript string. */
  type scalar = x: int | (0 <= x < 0xD800) || (0xE000 <= x < 0x110000)

  /** What `\s` matches. */
  predicate IsJsSpace(c: scalar) {
    || c == 32 || 9 <= c <= 13 || c == 0xA0 || c == 0x1680 || 0x2000 <= c <= 0x200A
    || c == 0x2028 || c == 0x2029 || c == 0x202F || c == 0x205F || c == 0x3000 || c == 0xFEFF
  }

  const ESCAPE: scalar := 92
  const BLANK: scalar := 32

  /** `replace(/\\/g, '\\\\')` */
  function DoubleEscapes(s: seq<scalar>): seq<scalar> {
    if s == [] then [] else (if s[0] == ESCAPE then [ESCAPE, ESCAPE] else [s[0]]) + DoubleEscapes(s[1..])
  }

  /** `replace(/(\s)/g, '\\$1')` */
  function EscapeSpaces(s: seq<scalar>): seq<scalar> {
    if s == [] then [] else (if IsJsSpace(s[0]) then [ESCAPE, s[0]] else [s[0]]) + EscapeSpaces(s[1..])
  }

  function Quote(s: seq<scalar>): seq<scalar> {
    EscapeSpaces(DoubleEscapes(s))
  }

  function CommandString(args: seq<seq<scalar>>): seq<scalar>
    requires args != []
  {
    if |args| == 1 then Quote(args[0])
    else CommandString(args[..|args| - 1]) + [BLANK] + Quote(args[|args| - 1])
  }

  function Utf8Char(c: scalar): seq<byte> {
    if c < 0x80 then [c]
    else if c < 0x800 then [0xC0 + c / 64, 0x80 + c % 64]
    else if c < 0x10000 then [0xE0 + c / 4096, 0x80 + c / 64 % 64, 0x80 + c % 64]
    else [0xF0 + c / 262144, 0x80 + c / 4096 % 64, 0x80 + c / 64 % 64, 0x80 + c % 64]
  }

  function Utf8(s: seq<scalar>): seq<byte> {
    if s == [] then [] else Utf8Char(s[0]) + Utf8(s[1..])
  }

  /** `encodeURIComponent` */
  function UriComponent(s: seq<scalar>): seq<byte> {
    Encode(Utf8(s))
  }

  const SESSION_ID: seq<byte> := [115, 101, 115, 115, 105, 111, 110, 105, 100]
  const COMMAND: seq<byte> := [99, 111, 109, 109, 97, 110, 100]
  const FILENAME: seq<byte> := [102, 105, 108, 101, 110, 97, 109, 101]
  const MIMETYPE: seq<byte> := [109, 105, 109, 101, 116, 121, 112, 101]

  /** The fields `main_exec` asks for. */
  const NAMES: seq<seq<byte>> := [SESSION_ID, COMMAND, FILENAME, MIMETYPE]

  function Form(sid: seq<scalar>, args: seq<seq<scalar>>): seq<Pair>
    requires args != []
  {
    [Pair(SESSION_ID, UriComponent(sid)), Pair(COMMAND, UriComponent(CommandString(args)))]
  }

  /** The request body for a command and its parameters. */
  method ExecDirect(sid: seq<scalar>, command: seq<scalar>, params: seq<seq<scalar>>) returns (postdata: seq<byte>)
    ensures postdata == Print(Form(sid, [command] + params))
  {
    var cmdstr := Quote(command);
    assert [command] + params[..0] == [command];
    for i := 0 to |params|
      invariant cmdstr == CommandString([command] + params[..i])
    {
      ghost var args := [command] + params[..i + 1];
      assert args[..|args| - 1] == [command] + params[..i];
      cmdstr := cmdstr + ([BLANK] + Quote(params[i]));
    }
    assert params[..|params|] == params;
    postdata := SESSION_ID + [EQUALS] + UriComponent(sid) + [AMPERSAND] + COMMAND + [EQUALS] + UriComponent(cmdstr);
    PrintForm(sid, [command] + params);
  }

  lemma PrintForm(sid: seq<scalar>, args: seq<seq<scalar>>)
    requires args != []
    ensures Print(Form(sid, args)) ==
      SESSION_ID + [EQUALS] + UriComponent(sid) + [AMPERSAND] + COMMAND + [EQUALS] + UriComponent(CommandString(args))
  {
    var ps := Form(sid, args);
    assert ps[..1] == [ps[0]] && ps[..1][..0] == [];
    PrintUnfolds(ps);
    assert PrintFront(ps[..1]) == PrintFront([]) + PrintPair(ps[0]) + [AMPERSAND];
    assert PrintFront([]) + PrintPair(ps[0]) == PrintPair(ps[0]);
  }

  // ----- the decoder -----

  /** `isalnum` in the C locale. */
  predicate IsAlnum(c: byte) {
    IsLetter(c) || 48 <= c <= 57
  }

  /** ` ()<>@,;:[]?.=%-` */
  const IN_FILENAME: seq<byte> := [32, 40, 41, 60, 62, 64, 44, 59, 58, 91, 93, 63, 46, 61, 37, 45]
  /** ` .;=/-` */
  const IN_MIMETYPE: seq<byte> := [32, 46, 59, 61, 47, 45]

  predicate Consists(s: seq<byte>, others: seq<byte>) {
    forall k :: 0 <= k < |s| ==> IsAlnum(s[k]) || s[k] in others
  }

  /** A field as the C string it is read as. */
  function Text(field: Field): Option<seq<byte>> {
    match field
    case Given(text) => Some(CString(text, 0))
    case _ => None
  }

  /** What becomes of a request: the form cannot be decoded, the answer is an error, or a command is to run. */
  datatype Request = Undecoded | Failure(status: nat) | Command(args: seq<seq<byte>>)

  /** The first of the checks of `main_exec` that fails, or the arguments; `granted` says who may execute at all. */
  function Requested(body: seq<byte>, granted: seq<byte> -> bool): Request {
    if exists f: nat | f < |NAMES| :: FieldOf(body, NAMES, f) == Malformed then Undecoded
    else
      var sid, filename := Text(FieldOf(body, NAMES, 0)), Text(FieldOf(body, NAMES, 2));
      var mimetype := Text(FieldOf(body, NAMES, 3));
      if sid.None? || !granted(sid.value) then Failure(403)
      else if filename.Some? && !Consists(filename.value, IN_FILENAME) then Failure(400)
      else if mimetype.Some? && !Consists(mimetype.value, IN_MIMETYPE) then Failure(400)
      else match Text(FieldOf(body, NAMES, 1))
        case None => Failure(400)
        case Some(text) =>
          var words := Words(text, [], false);
          if words == [] then Failure(400) else Command(words)
  }

  lemma {:induction false} HeldCString(b: seq<byte>, off: nat, s: seq<byte>, k: nat)
    requires Holds(b, off, s) && k <= |s|
    ensures CString(b, off + k) == CString(s, k)
    decreases |s| - k
  {
    if k < |s| {
      assert s[k] == b[off..off + |s|][k] == b[off + k];
      HeldCString(b, off, s, k + 1);
    }
  }

  lemma NamesAreDistinct()
    ensures Distinct(NAMES)
  {
    assert |SESSION_ID| == 9 && |COMMAND| == 7 && |FILENAME| == 8 && |MIMETYPE| == 8;
    assert FILENAME[0] != MIMETYPE[0];
  }

  /** The character loops over the file name and the media type. */
  method Acceptable(s: seq<byte>, others: seq<byte>) returns (ok: bool)
    ensures ok == Consists(s, others)
  {
    for k := 0 to |s|
      invariant Consists(s[..k], others)
    {
      if !IsAlnum(s[k]) && s[k] !in others {
        return false;
      }
      assert s[..k + 1] == s[..k] + [s[k]];
    }
    assert s[..|s|] == s;
    ok := true;
  }

  /** One decoded field, or nothing. */
  method TextAt(b: seq<byte>, value: int) returns (text: Option<seq<byte>>)
    requires value == NULL || 0 <= value <= |b|
    ensures text == if value == NULL then None else Some(CString(b, value))
  {
    text := if value == NULL then None else Some(CString(b, value));
  }

  /** `main_exec` up to the split arguments; `status` is that of the answer if there is an error. */
  method ExecArguments(post: array<byte>, len: nat, granted: seq<byte> -> bool)
    returns (found: bool, status: nat, argv: array<int>, chars: array<byte>)
    requires post.Length == len + 1 && post[len] == NUL
    modifies post
    ensures found == Requested(old(post[..len]), granted).Command?
    ensures status == match Requested(old(post[..len]), granted) case Failure(code) => code case _ => 0
    ensures found ==>
      var args := Requested(old(post[..len]), granted).args;
      && argv.Length == |args| + 1 && argv[|args|] == NULL
      && forall i :: 0 <= i < |args| ==> Holds(chars[..], argv[i], args[i])
  {
    hide Requested;
    hide Found;
    hide FieldOf;
    hide Consists;
    hide Words;
    ghost var body := post[..len];
    NamesAreDistinct();
    var values := new int[|NAMES|](_ => NULL);
    var ok := PostdecodeFields(post, len, NAMES, values);
    argv, chars, found, status := new int[0], new byte[0], false, 0;
    if !ok {
      NotDecoded(body, granted, post[..], values[..]);
      return;
    }
    ghost var b, vs := post[..], values[..];
    Decoded(body, b, vs);
    var sid := TextAt(post[..], values[0]);
    if sid.None? || !granted(sid.value) {
      Checked(body, granted, b, vs);
      status := 403;
      return;
    }
    var filename := TextAt(post[..], values[2]);
    if filename.Some? {
      var fine := Acceptable(filename.value, IN_FILENAME);
      if !fine {
        Checked(body, granted, b, vs);
        status := 400;
        return;
      }
    }
    var mimetype := TextAt(post[..], values[3]);
    if mimetype.Some? {
      var fine := Acceptable(mimetype.value, IN_MIMETYPE);
      if !fine {
        Checked(body, granted, b, vs);
        status := 400;
        return;
      }
    }
    Checked(body, granted, b, vs);
    var cmdline := TextAt(post[..], values[1]);
    if cmdline.None? {
      status := 400;
      return;
    }
    found, argv, chars := ParseCommand(cmdline.value);
    if !found {
      status := 400;
      return;
    }
    SplitArgs(cmdline.value, argv, chars);
  }

  function TextOf(b: seq<byte>, value: int): Option<seq<byte>>
    requires value == NULL || 0 <= value <= |b|
  {
    if value == NULL then None else Some(CString(b, value))
  }

  lemma NotDecoded(body: seq<byte>, granted: seq<byte> -> bool, b: seq<byte>, values: seq<int>)
    requires Found(body, NAMES, b, values, false)
    ensures Requested(body, granted) == Undecoded
  {
    hide FieldOf;
    hide Words;
    hide Consists;
  }

  /** The fields are where the form decoder left them. */
  lemma Decoded(body: seq<byte>, b: seq<byte>, values: seq<int>)
    requires |values| == |NAMES| && Found(body, NAMES, b, values, true)
    ensures forall f :: 0 <= f < |NAMES| ==> FieldOf(body, NAMES, f) != Malformed
    ensures forall f :: 0 <= f < |NAMES| ==>
      (values[f] == NULL || 0 <= values[f] <= |b|) && Text(FieldOf(body, NAMES, f)) == TextOf(b, values[f])
  {
    hide FieldOf;
    forall f: nat | f < |NAMES|
      ensures (values[f] == NULL || 0 <= values[f] <= |b|) && Text(FieldOf(body, NAMES, f)) == TextOf(b, values[f])
    {
      match FieldOf(body, NAMES, f)
      case Missing =>
      case Given(text) => HeldCString(b, values[f], text, 0);
      case Malformed =>
    }
  }

  /** The checks in terms of the buffer. */
  lemma Checked(body: seq<byte>, granted: seq<byte> -> bool, b: seq<byte>, values: seq<int>)
    requires |values| == |NAMES|
    requires forall f :: 0 <= f < |NAMES| ==>
      && FieldOf(body, NAMES, f) != Malformed && (values[f] == NULL || 0 <= values[f] <= |b|)
      && Text(FieldOf(body, NAMES, f)) == TextOf(b, values[f])
    ensures var sid, cmdline, filename, mimetype :=
              TextOf(b, values[0]), TextOf(b, values[1]), TextOf(b, values[2]), TextOf(b, values[3]);
            Requested(body, granted) ==
            if sid.None? || !granted(sid.value) then Failure(403)
            else if filename.Some? && !Consists(filename.value, IN_FILENAME) then Failure(400)
            else if mimetype.Some? && !Consists(mimetype.value, IN_MIMETYPE) then Failure(400)
            else if cmdline.None? || Words(cmdline.value, [], false) == [] then Failure(400)
            else Command(Words(cmdline.value, [], false))
  {
    hide FieldOf;
    hide Words;
    hide Consists;
    hide TextOf;
    hide Text;
  }
}
