/** The multipart callbacks of main.c that drive `main_upload`. */
module UploadHandlers {
  import opened Bytes
  import opened CStrings
  import opened Common
  import CanonicalPath
  import opened MultipartMachine
  import opened MultipartParser

  datatype PartType = Unknown | SessionId | FileName | FileMode | FileData

  /**
   `struct state`; `filemode` is the text the rights of the file are read from, if any has come;
   `temp` is the content of the temporary file once it is open, and `overrun` tells that
   `canonicalize_path` has written behind its buffer.
   */
  datatype State = State(
    disposition: bool,
    part: PartType,
    sessionid: Option<seq<byte>>,
    filename: Option<seq<byte>>,
    filemode: Option<seq<byte>>,
    temp: Option<seq<byte>>,
    filedata: bool,
    response: Option<bool>,
    overrun: bool)

  /** Who may upload, and who may write what. */
  datatype Access = Access(upload: Option<seq<byte>> -> bool, write: (seq<byte>, seq<byte>) -> bool)

  const IDLE: State := State(false, Unknown, None, None, None, None, false, None, false)

  datatype Handled = Handled(st: State, ok: bool)

  function Accepted(st: State): Handled {
    Handled(st, true)
  }

  /** `response` answers the client and makes the parser stop. */
  function Responded(st: State, success: bool): Handled {
    Handled(st.(response := Some(success)), false)
  }

  // ----- header lines -----

  function Lower(c: byte): byte {
    if 65 <= c <= 90 then c + 32 else c
  }

  /** The first `n` bytes agree but for case, `s` having at least that many. */
  predicate CaseEqual(s: seq<byte>, t: seq<byte>, n: nat)
    requires n <= |s| && n <= |t|
  {
    forall i :: 0 <= i < n ==> Lower(s[i]) == Lower(t[i])
  }

  const CONTENT_DISPOSITION: seq<byte> :=
    [67, 111, 110, 116, 101, 110, 116, 45, 68, 105, 115, 112, 111, 115, 105, 116, 105, 111, 110]
  const FORM_DATA: seq<byte> := [102, 111, 114, 109, 45, 100, 97, 116, 97]
  const NAME_IS: seq<byte> := [110, 97, 109, 101, 61, 34]
  const QUOTE: byte := 34
  const SEMICOLON: byte := 59

  const SESSIONID_NAME: seq<byte> := [115, 101, 115, 115, 105, 111, 110, 105, 100]
  const FILENAME_NAME: seq<byte> := [102, 105, 108, 101, 110, 97, 109, 101]
  const FILEMODE_NAME: seq<byte> := [102, 105, 108, 101, 109, 111, 100, 101]
  const FILEDATA_NAME: seq<byte> := [102, 105, 108, 101, 100, 97, 116, 97]

  function SkipSeparators(s: seq<byte>): seq<byte> {
    if s != [] && (s[0] == SPACE || s[0] == SEMICOLON) then SkipSeparators(s[1..]) else s
  }

  function UpToQuote(s: seq<byte>): Option<seq<byte>> {
    if s == [] then None
    else if s[0] == QUOTE then Some([])
    else match UpToQuote(s[1..])
      case Some(rest) => Some([s[0]] + rest)
      case None => None
  }

  /** `strncasecmp(at, "Content-Disposition", |at|) == 0` */
  predicate IsDisposition(at: seq<byte>) {
    |at| <= |CONTENT_DISPOSITION| && CaseEqual(at, CONTENT_DISPOSITION, |at|)
  }

  /** `strncmp(name, part, |name|) == 0` */
  predicate Begins(name: seq<byte>, part: seq<byte>) {
    if NUL in name then CString(name, 0) == part else name <= part
  }

  /** The last of the four part names that begins with the given one. */
  function PartCalled(name: seq<byte>, otherwise: PartType): PartType {
    if Begins(name, FILEDATA_NAME) then FileData
    else if Begins(name, FILEMODE_NAME) then FileMode
    else if Begins(name, FILENAME_NAME) then FileName
    else if Begins(name, SESSIONID_NAME) then SessionId
    else otherwise
  }

  function PartOf(text: seq<byte>, otherwise: PartType): PartType {
    if |text| < 10 || !CaseEqual(text, FORM_DATA, 9) then otherwise
    else
      var rest := SkipSeparators(text[9..]);
      if |rest| < 8 || !CaseEqual(rest, NAME_IS, 6) then otherwise
      else match UpToQuote(rest[6..])
        case Some(name) => PartCalled(name, otherwise)
        case None => otherwise
  }

  // ----- the callbacks -----

  function DataBegin(w: Access, st: State): Handled {
    if st.part != FileData then Accepted(st)
    else if st.sessionid.None? || st.filename.None? then Responded(st, false)
    else if !w.write(st.sessionid.value, st.filename.value) then Responded(st, false)
    else Accepted(st.(temp := Some([])))
  }

  /**
   How `canonicalize_path` ends for a piece of data. It looks at the first byte even if there is
   none: data of no bytes is only ever handed over in front of a CR.
   */
  function PathOutcome(at: seq<byte>): (r: CanonicalPath.Outcome)
    ensures r.Overrun? <==> at == []
  {
    CanonicalPath.OutcomeOf(if at == [] then CR else at[0], |at|)
  }

  function PathOf(at: seq<byte>): Option<seq<byte>> {
    if PathOutcome(at).Nothing? then None else Some(CanonicalPath.Canonical(at))
  }

  function DataCame(st: State, at: seq<byte>): Handled {
    match st.part
    case SessionId => Accepted(st.(sessionid := Some(at)))
    case FileName => Accepted(st.(filename := PathOf(at), overrun := st.overrun || PathOutcome(at).Overrun?))
    case FileMode => Accepted(st.(filemode := Some(at)))
    case FileData =>
      if st.temp.None? then Responded(st, false)
      else Accepted(st.(temp := Some(st.temp.value + at), filedata := st.filedata || at != []))
    case Unknown => Accepted(st)
  }

  function DataEnd(w: Access, st: State): Handled {
    match st.part
    case SessionId => if w.upload(st.sessionid) then Accepted(st.(part := Unknown)) else Responded(st, false)
    case FileData => Responded(st, st.temp.Some? && st.filedata)
    case _ => Accepted(st.(part := Unknown))
  }

  function Handle(w: Access, st: State, e: Event): Handled {
    match e
    case OnHeaderField(at) =>
      Accepted(st.(disposition := IsDisposition(at)))
    case OnHeaderValue(at) =>
      Accepted(if st.disposition then st.(part := PartOf(at, st.part)) else st)
    case OnHeadersComplete => DataBegin(w, st)
    case OnPartData(at) => DataCame(st, at)
    case OnPartDataEnd => DataEnd(w, st)
    case _ => Accepted(st)
  }

  /** The state after the calls made so far. */
  function StateAfter(w: Access, log: History): State {
    match log
    case NoCalls => IDLE
    case Then(earlier, e) => Handle(w, StateAfter(w, earlier), e).st
  }

  function Answers(w: Access): MultipartParser.Callbacks {
    (log: History, e: Event) => Handle(w, StateAfter(w, log), e).ok
  }
}
