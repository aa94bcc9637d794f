/** `parse_command` of util.c: splitting a command line at unescaped white space. */
module CommandLine {
  import opened Bytes
  import opened CStrings

  /** The words of `s`, `cur` being the word begun before it, if any. */
  function Words(s: seq<byte>, cur: seq<byte>, begun: bool): seq<seq<byte>>
    decreases |s|
  {
    if s == [] then
      if begun then [cur] else []
    else if s[0] == BACKSLASH && |s| > 1 then
      Words(s[2..], cur + [s[1]], true)
    else if IsSpace(s[0]) then
      (if begun then [cur] else []) + Words(s[1..], [], false)
    else
      Words(s[1..], cur + [s[0]], true)
  }

  /** What the first pass allots to the words of `s`, `raw` bytes of the current one having passed. */
  function Allotted(s: seq<byte>, raw: nat): (n: nat)
    ensures n >= raw
    decreases |s|
  {
    if s == [] then
      if raw > 0 then raw + 1 else 0
    else if s[0] == BACKSLASH && |s| > 1 then
      Allotted(s[2..], raw + 2)
    else if IsSpace(s[0]) then
      (if raw > 0 then raw + 1 else 0) + Allotted(s[1..], 0)
    else
      Allotted(s[1..], raw + 1)
  }

  /** Words one after the other, each with a byte for its separator. */
  function Laid(words: seq<seq<byte>>): seq<byte> {
    if words == [] then [] else Laid(words[..|words| - 1]) + words[|words| - 1] + [SPACE]
  }

  /** Where word `i` starts. */
  function Start(words: seq<seq<byte>>, i: nat): nat
    requires i <= |words|
  {
    |Laid(words[..i])|
  }

  function SkipSpace(s: seq<byte>): seq<byte> {
    if s != [] && IsSpace(s[0]) then SkipSpace(s[1..]) else s
  }

  lemma {:induction false} SkipKeepsWords(s: seq<byte>)
    ensures Words(SkipSpace(s), [], false) == Words(s, [], false)
    decreases |s|
  {
    if s != [] && IsSpace(s[0]) {
      SkipKeepsWords(s[1..]);
      assert [] + Words(s[1..], [], false) == Words(s[1..], [], false);
    }
  }

  /** One turn of either pass at position `p`, `w` being where the current word began. */
  lemma Turn(cmd: seq<byte>, p: nat, w: nat, cur: seq<byte>)
    requires w <= p < |cmd|
    ensures var s, raw := cmd[p..], p - w;
            if cmd[p] == BACKSLASH && p + 1 < |cmd| then
              && Words(s, cur, raw > 0) == Words(cmd[p + 2..], cur + [cmd[p + 1]], true)
              && Allotted(s, raw) == Allotted(cmd[p + 2..], raw + 2)
            else if IsSpace(cmd[p]) then
              && Words(s, cur, raw > 0) == (if raw > 0 then [cur] else []) + Words(cmd[p + 1..], [], false)
              && Allotted(s, raw) == (if raw > 0 then raw + 1 else 0) + Allotted(cmd[p + 1..], 0)
            else
              && Words(s, cur, raw > 0) == Words(cmd[p + 1..], cur + [cmd[p]], true)
              && Allotted(s, raw) == Allotted(cmd[p + 1..], raw + 1)
  {
    var s := cmd[p..];
    assert s[0] == cmd[p] && s[1..] == cmd[p + 1..];
    if p + 1 < |cmd| {
      assert s[1] == cmd[p + 1] && s[2..] == cmd[p + 2..];
    }
  }

  /** White space or the end of the line closes the current word, if one was begun. */
  lemma Break(cmd: seq<byte>, p: nat, w: nat, cur: seq<byte>)
    requires w <= p <= |cmd| && (p < |cmd| ==> IsSpace(cmd[p]) && cmd[p] != BACKSLASH)
    ensures var raw, rest := p - w, if p < |cmd| then cmd[p + 1..] else cmd[p..];
            && Words(cmd[p..], cur, raw > 0) == (if raw > 0 then [cur] else []) + Words(rest, [], false)
            && Allotted(cmd[p..], raw) == (if raw > 0 then raw + 1 else 0) + Allotted(rest, 0)
  {
    if p < |cmd| {
      Turn(cmd, p, w, cur);
    } else {
      assert cmd[p..] == [];
    }
  }

  /** The first pass stands at `q`, in a word begun at `s`, having counted `argnum` words. */
  ghost predicate Measured(cmd: seq<byte>, q: nat, s: nat, cur: seq<byte>, argnum: nat, arglen: nat)
    requires s <= q <= |cmd|
  {
    && argnum + |Words(cmd[q..], cur, q > s)| == |Words(cmd, [], false)|
    && arglen + Allotted(cmd[q..], q - s) == Allotted(cmd, 0)
  }

  lemma {:induction false} MeasuresByte(cmd: seq<byte>, q: nat, s: nat, cur: seq<byte>, argnum: nat, arglen: nat,
                                        q': nat, cur': seq<byte>)
    requires s <= q < q' <= |cmd| && Measured(cmd, q, s, cur, argnum, arglen)
    requires Words(cmd[q..], cur, q > s) == Words(cmd[q'..], cur', true)
    requires Allotted(cmd[q..], q - s) == Allotted(cmd[q'..], q' - s)
    ensures Measured(cmd, q', s, cur', argnum, arglen)
  {
  }

  lemma {:induction false} MeasuresBreak(cmd: seq<byte>, q: nat, s: nat, cur: seq<byte>, argnum: nat, arglen: nat,
                                         q': nat)
    requires s <= q <= q' <= |cmd| && Measured(cmd, q, s, cur, argnum, arglen)
    requires Words(cmd[q..], cur, q > s) == (if q > s then [cur] else []) + Words(cmd[q'..], [], false)
    requires Allotted(cmd[q..], q - s) == (if q > s then q - s + 1 else 0) + Allotted(cmd[q'..], 0)
    ensures if q > s then Measured(cmd, q', q', [], argnum + 1, arglen + (q - s) + 1)
            else Measured(cmd, q', q', [], argnum, arglen)
  {
    hide Words;
    hide Allotted;
  }

  lemma NothingMeasured(cmd: seq<byte>)
    ensures Measured(cmd, 0, 0, [], 0, 0)
  {
    assert cmd[0..] == cmd;
  }

  lemma AllMeasured(cmd: seq<byte>, argnum: nat, arglen: nat)
    requires Measured(cmd, |cmd|, |cmd|, [], argnum, arglen)
    ensures argnum == |Words(cmd, [], false)| && arglen == Allotted(cmd, 0)
  {
    assert cmd[|cmd|..] == [];
  }

  /** The first pass: the number of words, and how many bytes to set aside for them. */
  method Measure(cmd: seq<byte>) returns (argnum: nat, arglen: nat)
    ensures argnum == |Words(cmd, [], false)| && arglen == Allotted(cmd, 0)
  {
    hide Words;
    hide Allotted;
    hide Measured;
    var p: nat, s: nat, esc := 0, 0, false;
    argnum, arglen := 0, 0;
    ghost var cur: seq<byte> := [];
    NothingMeasured(cmd);
    while true
      invariant s <= p <= |cmd|
      invariant esc ==> s < p < |cmd| && cmd[p - 1] == BACKSLASH
      invariant Measured(cmd, if esc then p - 1 else p, s, cur, argnum, arglen)
      decreases |cmd| - p
    {
      if esc {
        Turn(cmd, p - 1, s, cur);
        MeasuresByte(cmd, p - 1, s, cur, argnum, arglen, p + 1, cur + [cmd[p]]);
        cur := cur + [cmd[p]];
        esc := false;
      } else if p + 1 < |cmd| && cmd[p] == BACKSLASH {
        esc := true;
      } else if p == |cmd| || IsSpace(cmd[p]) {
        ghost var next := if p == |cmd| then p else p + 1;
        Break(cmd, p, s, cur);
        MeasuresBreak(cmd, p, s, cur, argnum, arglen, next);
        if p > s {
          argnum := argnum + 1;
          arglen := arglen + (p - s) + 1;
        }
        cur := [];
        if p == |cmd| {
          AllMeasured(cmd, argnum, arglen);
          break;
        }
        s := p + 1;
      } else {
        Turn(cmd, p, s, cur);
        MeasuresByte(cmd, p, s, cur, argnum, arglen, p + 1, cur + [cmd[p]]);
        cur := cur + [cmd[p]];
      }
      p := p + 1;
    }
  }

  /** The second pass has written `done` and the beginning `cur` of the next word. */
  ghost predicate Written(cmd: seq<byte>, q: nat, s: nat, done: seq<seq<byte>>, cur: seq<byte>,
                          argv: seq<int>, chars: seq<byte>, out: nat)
    requires s <= q <= |cmd|
  {
    && done + Words(cmd[q..], cur, q > s) == Words(cmd, [], false)
    && out == |Laid(done)| + |cur| && out <= |chars|
    && chars[..out] == Laid(done) + cur
    && |argv| == |Words(cmd, [], false)| + 1 && |done| < |argv|
    && (forall i :: 0 <= i <= |done| ==> argv[i] == Start(done, i))
    && out - |cur| + Allotted(cmd[q..], q - s) <= |chars|
    && |cur| <= q - s
  }

  /** A byte of a word is copied. */
  lemma {:induction false} WritesByte(cmd: seq<byte>, q: nat, s: nat, done: seq<seq<byte>>, cur: seq<byte>,
                   argv: seq<int>, chars: seq<byte>, out: nat, q': nat, c: byte)
    requires s <= q < q' <= |cmd| && Written(cmd, q, s, done, cur, argv, chars, out)
    requires Words(cmd[q..], cur, q > s) == Words(cmd[q'..], cur + [c], true)
    requires Allotted(cmd[q..], q - s) == Allotted(cmd[q'..], q' - s)
    ensures out < |chars| && Written(cmd, q', s, done, cur + [c], argv, chars[out := c], out + 1)
  {
    hide Words;
    hide Laid;
    var chars' := chars[out := c];
    assert chars'[..out + 1] == chars[..out] + [c];
    assert Laid(done) + cur + [c] == Laid(done) + (cur + [c]);
  }

  lemma LaidNext(done: seq<seq<byte>>, cur: seq<byte>)
    ensures Laid(done + [cur]) == Laid(done) + cur + [SPACE]
    ensures forall i :: 0 <= i <= |done| ==> Start(done + [cur], i) == Start(done, i)
  {
    assert (done + [cur])[..|done|] == done;
    forall i | 0 <= i <= |done| ensures Start(done + [cur], i) == Start(done, i) {
      assert (done + [cur])[..i] == done[..i];
    }
  }

  /** The end of a word is marked, and the next one may begin. */
  lemma {:induction false} WritesWord(cmd: seq<byte>, q: nat, s: nat, done: seq<seq<byte>>, cur: seq<byte>,
                   argv: seq<int>, chars: seq<byte>, out: nat, q': nat)
    requires s < q <= q' <= |cmd| && Written(cmd, q, s, done, cur, argv, chars, out)
    requires Words(cmd[q..], cur, true) == [cur] + Words(cmd[q'..], [], false)
    requires Allotted(cmd[q..], q - s) == q - s + 1 + Allotted(cmd[q'..], 0)
    ensures out < |chars| && |done| + 1 < |argv|
    ensures Written(cmd, q', q', done + [cur], [], argv[|done| + 1 := out + 1], chars[out := SPACE], out + 1)
  {
    var later := Words(cmd[q'..], [], false);
    hide Words;
    LaidNext(done, cur);
    assert done + ([cur] + later) == done + [cur] + later;
    var chars' := chars[out := SPACE];
    assert chars'[..out + 1] == chars[..out] + [SPACE];
    assert (done + [cur])[..|done| + 1] == done + [cur];
    assert Laid(done + [cur]) + [] == Laid(done + [cur]);
    hide Laid;
  }

  /** White space between words is passed over. */
  lemma {:induction false} WritesNothing(cmd: seq<byte>, q: nat, done: seq<seq<byte>>, argv: seq<int>,
                                         chars: seq<byte>, out: nat)
    requires q < |cmd| && Written(cmd, q, q, done, [], argv, chars, out)
    requires Words(cmd[q..], [], false) == Words(cmd[q + 1..], [], false)
    requires Allotted(cmd[q..], 0) == Allotted(cmd[q + 1..], 0)
    ensures Written(cmd, q + 1, q + 1, done, [], argv, chars, out)
  {
  }

  lemma AllWritten(cmd: seq<byte>, done: seq<seq<byte>>, argv: seq<int>, chars: seq<byte>, out: nat)
    requires Written(cmd, |cmd|, |cmd|, done, [], argv, chars, out)
    ensures done == Words(cmd, [], false)
    ensures out == |Laid(done)| <= |chars| && chars[..out] == Laid(done)
    ensures |argv| == |done| + 1 && forall i :: 0 <= i <= |done| ==> argv[i] == Start(done, i)
  {
    assert cmd[|cmd|..] == [] && done + [] == done;
    assert Laid(done) + [] == Laid(done);
  }

  lemma NothingWritten(cmd: seq<byte>, argv: seq<int>, chars: seq<byte>)
    requires |argv| == |Words(cmd, [], false)| + 1 && argv[0] == 0 && |chars| == Allotted(cmd, 0)
    ensures Written(cmd, 0, 0, [], [], argv, chars, 0)
  {
    assert cmd[0..] == cmd && [] + Words(cmd, [], false) == Words(cmd, [], false);
    assert Laid([]) == [];
  }

  /** The second pass: copies the words, unescaped, and notes where each begins. */
  method Fill(cmd: seq<byte>, argv: array<int>, chars: array<byte>) returns (out: nat)
    requires argv.Length == |Words(cmd, [], false)| + 1 && chars.Length == Allotted(cmd, 0)
    requires argv != chars as object
    modifies argv, chars
    ensures var words := Words(cmd, [], false);
            && out == |Laid(words)| <= chars.Length && chars[..out] == Laid(words)
            && forall i :: 0 <= i <= |words| ==> argv[i] == Start(words, i)
  {
    hide Written;
    hide Words;
    hide Allotted;
    hide Laid;
    var p: nat, s: nat, esc, argnum: nat := 0, 0, false, 0;
    out := 0;
    argv[0] := out;
    ghost var done: seq<seq<byte>>, cur: seq<byte> := [], [];
    NothingWritten(cmd, argv[..], chars[..]);
    while true
      invariant s <= p <= |cmd| && argnum == |done|
      invariant esc ==> s < p < |cmd| && cmd[p - 1] == BACKSLASH
      invariant p == s ==> cur == []
      invariant Written(cmd, if esc then p - 1 else p, s, done, cur, argv[..], chars[..], out)
      decreases |cmd| - p
    {
      if esc {
        esc := false;
        Turn(cmd, p - 1, s, cur);
        WritesByte(cmd, p - 1, s, done, cur, argv[..], chars[..], out, p + 1, cmd[p]);
        chars[out] := cmd[p];
        out := out + 1;
        cur := cur + [cmd[p]];
      } else if p + 1 < |cmd| && cmd[p] == BACKSLASH {
        esc := true;
      } else if p == |cmd| || IsSpace(cmd[p]) {
        ghost var next := if p == |cmd| then p else p + 1;
        Break(cmd, p, s, cur);
        if p > s {
          WritesWord(cmd, p, s, done, cur, argv[..], chars[..], out, next);
          chars[out] := SPACE;
          out := out + 1;
          argnum := argnum + 1;
          argv[argnum] := out;
          done := done + [cur];
          cur := [];
        } else if p < |cmd| {
          WritesNothing(cmd, p, done, argv[..], chars[..], out);
        }
        if p == |cmd| {
          AllWritten(cmd, done, argv[..], chars[..], out);
          break;
        }
        s := p + 1;
      } else {
        Turn(cmd, p, s, cur);
        WritesByte(cmd, p, s, done, cur, argv[..], chars[..], out, p + 1, cmd[p]);
        chars[out] := cmd[p];
        out := out + 1;
        cur := cur + [cmd[p]];
      }
      p := p + 1;
    }
  }

  // ----- where the words lie in the buffer -----

  lemma StartNext(words: seq<seq<byte>>, j: nat)
    requires j < |words|
    ensures Start(words, j + 1) == Start(words, j) + |words[j]| + 1
  {
    assert words[..j + 1][..j] == words[..j];
  }

  lemma {:induction false} StartMonotone(words: seq<seq<byte>>, j: nat, k: nat)
    requires j < k <= |words|
    ensures Start(words, j) + |words[j]| < Start(words, k)
    decreases k
  {
    StartNext(words, k - 1);
    if j < k - 1 {
      StartMonotone(words, j, k - 1);
    }
  }

  lemma {:induction false} LaidAt(words: seq<seq<byte>>, j: nat)
    requires j < |words|
    ensures var from := Start(words, j);
            && from + |words[j]| < |Laid(words)|
            && Laid(words)[from..from + |words[j]|] == words[j]
  {
    StartMonotone(words, j, |words|);
    assert words[..|words|] == words;
    if j < |words| - 1 {
      var front := words[..|words| - 1];
      LaidAt(front, j);
      assert front[..j] == words[..j];
    }
  }

  /** Each word is in its place, and the first `n` of them and the last are terminated. */
  ghost predicate SplitTo(chars: seq<byte>, words: seq<seq<byte>>, n: nat) {
    forall j :: 0 <= j < |words| ==>
      var from, to := Start(words, j), Start(words, j) + |words[j]|;
      && to < |chars| && chars[from..to] == words[j]
      && (j < n || j == |words| - 1 ==> chars[to] == NUL)
  }

  lemma SplitsNext(chars: seq<byte>, words: seq<seq<byte>>, n: nat)
    requires n < |words| && SplitTo(chars, words, n)
    ensures Start(words, n + 1) <= |chars|
    ensures SplitTo(chars[Start(words, n + 1) - 1 := NUL], words, n + 1)
  {
    StartNext(words, n);
    var at := Start(words, n + 1) - 1;
    var chars' := chars[at := NUL];
    forall j | 0 <= j < |words|
      ensures var from, to := Start(words, j), Start(words, j) + |words[j]|;
              && to < |chars'| && chars'[from..to] == words[j]
              && (j < n + 1 || j == |words| - 1 ==> chars'[to] == NUL)
    {
      if j < n {
        StartMonotone(words, j, n);
      } else if n < j {
        StartMonotone(words, n, j);
      }
      hide Start;
      assert chars'[Start(words, j)..Start(words, j) + |words[j]|] ==
             chars[Start(words, j)..Start(words, j) + |words[j]|];
    }
  }

  lemma WordIsUnsplit(chars: seq<byte>, words: seq<seq<byte>>, j: nat)
    requires j < |words| && |Laid(words)| <= |chars| && chars[..|Laid(words)|] == Laid(words)
    ensures var from, to := Start(words, j), Start(words, j) + |words[j]|;
            && to < |Laid(words)| && chars[from..to] == words[j]
            && (j == |words| - 1 ==> to == |Laid(words)| - 1)
  {
    LaidAt(words, j);
    StartNext(words, j);
    assert words[..|words|] == words;
    var size, from, to := |Laid(words)|, Start(words, j), Start(words, j) + |words[j]|;
    hide Laid;
    hide Start;
    assert chars[..size][from..to] == chars[from..to];
  }

  /** The buffer as `parse_command` leaves it: the words with a space between, then NUL. */
  lemma LaidIsUnsplit(chars: seq<byte>, words: seq<seq<byte>>)
    requires words != [] && |Laid(words)| <= |chars| && chars[..|Laid(words)|] == Laid(words)
    ensures |Laid(words)| > 0 && SplitTo(chars[|Laid(words)| - 1 := NUL], words, 0)
  {
    hide Laid;
    hide Start;
    WordIsUnsplit(chars, words, 0);
    var last := |Laid(words)| - 1;
    var chars' := chars[last := NUL];
    forall j | 0 <= j < |words|
      ensures var from, to := Start(words, j), Start(words, j) + |words[j]|;
              && to < |chars'| && chars'[from..to] == words[j]
              && (j == |words| - 1 ==> chars'[to] == NUL)
    {
      WordIsUnsplit(chars, words, j);
      var from, to := Start(words, j), Start(words, j) + |words[j]|;
      assert chars'[from..to] == chars[from..to];
    }
  }

  /** The argument vector made from `cmdline`: a pointer to each word, then a null pointer. */
  ghost predicate Vector(cmdline: seq<byte>, argv: seq<int>) {
    var words := Words(cmdline, [], false);
    && |argv| == |words| + 1 && argv[|words|] == NULL
    && forall i :: 0 <= i < |words| ==> argv[i] == Start(words, i)
  }

  /** The words with a space between, then NUL: still one string, the whole command line. */
  ghost predicate Unsplit(cmdline: seq<byte>, chars: seq<byte>) {
    var words := Words(cmdline, [], false);
    && 0 < |Laid(words)| <= |chars|
    && chars[..|Laid(words)|] == Laid(words)[|Laid(words)| - 1 := NUL]
    && SplitTo(chars, words, 0)
  }

  lemma Finished(cmdline: seq<byte>, argv: seq<int>, chars: seq<byte>, out: nat)
    requires var words := Words(cmdline, [], false);
             && words != [] && |argv| == |words| + 1
             && out == |Laid(words)| <= |chars| && chars[..out] == Laid(words)
             && forall i :: 0 <= i <= |words| ==> argv[i] == Start(words, i)
    ensures Vector(cmdline, argv[|argv| - 1 := NULL])
    ensures 0 < out && Unsplit(cmdline, chars[out - 1 := NUL])
  {
    var words := Words(cmdline, [], false);
    hide Words;
    hide SplitTo;
    hide Laid;
    LaidIsUnsplit(chars, words);
    assert chars[out - 1 := NUL][..out] == chars[..out][out - 1 := NUL];
  }

  /** Both passes. No vector is returned when the line holds no word at all. */
  method ParseCommand(cmdline: seq<byte>) returns (found: bool, argv: array<int>, chars: array<byte>)
    ensures found <==> Words(cmdline, [], false) != []
    ensures found ==> fresh(argv) && fresh(chars) && argv != chars as object
    ensures found ==> Vector(cmdline, argv[..]) && Unsplit(cmdline, chars[..])
  {
    var cmd := cmdline;
    assert SkipSpace(cmdline) == SkipSpace(cmd);
    while cmd != [] && IsSpace(cmd[0])
      invariant SkipSpace(cmd) == SkipSpace(cmdline)
      decreases |cmd|
    {
      cmd := cmd[1..];
    }
    SkipKeepsWords(cmdline);
    hide Words;
    hide Allotted;
    hide Laid;
    hide Start;
    hide Vector;
    hide Unsplit;
    var argnum, arglen := Measure(cmd);
    argv, chars := new int[argnum + 1](_ => 0), new byte[arglen](_ => 0);
    if argnum == 0 {
      return false, argv, chars;
    }
    var out := Fill(cmd, argv, chars);
    Finished(cmdline, argv[..], chars[..], out);
    argv[argnum] := NULL;
    chars[out - 1] := NUL;
    found := true;
  }

  /** `main_exec` ends every argument where the next one begins. */
  method SplitArgs(cmdline: seq<byte>, argv: array<int>, chars: array<byte>)
    requires argv != chars as object && Words(cmdline, [], false) != []
    requires Vector(cmdline, argv[..]) && Unsplit(cmdline, chars[..])
    modifies chars
    ensures var words := Words(cmdline, [], false);
            && Vector(cmdline, argv[..])
            && forall i :: 0 <= i < |words| ==> Holds(chars[..], argv[i], words[i])
  {
    ghost var words := Words(cmdline, [], false);
    hide Words;
    hide SplitTo;
    hide Start;
    var i := 1;
    while argv[i] != NULL
      invariant 1 <= i <= |words|
      invariant SplitTo(chars[..], words, i - 1)
      decreases |words| - i
    {
      assert argv[i] == Start(words, i);
      SplitsNext(chars[..], words, i - 1);
      ghost var before := chars[..];
      StartNext(words, i - 1);
      chars[argv[i] - 1] := NUL;
      assert chars[..] == before[Start(words, i) - 1 := NUL];
      i := i + 1;
    }
    AllSplit(chars[..], words, i - 1);
  }

  lemma AllSplit(chars: seq<byte>, words: seq<seq<byte>>, n: nat)
    requires n == |words| - 1 && SplitTo(chars, words, n)
    ensures forall i :: 0 <= i < |words| ==> Holds(chars, Start(words, i), words[i])
  {
  }
}
