/** Which header names and values name which part, spelt out. */
module UploadNames {
  import opened Bytes
  import opened CStrings
  import opened Common
  import opened UploadHandlers

  /** The same character, or the same letter in the other case. */
  predicate SameLetter(c: byte, x: char) {
    c == x as int || ('a' <= x <= 'z' && c + 32 == x as int) || ('A' <= x <= 'Z' && c == x as int + 32)
  }

  predicate SpeltLike(s: seq<byte>, t: string) {
    |s| == |t| && forall i :: 0 <= i < |s| ==> SameLetter(s[i], t[i])
  }

  lemma LowerMeans(c: byte, d: byte, x: char)
    requires d == x as int
    ensures Lower(c) == Lower(d) <==> SameLetter(c, x)
  {
  }

  lemma EqualMeans(s: seq<byte>, t: seq<byte>, n: nat, x: string)
    requires n <= |s| && n <= |t| && n <= |x| && forall i :: 0 <= i < n ==> t[i] == x[i] as int
    ensures CaseEqual(s, t, n) <==> SpeltLike(s[..n], x[..n])
  {
    forall i | 0 <= i < n ensures Lower(s[i]) == Lower(t[i]) <==> SameLetter(s[i], x[i]) {
      LowerMeans(s[i], t[i], x[i]);
    }
    hide Lower;
    hide SameLetter;
    if CaseEqual(s, t, n) {
      assert SpeltLike(s[..n], x[..n]);
    } else {
      var i :| 0 <= i < n && Lower(s[i]) != Lower(t[i]);
      assert !SameLetter(s[..n][i], x[..n][i]);
    }
  }

  lemma ConstantsSpelt()
    ensures Spelt(CONTENT_DISPOSITION, "Content-Disposition")
    ensures Spelt(FORM_DATA, "form-data") && Spelt(NAME_IS, "name=\"")
    ensures Spelt(SESSIONID_NAME, "sessionid") && Spelt(FILENAME_NAME, "filename")
    ensures Spelt(FILEMODE_NAME, "filemode") && Spelt(FILEDATA_NAME, "filedata")
  {
  }

  /** A header is looked at if its name is `Content-Disposition` in any case, or cut short anywhere. */
  lemma DispositionExactly(at: seq<byte>)
    ensures IsDisposition(at) <==>
            |at| <= |"Content-Disposition"| && SpeltLike(at, "Content-Disposition"[..|at|])
  {
    ConstantsSpelt();
    if |at| <= |"Content-Disposition"| {
      EqualMeans(at, CONTENT_DISPOSITION, |at|, "Content-Disposition");
      assert at[..|at|] == at;
    }
  }

  // ----- the value of that header -----

  /**
   `form-data` and `name="` in any case, nothing but blanks and semicolons between them, and the name
   up to the next quote.
   */
  predicate IsNaming(text: seq<byte>, lead: seq<byte>, between: seq<byte>, key: seq<byte>, name: seq<byte>,
                     rest: seq<byte>) {
    && text == lead + (between + (key + (name + ['\"' as int] + rest)))
    && SpeltLike(lead, "form-data") && SpeltLike(key, "name=\"")
    && (forall i :: 0 <= i < |between| ==> between[i] as char == ' ' || between[i] as char == ';')
    && '\"' as int !in name && |name| + |rest| > 0
  }

  ghost predicate Names(text: seq<byte>, name: seq<byte>) {
    exists lead, between, key, rest :: IsNaming(text, lead, between, key, name, rest)
  }

  lemma {:induction false} SkipsAll(between: seq<byte>, s: seq<byte>)
    requires forall i :: 0 <= i < |between| ==> between[i] == SPACE || between[i] == SEMICOLON
    requires s != [] && s[0] != SPACE && s[0] != SEMICOLON
    ensures SkipSeparators(between + s) == s
    decreases |between|
  {
    if between == [] {
      assert between + s == s;
    } else {
      assert (between + s)[1..] == between[1..] + s;
      SkipsAll(between[1..], s);
    }
  }

  lemma {:induction false} SkipsBetween(s: seq<byte>) returns (between: seq<byte>)
    ensures s == between + SkipSeparators(s)
    ensures forall i :: 0 <= i < |between| ==> between[i] == SPACE || between[i] == SEMICOLON
    decreases |s|
  {
    between := [];
    if s != [] && (s[0] == SPACE || s[0] == SEMICOLON) {
      between := SkipsBetween(s[1..]);
      between := [s[0]] + between;
    }
  }

  lemma {:induction false} QuoteEnds(name: seq<byte>, rest: seq<byte>)
    requires QUOTE !in name
    ensures UpToQuote(name + [QUOTE] + rest) == Some(name)
    decreases |name|
  {
    var s := name + [QUOTE] + rest;
    if name != [] {
      assert s[1..] == name[1..] + [QUOTE] + rest;
      QuoteEnds(name[1..], rest);
      assert [name[0]] + name[1..] == name;
    }
  }

  lemma {:induction false} QuoteSplits(s: seq<byte>) returns (rest: seq<byte>)
    ensures UpToQuote(s).Some? ==> QUOTE !in UpToQuote(s).value && s == UpToQuote(s).value + [QUOTE] + rest
    decreases |s|
  {
    rest := [];
    if s != [] {
      if s[0] == QUOTE {
        rest := s[1..];
      } else {
        rest := QuoteSplits(s[1..]);
      }
    }
  }

  /** Such a value makes the part the one called so. */
  lemma {:induction false} NamingIsRead(text: seq<byte>, lead: seq<byte>, between: seq<byte>, key: seq<byte>,
                                        name: seq<byte>, rest: seq<byte>, otherwise: PartType)
    requires IsNaming(text, lead, between, key, name, rest)
    ensures PartOf(text, otherwise) == PartCalled(name, otherwise)
  {
    hide *;
    hide SkipSeparators;
    var tail := name + [QUOTE] + rest;
    NamingParts(text, lead, between, key, name, rest);
    ConstantsSpelt();
    LeadEqual(lead, between + (key + tail), FORM_DATA, "form-data");
    LeadEqual(key, tail, NAME_IS, "name=\"");
    NameFirst(key, tail);
    SkipsAll(between, key + tail);
    QuoteEnds(name, rest);
    PartReads(text, key + tail, otherwise);
  }

  lemma NamingParts(text: seq<byte>, lead: seq<byte>, between: seq<byte>, key: seq<byte>, name: seq<byte>,
                    rest: seq<byte>)
    requires IsNaming(text, lead, between, key, name, rest)
    ensures text == lead + (between + (key + (name + [QUOTE] + rest))) && QUOTE !in name && |name| + |rest| > 0
    ensures SpeltLike(lead, "form-data") && SpeltLike(key, "name=\"") && |lead| == 9 && |key| == 6
    ensures forall i :: 0 <= i < |between| ==> between[i] == SPACE || between[i] == SEMICOLON
  {
  }

  lemma LeadEqual(s: seq<byte>, tail: seq<byte>, t: seq<byte>, x: string)
    requires SpeltLike(s, x) && Spelt(t, x)
    ensures |s| == |t| && CaseEqual(s + tail, t, |t|) && (s + tail)[|t|..] == tail
  {
    EqualMeans(s + tail, t, |t|, x);
    assert (s + tail)[..|t|] == s && x[..|t|] == x;
  }

  lemma NameFirst(key: seq<byte>, tail: seq<byte>)
    requires SpeltLike(key, "name=\"")
    ensures var s := key + tail; s != [] && s[0] != SPACE && s[0] != SEMICOLON
  {
    assert SameLetter(key[0], 'n');
  }

  lemma PartReads(text: seq<byte>, rest: seq<byte>, otherwise: PartType)
    requires |text| >= 10 && |FORM_DATA| == 9 && CaseEqual(text, FORM_DATA, 9) && SkipSeparators(text[9..]) == rest
    requires |rest| >= 8 && |NAME_IS| == 6 && CaseEqual(rest, NAME_IS, 6) && UpToQuote(rest[6..]).Some?
    ensures PartOf(text, otherwise) == PartCalled(UpToQuote(rest[6..]).value, otherwise)
  {
    hide PartCalled;
    hide CaseEqual;
    hide UpToQuote;
    hide SkipSeparators;
  }

  /** Any other value leaves the part what it was. */
  lemma OthersAreIgnored(text: seq<byte>, otherwise: PartType)
    requires PartOf(text, otherwise) != otherwise
    ensures exists name :: Names(text, name)
  {
    ConstantsSpelt();
    assert |FORM_DATA| == 9 && |NAME_IS| == 6;
    var rest := SkipSeparators(text[9..]);
    var between := SkipsBetween(text[9..]);
    var behind := QuoteSplits(rest[6..]);
    var name := UpToQuote(rest[6..]).value;
    hide *;
    hide CaseEqual;
    EqualMeans(text, FORM_DATA, 9, "form-data");
    EqualMeans(rest, NAME_IS, 6, "name=\"");
    var lead, key := text[..9], rest[..6];
    assert "form-data"[..9] == "form-data" && "name=\""[..6] == "name=\"";
    assert text == lead + text[9..] && rest == key + rest[6..];
    assert |name| + |behind| > 0 by {
      assert |rest[6..]| == |name| + 1 + |behind|;
    }
    Together(text, lead, between, key, name, behind);
  }

  lemma Together(text: seq<byte>, lead: seq<byte>, between: seq<byte>, key: seq<byte>, name: seq<byte>, rest: seq<byte>)
    requires text == lead + (between + (key + (name + [QUOTE] + rest)))
    requires SpeltLike(lead, "form-data") && SpeltLike(key, "name=\"") && QUOTE !in name && |name| + |rest| > 0
    requires forall i :: 0 <= i < |between| ==> between[i] == SPACE || between[i] == SEMICOLON
    ensures Names(text, name)
  {
    hide SpeltLike;
    assert IsNaming(text, lead, between, key, name, rest);
  }

  /** A header value names a part exactly if it is of that form; any other leaves the part what it was. */
  lemma PartExactly(text: seq<byte>, otherwise: PartType)
    ensures forall name :: Names(text, name) ==> PartOf(text, otherwise) == PartCalled(name, otherwise)
    ensures PartOf(text, otherwise) == otherwise || exists name :: Names(text, name)
  {
    hide *;
    forall name | Names(text, name) ensures PartOf(text, otherwise) == PartCalled(name, otherwise) {
      var lead, between, key, rest := NamedSomehow(text, name);
      NamingIsRead(text, lead, between, key, name, rest, otherwise);
    }
    if PartOf(text, otherwise) != otherwise {
      OthersAreIgnored(text, otherwise);
    }
  }

  lemma NamedSomehow(text: seq<byte>, name: seq<byte>)
    returns (lead: seq<byte>, between: seq<byte>, key: seq<byte>, rest: seq<byte>)
    requires Names(text, name)
    ensures IsNaming(text, lead, between, key, name, rest)
  {
    hide IsNaming;
    lead, between, key, rest :| IsNaming(text, lead, between, key, name, rest);
  }

  // ----- the names of the parts -----

  /** The beginning of a name, or that name and a NUL. */
  predicate Abbreviates(name: seq<byte>, t: string) {
    if |name| <= |t| then Spelt(name, t[..|name|]) else Spelt(name[..|t|], t) && name[|t|] == NUL
  }

  lemma {:induction false} CStringIs(name: seq<byte>, part: seq<byte>, k: nat)
    requires k <= |part| && k < |name| && NUL in name[k..] && NUL !in part
    ensures CString(name, k) == part[k..] <==> |part| < |name| && part[k..] == name[k..|part|] && name[|part|] == NUL
    decreases |name| - k
  {
    if name[k] != NUL {
      if k < |part| {
        assert name[k..] == [name[k]] + name[k + 1..];
        CStringIs(name, part, k + 1);
        assert part[k..] == [part[k]] + part[k + 1..];
        if |part| < |name| {
          assert name[k..|part|] == [name[k]] + name[k + 1..|part|];
        }
      }
    } else if |part| < |name| && k < |part| {
      assert part[k..][0] == part[k] && name[k..|part|][0] == NUL;
    }
  }

  lemma BeginsMeans(name: seq<byte>, part: seq<byte>, t: string)
    requires Spelt(part, t) && NUL !in part
    ensures Begins(name, part) <==> Abbreviates(name, t)
  {
    if NUL in name {
      assert name[0..] == name;
      CStringIs(name, part, 0);
      assert part[0..] == part;
      if |name| <= |t| {
        SpeltEqual(name, part[..|name|], t[..|name|]);
        assert NUL !in part[..|name|];
      } else {
        SpeltEqual(name[..|t|], part, t);
        assert name[0..|part|] == name[..|t|];
      }
    } else if |name| <= |t| {
      SpeltEqual(name, part[..|name|], t[..|name|]);
      assert name <= part <==> name == part[..|name|];
    }
  }

  lemma SpeltEqual(s: seq<byte>, part: seq<byte>, t: string)
    requires Spelt(part, t)
    ensures Spelt(s, t) <==> s == part
  {
  }

  /** Every name, cut anywhere behind the first letter, or for the two alike behind the fifth, means its part. */
  lemma CalledExactly(name: seq<byte>, otherwise: PartType)
    ensures var part := PartCalled(name, Unknown);
            && (part == FileData <==> Abbreviates(name, "filedata"))
            && (part == FileMode <==> |name| > 4 && Abbreviates(name, "filemode"))
            && (part == FileName <==> |name| > 4 && Abbreviates(name, "filename"))
            && (part == SessionId <==> |name| > 0 && Abbreviates(name, "sessionid"))
            && PartCalled(name, otherwise) == if part == Unknown then otherwise else part
  {
    ConstantsSpelt();
    BeginsMeans(name, FILEDATA_NAME, "filedata");
    BeginsMeans(name, FILEMODE_NAME, "filemode");
    BeginsMeans(name, FILENAME_NAME, "filename");
    BeginsMeans(name, SESSIONID_NAME, "sessionid");
    NamesDiffer(name);
    hide Begins;
    hide Abbreviates;
  }

  lemma NamesDiffer(name: seq<byte>)
    ensures |name| <= 4 && (Abbreviates(name, "filemode") || Abbreviates(name, "filename")) ==>
      Abbreviates(name, "filedata")
    ensures |name| > 4 ==> !(Abbreviates(name, "filemode") && Abbreviates(name, "filedata"))
    ensures |name| > 4 ==> !(Abbreviates(name, "filename") && Abbreviates(name, "filedata"))
    ensures |name| > 4 ==> !(Abbreviates(name, "filename") && Abbreviates(name, "filemode"))
    ensures |name| == 0 ==> Abbreviates(name, "filedata")
    ensures |name| > 0 && Abbreviates(name, "sessionid") ==>
      !Abbreviates(name, "filedata") && !Abbreviates(name, "filemode") && !Abbreviates(name, "filename")
  {
    SameAt(name, "sessionid", 0);
    SameAt(name, "filedata", 0);
    SameAt(name, "filemode", 0);
    SameAt(name, "filename", 0);
    SameAt(name, "filedata", 4);
    SameAt(name, "filemode", 4);
    SameAt(name, "filename", 4);
    if |name| <= 4 {
      assert "filemode"[..|name|] == "filename"[..|name|] == "filedata"[..|name|];
    }
    hide Abbreviates;
  }

  lemma SameAt(name: seq<byte>, t: string, i: nat)
    requires i < |t|
    ensures Abbreviates(name, t) && i < |name| ==> name[i] == t[i] as int
  {
  }
}
