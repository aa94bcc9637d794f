/** Printed forms, and what `postdecode_fields` finds in them. */
module FormRoundTrip {
  import opened Common
  import opened Bytes
  import opened UrlEncoding
  import opened FormFields
  import opened CStrings

  datatype Pair = Pair(name: seq<byte>, raw: seq<byte>)

  predicate Uncut(s: seq<byte>) {
    forall k :: 0 <= k < |s| ==> !Cuts(s[k])
  }

  predicate Printable(ps: seq<Pair>) {
    forall j :: 0 <= j < |ps| ==> Uncut(ps[j].name) && Uncut(ps[j].raw)
  }

  function PrintPair(p: Pair): seq<byte> {
    p.name + ['=' as int] + p.raw
  }

  /** Pairs, each with an ampersand after it. */
  function PrintFront(ps: seq<Pair>): seq<byte> {
    if ps == [] then [] else PrintFront(ps[..|ps| - 1]) + PrintPair(ps[|ps| - 1]) + [AMPERSAND]
  }

  function Print(ps: seq<Pair>): seq<byte> {
    if ps == [] then [] else PrintFront(ps[..|ps| - 1]) + PrintPair(ps[|ps| - 1])
  }

  /** How many pairs have one of the names. */
  function Wanted(ps: seq<Pair>, names: seq<seq<byte>>): nat {
    if ps == [] then 0 else Wanted(ps[..|ps| - 1], names) + if ps[|ps| - 1].name in names then 1 else 0
  }

  /** The pairs that are looked at: the search ends once as many were wanted as there are names. */
  function Kept(ps: seq<Pair>, names: seq<seq<byte>>): seq<Pair> {
    if ps == [] then []
    else
      var front := ps[..|ps| - 1];
      if |Kept(front, names)| < |front| || (front != [] && Wanted(front, names) >= |names|) then Kept(front, names)
      else ps
  }

  function Last(ps: seq<Pair>, name: seq<byte>): Option<seq<byte>> {
    if ps == [] then None
    else if ps[|ps| - 1].name == name then Some(ps[|ps| - 1].raw)
    else Last(ps[..|ps| - 1], name)
  }

  // ----- text after a finished pair changes nothing before it -----

  predicate Finished(pre: seq<byte>) {
    pre == [] || EndsPair(pre[|pre| - 1])
  }

  lemma {:induction false} SameStart(b: seq<byte>, b': seq<byte>, i: nat)
    requires i <= |b| <= |b'| && b'[..|b|] == b
    ensures PairStart(b', i) == PairStart(b, i)
  {
    if i > 0 {
      assert b'[i - 1] == b'[..|b|][i - 1];
      SameStart(b, b', i - 1);
    }
  }

  lemma {:induction false} SameNext(b: seq<byte>, b': seq<byte>, i: nat)
    requires i <= |b| <= |b'| && b'[..|b|] == b
    requires |b| == |b'| || Next(b, i) < |b| || EndsPair(b'[|b|])
    ensures Next(b', i) == Next(b, i) && Raw(b', i) == Raw(b, i)
    decreases |b| - i
  {
    var e := Next(b, i);
    assert forall k :: 0 <= k < |b| ==> b'[k] == b'[..|b|][k] == b[k];
    assert Next(b', i) == e;
    assert b'[i..e] == b[i..e];
  }

  lemma SameName(b: seq<byte>, b': seq<byte>, i: nat)
    requires i < |b| <= |b'| && b'[..|b|] == b && b[i] == EQUALS
    ensures NameAt(b', i) == NameAt(b, i)
  {
    SameStart(b, b', i);
    NextBefore(b, PairStart(b, i), i);
    SameNext(b, b', PairStart(b, i));
  }

  lemma {:induction false} SameValues(b: seq<byte>, b': seq<byte>, names: seq<seq<byte>>, name: seq<byte>, i: nat)
    requires i <= |b| <= |b'| && b'[..|b|] == b
    ensures ValueOf(b', name, i) == ValueOf(b, name, i) && Hits(b', names, i) == Hits(b, names, i)
  {
    hide NameAt;
    if i > 0 {
      SameValues(b, b', names, name, i - 1);
      assert b'[i - 1] == b'[..|b|][i - 1];
      if b[i - 1] == EQUALS {
        SameName(b, b', i - 1);
      }
    }
  }

  /** No value starts, and nothing is found, where there is no equals sign. */
  lemma {:induction false} Quiet(b: seq<byte>, names: seq<seq<byte>>, name: seq<byte>, i: nat, j: nat)
    requires i <= j <= |b| && forall k :: i <= k < j ==> b[k] != EQUALS
    ensures ValueOf(b, name, j) == ValueOf(b, name, i) && Hits(b, names, j) == Hits(b, names, i)
    decreases j
  {
    hide NameAt;
    if i < j {
      Quiet(b, names, name, i, j - 1);
    }
  }

  lemma {:induction false} StartsAt(b: seq<byte>, p: nat, i: nat)
    requires p <= i <= |b| && Finished(b[..p]) && forall k :: p <= k < i ==> !EndsPair(b[k])
    ensures PairStart(b, i) == p
    decreases i
  {
    if i > p {
      StartsAt(b, p, i - 1);
    } else if i > 0 {
      assert b[..p][p - 1] == b[p - 1];
    }
  }

  lemma NextAt(b: seq<byte>, i: nat, s: seq<byte>)
    requires i + |s| <= |b| && b[i..i + |s|] == s && Uncut(s)
    requires i + |s| == |b| || Cuts(b[i + |s|])
    ensures Raw(b, i) == s
  {
    assert forall k :: i <= k < i + |s| ==> b[k] == s[k - i];
    assert Next(b, i) == i + |s|;
  }

  /** Where the pieces of a printed pair lie. */
  lemma PairPieces(pre: seq<byte>, p: Pair)
    requires Uncut(p.name) && Uncut(p.raw)
    ensures var b, from, at := pre + PrintPair(p), |pre|, |pre| + |p.name|;
            && at < |b| && b[..from] == pre && b[from..at] == p.name && b[at] == EQUALS && b[at + 1..|b|] == p.raw
            && (forall k :: from <= k < at ==> b[k] != EQUALS && !Cuts(b[k]))
            && (forall k :: at < k < |b| ==> b[k] != EQUALS && !Cuts(b[k]))
  {
    var b, from, at := pre + PrintPair(p), |pre|, |pre| + |p.name|;
    assert b[from..at] == p.name && b[at + 1..|b|] == p.raw;
    assert forall k :: from <= k < at ==> b[k] == p.name[k - from];
    assert forall k :: at < k < |b| ==> b[k] == p.raw[k - at - 1];
  }

  lemma PairRead(pre: seq<byte>, p: Pair)
    requires Finished(pre) && Uncut(p.name) && Uncut(p.raw)
    ensures var b, at := pre + PrintPair(p), |pre| + |p.name|;
            at < |b| && NameAt(b, at) == p.name && Raw(b, at + 1) == p.raw
  {
    var b, at := pre + PrintPair(p), |pre| + |p.name|;
    PairPieces(pre, p);
    hide PrintPair;
    hide Raw;
    StartsAt(b, |pre|, at);
    NextAt(b, |pre|, p.name);
    NextAt(b, at + 1, p.raw);
  }

  lemma Sign(b: seq<byte>, names: seq<seq<byte>>, name: seq<byte>, at: nat)
    requires at < |b| && b[at] == EQUALS
    ensures ValueOf(b, name, at + 1) == if name == NameAt(b, at) then at + 1 else ValueOf(b, name, at)
    ensures Hits(b, names, at + 1) == Hits(b, names, at) + if NameAt(b, at) in names then 1 else 0
  {
  }

  lemma SignAdds(b: seq<byte>, pre: seq<byte>, at: nat, names: seq<seq<byte>>, name: seq<byte>)
    requires |pre| <= at < |b| && b[..|pre|] == pre && b[at] == EQUALS
    requires forall k :: |pre| <= k < at || at < k < |b| ==> b[k] != EQUALS
    ensures ValueOf(b, name, |b|) == if name == NameAt(b, at) then at + 1 else ValueOf(pre, name, |pre|)
    ensures Hits(b, names, |b|) == Hits(pre, names, |pre|) + if NameAt(b, at) in names then 1 else 0
  {
    hide *;
    SameValues(pre, b, names, name, |pre|);
    Quiet(b, names, name, |pre|, at);
    Sign(b, names, name, at);
    Quiet(b, names, name, at + 1, |b|);
  }

  /** A pair after finished ones: one value more, one hit more if it is wanted. */
  lemma PairAdds(pre: seq<byte>, p: Pair, names: seq<seq<byte>>, name: seq<byte>)
    requires Finished(pre) && Uncut(p.name) && Uncut(p.raw)
    ensures var b := pre + PrintPair(p);
            && ValueOf(b, name, |b|) == (if name == p.name then |pre| + |p.name| + 1 else ValueOf(pre, name, |pre|))
            && Hits(b, names, |b|) == Hits(pre, names, |pre|) + (if p.name in names then 1 else 0)
  {
    hide *;
    assert var b, at := pre + PrintPair(p), |pre| + |p.name|;
           && at < |b| && b[..|pre|] == pre && b[at] == EQUALS
           && forall k :: |pre| <= k < at || at < k < |b| ==> b[k] != EQUALS by {
      PairPieces(pre, p);
      hide *;
    }
    PairRead(pre, p);
    SignAdds(pre + PrintPair(p), pre, |pre| + |p.name|, names, name);
  }

  // ----- a whole form -----

  lemma PrintUnfolds(ps: seq<Pair>)
    requires ps != []
    ensures Print(ps) == PrintFront(ps[..|ps| - 1]) + PrintPair(ps[|ps| - 1])
    ensures PrintFront(ps) == Print(ps) + [AMPERSAND] && Finished(PrintFront(ps))
  {
  }

  /** The value of `name` in a body, if its last one is terminated by the end of the body. */
  ghost predicate Reads(b: seq<byte>, name: seq<byte>, found: Option<seq<byte>>) {
    var v := ValueOf(b, name, |b|);
    match found
    case None => v == NULL
    case Some(raw) => v != NULL && Raw(b, v) == raw
  }

  lemma ReadsBefore(b: seq<byte>, b': seq<byte>, names: seq<seq<byte>>, name: seq<byte>, found: Option<seq<byte>>)
    requires Reads(b, name, found) && |b| <= |b'| && b'[..|b|] == b && (|b| == |b'| || EndsPair(b'[|b|]))
    ensures ValueOf(b', name, |b|) == ValueOf(b, name, |b|) && Hits(b', names, |b|) == Hits(b, names, |b|)
    ensures found.Some? ==> ValueOf(b, name, |b|) != NULL && Raw(b', ValueOf(b, name, |b|)) == found.value
  {
    SameValues(b, b', names, name, |b|);
    if found.Some? {
      SameNext(b, b', ValueOf(b, name, |b|));
    }
  }

  /** An ampersand after a body changes nothing it says. */
  lemma ReadsFront(b: seq<byte>, names: seq<seq<byte>>, name: seq<byte>, found: Option<seq<byte>>)
    requires Reads(b, name, found)
    ensures Reads(b + [AMPERSAND], name, found)
    ensures Hits(b + [AMPERSAND], names, |b| + 1) == Hits(b, names, |b|)
  {
    hide ValueOf;
    hide Hits;
    hide Raw;
    var b' := b + [AMPERSAND];
    ReadsBefore(b, b', names, name, found);
    Quiet(b', names, name, |b|, |b| + 1);
  }

  lemma ReadsPair(pre: seq<byte>, p: Pair, names: seq<seq<byte>>, name: seq<byte>, found: Option<seq<byte>>)
    requires Finished(pre) && Uncut(p.name) && Uncut(p.raw) && Reads(pre, name, found)
    ensures Reads(pre + PrintPair(p), name, if p.name == name then Some(p.raw) else found)
  {
    hide ValueOf;
    hide Raw;
    hide PrintPair;
    hide Uncut;
    hide Hits;
    hide Finished;
    var b := pre + PrintPair(p);
    PairAdds(pre, p, names, name);
    PairRead(pre, p);
    if p.name != name && found.Some? {
      FinishedNext(pre, b, ValueOf(pre, name, |pre|), p);
    }
  }

  lemma FinishedNext(pre: seq<byte>, b: seq<byte>, v: nat, p: Pair)
    requires Finished(pre) && b == pre + PrintPair(p) && 0 < v <= |pre| && pre[v - 1] == EQUALS
    ensures Raw(b, v) == Raw(pre, v)
  {
    assert b[..|pre|] == pre;
    NextBefore(pre, v, |pre| - 1);
    SameNext(pre, b, v);
  }

  ghost predicate Says(b: seq<byte>, ps: seq<Pair>, names: seq<seq<byte>>, name: seq<byte>) {
    Reads(b, name, Last(ps, name)) && Hits(b, names, |b|) == Wanted(ps, names)
  }

  lemma SaysPair(front: seq<Pair>, p: Pair, names: seq<seq<byte>>, name: seq<byte>)
    requires Finished(PrintFront(front)) && Uncut(p.name) && Uncut(p.raw)
    requires Says(PrintFront(front), front, names, name)
    ensures Says(Print(front + [p]), front + [p], names, name)
  {
    var ps := front + [p];
    assert ps[..|ps| - 1] == front;
    ReadsPair(PrintFront(front), p, names, name, Last(front, name));
    PairAdds(PrintFront(front), p, names, name);
    hide Reads;
    hide PrintPair;
    hide Hits;
    hide Finished;
    hide Uncut;
    hide PrintFront;
  }

  lemma SaysFront(ps: seq<Pair>, names: seq<seq<byte>>, name: seq<byte>)
    requires ps != [] && Says(Print(ps), ps, names, name)
    ensures Says(PrintFront(ps), ps, names, name)
  {
    PrintUnfolds(ps);
    hide Reads;
    hide Print;
    hide PrintFront;
    hide Hits;
    hide Last;
    hide Wanted;
    ReadsFront(Print(ps), names, name, Last(ps, name));
  }

  /** Every name reads as its last pair, and the hits are the wanted pairs. */
  lemma {:induction false} ReadsPrinted(ps: seq<Pair>, names: seq<seq<byte>>, name: seq<byte>)
    requires Printable(ps)
    ensures Says(Print(ps), ps, names, name) && Says(PrintFront(ps), ps, names, name)
    decreases |ps|
  {
    if ps != [] {
      var front, last := ps[..|ps| - 1], ps[|ps| - 1];
      assert ps == front + [last];
      ReadsPrinted(front, names, name);
      if front != [] {
        PrintUnfolds(front);
      }
      hide Says;
      hide Print;
      SaysPair(front, last, names, name);
      SaysFront(ps, names, name);
    }
  }

  lemma {:induction false} StopGrows(b: seq<byte>, b': seq<byte>, names: seq<seq<byte>>, i: nat)
    requires i <= |b| <= |b'| && b'[..|b|] == b
    ensures Stop(b', names, i) == if Stop(b, names, i) < |b| then Stop(b, names, i) else Stop(b', names, |b|)
    decreases |b| - i
  {
    hide Hits;
    if i < |b| {
      assert b'[i] == b'[..|b|][i];
      SameValues(b, b', names, [], i);
      StopGrows(b, b', names, i + 1);
    }
  }

  lemma {:induction false} StopsAtEnd(b: seq<byte>, names: seq<seq<byte>>, i: nat)
    requires i <= |b| && forall k :: i <= k < |b| ==> !EndsPair(b[k])
    ensures Stop(b, names, i) == |b|
    decreases |b| - i
  {
    if i < |b| {
      StopsAtEnd(b, names, i + 1);
    }
  }

  lemma PairNeverEnds(pre: seq<byte>, p: Pair)
    requires Uncut(p.name) && Uncut(p.raw)
    ensures forall k :: |pre| <= k < |pre + PrintPair(p)| ==> !EndsPair((pre + PrintPair(p))[k])
  {
    PairPieces(pre, p);
  }

  /** One more pair: the search passes the ampersand before it unless it has found enough. */
  lemma StopAfter(ps: seq<Pair>, names: seq<seq<byte>>)
    requires |ps| > 1 && Printable(ps)
    ensures var front, b, b' := ps[..|ps| - 1], Print(ps[..|ps| - 1]), Print(ps);
            && |b| < |b'| && b'[..|b|] == b
            && Stop(b', names, |b|) == if Wanted(front, names) >= |names| then |b| else |b'|
  {
    var front, last := ps[..|ps| - 1], ps[|ps| - 1];
    var b, b' := Print(front), Print(ps);
    ReadsPrinted(front, names, []);
    PrintUnfolds(ps);
    PrintUnfolds(front);
    PairNeverEnds(PrintFront(front), last);
    hide Print;
    hide PrintPair;
    assert b'[..|b|] == b && b'[|b|] == AMPERSAND;
    SameValues(b, b', names, [], |b|);
    StopsAtEnd(b', names, |b| + 1);
    hide Hits;
  }

  lemma {:induction false} KeptIsPrefix(ps: seq<Pair>, names: seq<seq<byte>>)
    ensures Kept(ps, names) <= ps
    decreases |ps|
  {
    if ps != [] {
      KeptIsPrefix(ps[..|ps| - 1], names);
    }
  }

  lemma {:induction false} StopsAfterKept(ps: seq<Pair>, names: seq<seq<byte>>)
    requires Printable(ps)
    ensures var b, k := Print(ps), Print(Kept(ps, names));
            && Stop(b, names, 0) == |k| <= |b| && b[..|k|] == k
            && (|k| == |b| <==> Kept(ps, names) == ps)
    decreases |ps|
  {
    if |ps| == 1 {
      PairNeverEnds([], ps[0]);
      PrintUnfolds(ps);
      assert [] + PrintPair(ps[0]) == Print(ps);
      StopsAtEnd(Print(ps), names, 0);
    } else if |ps| > 1 {
      var front := ps[..|ps| - 1];
      StopsAfterKept(front, names);
      StopAfter(ps, names);
      KeptIsPrefix(front, names);
      hide Print;
      hide Stop;
      hide Wanted;
      var b, b', k := Print(front), Print(ps), Print(Kept(front, names));
      StopGrows(b, b', names, 0);
      assert b'[..|k|] == b'[..|b|][..|k|];
    }
  }

  /**
   * Any printed form, names repeated or unknown ones included: each field is the last pair of its
   * name among those looked at, decoded.
   */
  lemma FieldOfPrinted(ps: seq<Pair>, names: seq<seq<byte>>, f: nat)
    requires Printable(ps) && f < |names|
    ensures FieldOf(Print(ps), names, f) ==
      match Last(Kept(ps, names), names[f])
      case None => Missing
      case Some(raw) => if Decode(raw).Some? then Given(Decode(raw).value) else Malformed
  {
    var kept := Kept(ps, names);
    StopsAfterKept(ps, names);
    KeptIsPrefix(ps, names);
    ReadsPrinted(kept, names, names[f]);
    hide Print;
    hide Decode;
    hide Last;
    hide Hits;
    hide Kept;
    var b, b' := Print(kept), Print(ps);
    ReadsBefore(b, b', names, names[f], Last(kept, names[f]));
  }

  /** A form is looked at in full if and only if it has no surplus pairs before the last. */
  lemma {:induction false} NothingDropped(ps: seq<Pair>, names: seq<seq<byte>>)
    ensures Kept(ps, names) == ps <==> forall n :: 0 < n < |ps| ==> Wanted(ps[..n], names) < |names|
    decreases |ps|
  {
    if ps != [] {
      var front := ps[..|ps| - 1];
      assert forall n :: 0 < n < |front| ==> front[..n] == ps[..n];
      NothingDropped(front, names);
      KeptLength(front, names);
      assert (forall n :: 0 < n < |ps| ==> Wanted(ps[..n], names) < |names|) <==>
        && (forall n :: 0 < n < |front| ==> Wanted(front[..n], names) < |names|)
        && (front != [] ==> Wanted(front, names) < |names|);
    }
  }

  lemma {:induction false} KeptLength(ps: seq<Pair>, names: seq<seq<byte>>)
    ensures |Kept(ps, names)| <= |ps| && (|Kept(ps, names)| == |ps| <==> Kept(ps, names) == ps)
    decreases |ps|
  {
    if ps != [] {
      KeptLength(ps[..|ps| - 1], names);
    }
  }
}
