/** `postdecode_fields` of util.c: looking up form fields inside the request body, in place. */
module FormFields {
  import opened Bytes
  import opened CStrings
  import opened Common
  import opened UrlEncoding

  predicate EndsPair(c: byte) {
    c == AMPERSAND || c == NUL
  }

  predicate Cuts(c: byte) {
    c == EQUALS || EndsPair(c)
  }

  /** Where the pair that holds position `i` starts. */
  function PairStart(body: seq<byte>, i: nat): (p: nat)
    requires i <= |body|
    ensures p <= i && forall k :: p <= k < i ==> !EndsPair(body[k])
  {
    if i == 0 || EndsPair(body[i - 1]) then i else PairStart(body, i - 1)
  }

  /** The first cut at or after `i`, or the end of the body. */
  function Next(body: seq<byte>, i: nat): (n: nat)
    requires i <= |body|
    ensures i <= n <= |body| && (n < |body| ==> Cuts(body[n]))
    ensures forall k :: i <= k < n ==> !Cuts(body[k])
    decreases |body| - i
  {
    if i == |body| || Cuts(body[i]) then i else Next(body, i + 1)
  }

  /** From `i` to the next cut. */
  function Raw(body: seq<byte>, i: nat): seq<byte>
    requires i <= |body|
  {
    body[i..Next(body, i)]
  }

  function NameAt(body: seq<byte>, i: nat): seq<byte>
    requires i <= |body|
  {
    Raw(body, PairStart(body, i))
  }

  /** How many equals signs below `i` belong to a pair with one of the `names`. */
  function Hits(body: seq<byte>, names: seq<seq<byte>>, i: nat): nat
    requires i <= |body|
  {
    if i == 0 then 0
    else Hits(body, names, i - 1) + if body[i - 1] == EQUALS && NameAt(body, i - 1) in names then 1 else 0
  }

  /** The value `name` has below `i`: it starts after the last equals sign of a pair of that name. */
  function ValueOf(body: seq<byte>, name: seq<byte>, i: nat): (v: int)
    requires i <= |body|
    ensures v != NULL ==> 0 < v <= i && body[v - 1] == EQUALS && NameAt(body, v - 1) == name
  {
    if i == 0 then NULL
    else if body[i - 1] == EQUALS && NameAt(body, i - 1) == name then i
    else ValueOf(body, name, i - 1)
  }

  /** The search ends with the first pair, from `i` on, by which there were as many hits as names. */
  function Stop(body: seq<byte>, names: seq<seq<byte>>, i: nat): (t: nat)
    requires i <= |body|
    ensures i <= t <= |body| && (t < |body| ==> EndsPair(body[t]))
    decreases |body| - i
  {
    if i == |body| || (EndsPair(body[i]) && Hits(body, names, i) >= |names|) then i
    else Stop(body, names, i + 1)
  }

  /** The buffer with the cuts below `n` made. */
  function CutTo(body: seq<byte>, n: nat): (b: seq<byte>)
    ensures |b| == |body| + 1
  {
    seq(|body| + 1, k requires 0 <= k <= |body| => if k == |body| || (k < n && Cuts(body[k])) then NUL else body[k])
  }

  lemma NextBefore(body: seq<byte>, i: nat, k: nat)
    requires i <= k < |body| && Cuts(body[k])
    ensures Next(body, i) <= k
  {
  }

  lemma CutHolds(body: seq<byte>, i: nat, n: nat)
    requires i <= |body| && (Next(body, i) < n || n >= |body|)
    ensures Holds(CutTo(body, n), i, Raw(body, i)) && NUL !in Raw(body, i)
  {
    var b, e := CutTo(body, n), Next(body, i);
    assert forall k :: i <= k < e ==> b[k] == body[k];
    assert b[i..e] == body[i..e];
  }

  // ----- finding the fields -----

  /** The scan has come to `i`. */
  ghost predicate Scanned(body: seq<byte>, names: seq<seq<byte>>, b: seq<byte>, i: nat, p: nat, found: nat,
                          values: seq<int>)
    requires i <= |body|
  {
    && b == CutTo(body, i)
    && p == PairStart(body, i) && found == Hits(body, names, i)
    && Stop(body, names, 0) == Stop(body, names, i)
    && Valued(body, names, i, values)
  }

  ghost predicate Valued(body: seq<byte>, names: seq<seq<byte>>, i: nat, values: seq<int>)
    requires i <= |body|
  {
    |values| == |names| && forall f :: 0 <= f < |names| ==> values[f] == ValueOf(body, names[f], i)
  }

  function Reassigned(names: seq<seq<byte>>, values: seq<int>, name: seq<byte>, at: int): seq<int>
    requires |values| == |names|
  {
    seq(|names|, f requires 0 <= f < |names| => if names[f] == name then at else values[f])
  }

  lemma {:induction false} ScansEquals(body: seq<byte>, names: seq<seq<byte>>, b: seq<byte>, i: nat, p: nat,
                                       found: nat, values: seq<int>)
    requires i < |body| && body[i] == EQUALS && Scanned(body, names, b, i, p, found, values)
    ensures |values| == |names| && i < |b| && p <= i
    ensures var name := CString(b[i := NUL], p);
            Scanned(body, names, b[i := NUL], i + 1, p, found + (if name in names then 1 else 0),
                    Reassigned(names, values, name, i + 1))
  {
    assert b[i := NUL] == CutTo(body, i + 1);
    NextBefore(body, p, i);
    CutHolds(body, p, i + 1);
    HoldsCString(CutTo(body, i + 1), p, Raw(body, p));
  }

  lemma {:induction false} ScansEnd(body: seq<byte>, names: seq<seq<byte>>, b: seq<byte>, i: nat, p: nat, found: nat,
                                    values: seq<int>)
    requires i < |body| && EndsPair(body[i]) && Scanned(body, names, b, i, p, found, values)
    ensures |values| == |names| && i < |b|
    ensures b[i := NUL] == CutTo(body, i + 1)
    ensures if found >= |names| then i == Stop(body, names, 0)
            else Scanned(body, names, b[i := NUL], i + 1, i + 1, found, values)
  {
    assert b[i := NUL] == CutTo(body, i + 1);
  }

  lemma {:induction false} ScansOther(body: seq<byte>, names: seq<seq<byte>>, b: seq<byte>, i: nat, p: nat,
                                      found: nat, values: seq<int>)
    requires i < |body| && !Cuts(body[i]) && Scanned(body, names, b, i, p, found, values)
    ensures Scanned(body, names, b, i + 1, p, found, values)
  {
    assert CutTo(body, i) == CutTo(body, i + 1);
  }

  /** Every field of that name gets the value at `at`. */
  method Assign(names: seq<seq<byte>>, values: array<int>, name: seq<byte>, at: nat) returns (hits: nat)
    requires values.Length == |names| && Distinct(names)
    modifies values
    ensures values[..] == Reassigned(names, old(values[..]), name, at)
    ensures hits == if name in names then 1 else 0
  {
    hits := 0;
    var field := 0;
    while field < |names|
      invariant 0 <= field <= |names|
      invariant forall f :: 0 <= f < |names| ==>
        values[f] == if f < field && names[f] == name then at else old(values[f])
      invariant hits == if name in names[..field] then 1 else 0
    {
      assert names[..field + 1] == names[..field] + [names[field]];
      if name == names[field] {
        values[field] := at;
        hits := hits + 1;
      }
      field := field + 1;
    }
    assert names[..field] == names;
  }

  /** After the scan, the values are where `ValueOf` says and every one of them is terminated. */
  ghost predicate Located(body: seq<byte>, names: seq<seq<byte>>, b: seq<byte>, values: seq<int>) {
    var stop := Stop(body, names, 0);
    Valued(body, names, stop, values) && b == CutTo(body, stop + 1)
  }

  method FindFields(post: array<byte>, len: nat, names: seq<seq<byte>>, values: array<int>)
    requires post.Length == len + 1 && post[len] == NUL
    requires values.Length == |names| && Distinct(names) && forall f :: 0 <= f < |names| ==> values[f] == NULL
    modifies post, values
    ensures Located(old(post[..len]), names, post[..], values[..])
  {
    ghost var body := post[..len];
    var p, i, found := 0, 0, 0;
    ScanStarts(body, names, post[..], values[..]);
    hide Scanned;
    hide Located;
    hide CString;
    hide CutTo;
    hide Reassigned;
    hide Stop;
    while i < len
      invariant 0 <= p <= i <= len && post.Length == len + 1
      invariant Scanned(body, names, post[..], i, p, found, values[..])
    {
      ghost var b := post[..];
      ScanReads(body, names, b, i, p, found, values[..]);
      if post[i] == EQUALS {
        ScansEquals(body, names, b, i, p, found, values[..]);
        post[i] := NUL;
        assert post[..] == b[i := NUL];
        var hits := Assign(names, values, CString(post[..], p), i + 1);
        found := found + hits;
      } else if post[i] == AMPERSAND || post[i] == NUL {
        ScansEnd(body, names, b, i, p, found, values[..]);
        post[i] := NUL;
        assert post[..] == b[i := NUL];
        if found >= |names| {
          ScanStops(body, names, b, i, p, found, values[..]);
          return;
        }
        p := i + 1;
      } else {
        ScansOther(body, names, b, i, p, found, values[..]);
      }
      i := i + 1;
    }
    ScanEnds(body, names, post[..], p, found, values[..]);
  }

  lemma ScanStarts(body: seq<byte>, names: seq<seq<byte>>, b: seq<byte>, values: seq<int>)
    requires |b| == |body| + 1 && b[..|body|] == body && b[|body|] == NUL
    requires |values| == |names| && forall f :: 0 <= f < |names| ==> values[f] == NULL
    ensures Scanned(body, names, b, 0, 0, 0, values)
  {
    assert forall k :: 0 <= k < |body| ==> b[k] == b[..|body|][k];
    assert b == CutTo(body, 0);
  }

  lemma {:induction false} ScanReads(body: seq<byte>, names: seq<seq<byte>>, b: seq<byte>, i: nat, p: nat, found: nat,
                                     values: seq<int>)
    requires i < |body| && Scanned(body, names, b, i, p, found, values)
    ensures i < |b| && b[i] == body[i]
  {
  }

  lemma {:induction false} ScanStops(body: seq<byte>, names: seq<seq<byte>>, b: seq<byte>, i: nat, p: nat, found: nat,
                                     values: seq<int>)
    requires i < |body| && Scanned(body, names, b, i, p, found, values) && i == Stop(body, names, 0)
    ensures Located(body, names, CutTo(body, i + 1), values)
  {
  }

  lemma {:induction false} ScanEnds(body: seq<byte>, names: seq<seq<byte>>, b: seq<byte>, p: nat, found: nat,
                                    values: seq<int>)
    requires Scanned(body, names, b, |body|, p, found, values)
    ensures Located(body, names, b, values)
  {
    assert CutTo(body, |body|) == CutTo(body, |body| + 1);
  }

  // ----- decoding them -----

  /** Values are offsets just after different equals signs. */
  ghost predicate Placed(body: seq<byte>, values: seq<int>) {
    && (forall f :: 0 <= f < |values| ==>
        values[f] == NULL || (0 < values[f] <= |body| && body[values[f] - 1] == EQUALS))
    && (forall f, g :: 0 <= f < g < |values| ==> values[f] == NULL || values[f] != values[g])
  }

  /** The buffer holds the value at `off`, in its final form if `done`. */
  ghost predicate HoldsValue(body: seq<byte>, b: seq<byte>, off: int, done: bool) {
    off != NULL ==>
      && 0 <= off <= |body|
      && if done then Decode(Raw(body, off)).Some? && Holds(b, off, Decode(Raw(body, off)).value)
                      && |Decode(Raw(body, off)).value| <= |Raw(body, off)|
         else Holds(b, off, Raw(body, off))
  }

  /** The first `n` values have been decoded. */
  ghost predicate DecodedTo(body: seq<byte>, b: seq<byte>, values: seq<int>, n: nat) {
    && |b| == |body| + 1 && Placed(body, values)
    && forall f :: 0 <= f < |values| ==> HoldsValue(body, b, values[f], f < n)
  }

  lemma Within(b: seq<byte>, lo: nat, hi: nat, i: nat, j: nat)
    requires lo <= i <= j <= hi <= |b|
    ensures b[lo..hi][i - lo..j - lo] == b[i..j]
  {
    var inner, outer := b[lo..hi][i - lo..j - lo], b[i..j];
    assert forall k :: 0 <= k < j - i ==> inner[k] == b[lo..hi][k + (i - lo)] == b[k + i] == outer[k];
  }

  lemma {:induction false} Elsewhere(b: seq<byte>, b': seq<byte>, lo: nat, hi: nat, off: nat, s: seq<byte>)
    requires lo <= off && off + |s| < hi <= |b| == |b'| && b[lo..hi] == b'[lo..hi]
    requires Holds(b, off, s)
    ensures Holds(b', off, s)
  {
    var end := off + |s|;
    Within(b, lo, hi, off, end);
    Within(b', lo, hi, off, end);
    assert b[end] == b[lo..hi][end - lo] == b'[end];
  }

  /** A value ends before the equals sign of a later one. */
  lemma Apart(body: seq<byte>, v: nat, w: nat)
    requires v < w <= |body| && body[w - 1] == EQUALS
    ensures v + |Raw(body, v)| < w
  {
    NextBefore(body, v, w - 1);
  }

  lemma Unchanged(b: seq<byte>, b': seq<byte>, at: nat, raw: seq<byte>)
    requires Decoded(b, b', at, raw, true)
    ensures at + |raw| + 1 <= |b| == |b'| && b[0..at] == b'[0..at] && b[at + |raw| + 1..|b|] == b'[at + |raw| + 1..|b|]
  {
    hide Decode;
    var to := at + |raw| + 1;
    assert b[0..at] == b[..at] && b'[0..at] == b'[..at];
    assert b[to..|b|] == b[to..] && b'[to..|b|] == b'[to..];
  }

  /** Decoding one value leaves the others alone. */
  lemma {:induction false} KeepsOthers(body: seq<byte>, b: seq<byte>, b': seq<byte>, at: nat, other: int, done: bool)
    requires |b| == |body| + 1 && 0 < at <= |body| && body[at - 1] == EQUALS
    requires other == NULL || (0 < other <= |body| && body[other - 1] == EQUALS && other != at)
    requires Decoded(b, b', at, Raw(body, at), true)
    requires HoldsValue(body, b, other, done)
    ensures HoldsValue(body, b', other, done)
  {
    hide Raw;
    hide Decode;
    hide Decoded;
    hide Holds;
    if other != NULL {
      var s := if done then Decode(Raw(body, other)).value else Raw(body, other);
      Unchanged(b, b', at, Raw(body, at));
      if other < at {
        Apart(body, other, at);
        Elsewhere(b, b', 0, at, other, s);
      } else {
        Apart(body, at, other);
        HoldsEnds(b, other, s);
        Elsewhere(b, b', at + |Raw(body, at)| + 1, |b|, other, s);
      }
    }
  }

  lemma HoldsEnds(b: seq<byte>, off: nat, s: seq<byte>)
    requires Holds(b, off, s)
    ensures off + |s| < |b|
  {
  }

  lemma DecodesValue(body: seq<byte>, b: seq<byte>, b': seq<byte>, values: seq<int>, n: nat)
    requires n < |values| && DecodedTo(body, b, values, n)
    requires values[n] == NULL ==> b' == b
    requires values[n] != NULL ==> 0 <= values[n] <= |body| && Decoded(b, b', values[n], Raw(body, values[n]), true)
    ensures DecodedTo(body, b', values, n + 1)
  {
    hide Decode;
    hide Raw;
    forall f | 0 <= f < |values| ensures HoldsValue(body, b', values[f], f < n + 1) {
      if f != n && values[n] != NULL {
        hide HoldsValue;
        hide Decoded;
        KeepsOthers(body, b, b', values[n], values[f], f < n);
      }
    }
  }

  lemma UndecodedValue(body: seq<byte>, names: seq<seq<byte>>, v: int)
    requires v == NULL || 0 < v <= Stop(body, names, 0)
    ensures HoldsValue(body, CutTo(body, Stop(body, names, 0) + 1), v, false)
  {
    var stop := Stop(body, names, 0);
    if v != NULL {
      if stop < |body| {
        NextBefore(body, v, stop);
      }
      CutHolds(body, v, stop + 1);
    }
  }

  lemma ValueNames(body: seq<byte>, names: seq<seq<byte>>, b: seq<byte>, values: seq<int>)
    requires Located(body, names, b, values) && Distinct(names)
    ensures DecodedTo(body, b, values, 0)
  {
    var stop := Stop(body, names, 0);
    hide ValueOf;
    hide CutTo;
    forall f | 0 <= f < |values| ensures HoldsValue(body, b, values[f], false) {
      UndecodedValue(body, names, values[f]);
    }
  }

  /** What decoding the values amounts to: every one of them, or none that can be relied on. */
  ghost predicate Found(body: seq<byte>, names: seq<seq<byte>>, b: seq<byte>, values: seq<int>, ok: bool) {
    var stop := Stop(body, names, 0);
    && Valued(body, names, stop, values)
    && ok == (forall f :: 0 <= f < |names| ==> FieldOf(body, names, f) != Malformed)
    && (ok ==> forall f :: 0 <= f < |names| ==>
          match FieldOf(body, names, f)
          case Missing => values[f] == NULL
          case Given(s) => Holds(b, values[f], s)
          case Malformed => false)
  }

  datatype Field = Missing | Given(value: seq<byte>) | Malformed

  /** The value of field `f` of a form. */
  function FieldOf(body: seq<byte>, names: seq<seq<byte>>, f: nat): Field
    requires f < |names|
  {
    var v := ValueOf(body, names[f], Stop(body, names, 0));
    if v == NULL then Missing
    else match Decode(Raw(body, v))
      case Some(s) => Given(s)
      case None => Malformed
  }

  lemma AllFound(body: seq<byte>, names: seq<seq<byte>>, b: seq<byte>, values: seq<int>)
    requires Valued(body, names, Stop(body, names, 0), values)
    requires DecodedTo(body, b, values, |values|)
    ensures Found(body, names, b, values, true)
  {
    hide Decode;
    hide Raw;
    hide Stop;
    forall f | 0 <= f < |names|
      ensures match FieldOf(body, names, f)
              case Missing => values[f] == NULL
              case Given(s) => Holds(b, values[f], s)
              case Malformed => false
    {
      assert HoldsValue(body, b, values[f], true);
    }
  }

  lemma NotAllFound(body: seq<byte>, names: seq<seq<byte>>, b: seq<byte>, values: seq<int>, f: nat)
    requires Valued(body, names, Stop(body, names, 0), values)
    requires f < |names| && values[f] != NULL && Decode(Raw(body, values[f])) == None
    ensures Found(body, names, b, values, false)
  {
    hide Decode;
    hide Raw;
    hide Stop;
    assert FieldOf(body, names, f) == Malformed;
  }

  lemma NextValue(body: seq<byte>, b: seq<byte>, values: seq<int>, n: nat)
    requires n < |values| && DecodedTo(body, b, values, n)
    ensures values[n] != NULL ==>
      0 <= values[n] <= |body| && Holds(b, values[n], Raw(body, values[n])) && NUL !in Raw(body, values[n])
  {
    assert HoldsValue(body, b, values[n], false);
  }

  /** The fields of a request body, each one decoded where it lies. */
  method PostdecodeFields(post: array<byte>, len: nat, names: seq<seq<byte>>, values: array<int>) returns (ok: bool)
    requires post.Length == len + 1 && post[len] == NUL
    requires values.Length == |names| && Distinct(names) && forall f :: 0 <= f < |names| ==> values[f] == NULL
    modifies post, values
    ensures Found(old(post[..len]), names, post[..], values[..], ok)
  {
    ghost var body := post[..len];
    FindFields(post, len, names, values);
    ValueNames(body, names, post[..], values[..]);
    ghost var vs := values[..];
    hide *;
    var field := 0;
    while field < |names|
      invariant 0 <= field <= |names| && values[..] == vs && |body| == len
      invariant DecodedTo(body, post[..], vs, field)
      modifies post
    {
      ghost var b := post[..];
      NextValue(body, b, vs, field);
      ghost var raw := if values[field] == NULL then [] else Raw(body, values[field]);
      ok := UrlDecode(post, values[field], raw);
      if !ok {
        Undecoded(b, post[..], values[field], raw);
        NotAllFound(body, names, post[..], vs, field);
        return;
      }
      DecodesValue(body, b, post[..], vs, field);
      field := field + 1;
    }
    AllFound(body, names, post[..], vs);
    ok := true;
  }

  lemma Undecoded(b: seq<byte>, b': seq<byte>, off: int, s: seq<byte>)
    requires off >= 0 && Decoded(b, b', off, s, false)
    ensures Decode(s) == None
  {
  }
}
