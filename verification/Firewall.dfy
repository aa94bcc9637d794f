/** Zones and forwardings of firewall.js, over the ordered sections of the firewall configuration. */
module Firewall {
  import opened Common

  datatype Section = Section(sid: string, kind: string, opts: map<string, string>)

  function Opt(s: Section, opt: string): Option<string> {
    if opt in s.opts then Some(s.opts[opt]) else None
  }

  function WithOpt(s: Section, opt: string, val: Option<string>): Section {
    s.(opts := if val.Some? then s.opts[opt := val.value] else s.opts - {opt})
  }

  predicate IsZone(s: Section) {
    s.kind == "zone"
  }

  predicate IsForwarding(s: Section) {
    s.kind == "forwarding"
  }

  /** The kinds of section that name a source and a destination zone. */
  predicate Refers(s: Section) {
    s.kind == "rule" || s.kind == "redirect" || IsForwarding(s)
  }

  predicate Complete(s: Section) {
    IsForwarding(s) && Opt(s, "src").Some? && Opt(s, "dest").Some?
  }

  // ----- the configuration store, as this client sees it -----

  function Find(ss: seq<Section>, sid: string): (r: Option<Section>)
    ensures r.Some? ==> r.value in ss && r.value.sid == sid
    ensures r.None? ==> forall s :: s in ss ==> s.sid != sid
  {
    if ss == [] then None
    else if ss[|ss| - 1].sid == sid then Some(ss[|ss| - 1])
    else Find(ss[..|ss| - 1], sid)
  }

  /** What may be said of a section to be removed. */
  datatype Condition =
    | HasSid(sid: string)
    | ZoneNamed(zone: string)
    | RefersTo(name: Option<string>)
    | ForwardsBy(what: string, name: Option<string>)

  predicate Meets(s: Section, c: Condition) {
    match c
    case HasSid(sid) => s.sid == sid
    case ZoneNamed(name) => IsZone(s) && Opt(s, "name") == Some(name)
    case RefersTo(name) => Refers(s) && (Opt(s, "src") == name || Opt(s, "dest") == name)
    case ForwardsBy(what, name) => Complete(s) && Opt(s, what) == name
  }

  /** The sections that do not meet the condition, in their order. */
  function Reject(ss: seq<Section>, c: Condition): (r: seq<Section>)
    ensures forall s :: s in r <==> s in ss && !Meets(s, c)
  {
    if ss == [] then []
    else Reject(ss[..|ss| - 1], c) + if Meets(ss[|ss| - 1], c) then [] else [ss[|ss| - 1]]
  }

  predicate Any(ss: seq<Section>, c: Condition) {
    exists s :: s in ss && Meets(s, c)
  }

  function SetOpt(ss: seq<Section>, sid: string, opt: string, val: Option<string>): seq<Section> {
    if ss == [] then []
    else
      var last := ss[|ss| - 1];
      SetOpt(ss[..|ss| - 1], sid, opt, val) + [if last.sid == sid then WithOpt(last, opt, val) else last]
  }

  // ----- looking up zones -----

  predicate IsNameChar(c: char) {
    'a' <= c <= 'z' || 'A' <= c <= 'Z' || '0' <= c <= '9' || c == '_'
  }

  predicate IsName(name: string) {
    name != "" && forall i :: 0 <= i < |name| ==> IsNameChar(name[i])
  }

  function FirstNamed(ss: seq<Section>, name: string): (r: Option<string>)
    ensures r.Some? ==> exists s :: s in ss && Meets(s, ZoneNamed(name)) && s.sid == r.value
    ensures r.None? ==> !Any(ss, ZoneNamed(name))
    decreases |ss|
  {
    if ss == [] then None
    else if Meets(ss[0], ZoneNamed(name)) then Some(ss[0].sid)
    else FirstNamed(ss[1..], name)
  }

  /** A zone section of that identifier, or else the first zone of that name. */
  function LookupZone(ss: seq<Section>, name: string): Option<string> {
    var z := Find(ss, name);
    if z.Some? && IsZone(z.value) then Some(name) else FirstNamed(ss, name)
  }

  /** `getName` of a zone object. */
  function NameOf(ss: seq<Section>, sid: string): Option<string> {
    var z := Find(ss, sid);
    if z.Some? then Opt(z.value, "name") else None
  }

  // ----- what each operation does -----

  /** The settings `addZone` takes from the defaults section, creating one if there is none. */
  function WithDefaults(ss: seq<Section>, sid: string): seq<Section> {
    if exists s :: s in ss && s.kind == "defaults" then ss else ss + [Section(sid, "defaults", map[])]
  }

  function AfterAddZone(ss: seq<Section>, name: string, defaultsSid: string, sid: string,
                        policies: map<string, string>): seq<Section> {
    if !IsName(name) || LookupZone(ss, name).Some? then ss
    else WithDefaults(ss, defaultsSid) + [Section(sid, "zone", policies["name" := name])]
  }

  /** What `deleteZone` removes first, and the name it then clears. */
  datatype Target = Target(zones: Condition, name: Option<string>)

  function TargetOf(ss: seq<Section>, name: string): Target {
    var z := Find(ss, name);
    if z.Some? && IsZone(z.value) then Target(HasSid(name), Opt(z.value, "name"))
    else Target(ZoneNamed(name), Some(name))
  }

  function AfterDeleteZone(ss: seq<Section>, name: string): seq<Section> {
    var t := TargetOf(ss, name);
    if Any(ss, t.zones) then Reject(Reject(ss, t.zones), RefersTo(t.name)) else ss
  }

  /** The two passes of `renameZone`: over the zones, then over what refers to them. */
  datatype Pass = ZoneNames | References

  function RenameOpt(s: Section, opt: string, was: string, now: string): Section {
    if Opt(s, opt) == Some(was) then WithOpt(s, opt, Some(now)) else s
  }

  function Renamed(s: Section, pass: Pass, was: string, now: string): (r: Section)
    ensures r.sid == s.sid && r.kind == s.kind
  {
    match pass
    case ZoneNames => if IsZone(s) then RenameOpt(s, "name", was, now) else s
    case References => if Refers(s) then RenameOpt(RenameOpt(s, "src", was, now), "dest", was, now) else s
  }

  function AllRenamed(ss: seq<Section>, pass: Pass, was: string, now: string): (r: seq<Section>)
    ensures |r| == |ss| && forall i :: 0 <= i < |ss| ==> r[i] == Renamed(ss[i], pass, was, now)
  {
    if ss == [] then []
    else AllRenamed(ss[..|ss| - 1], pass, was, now) + [Renamed(ss[|ss| - 1], pass, was, now)]
  }

  predicate CanRename(ss: seq<Section>, was: string, now: string) {
    IsName(now) && LookupZone(ss, now).None? && Any(ss, ZoneNamed(was))
  }

  function AfterRenameZone(ss: seq<Section>, was: string, now: string): seq<Section> {
    if CanRename(ss, was, now) then AllRenamed(AllRenamed(ss, ZoneNames, was, now), References, was, now) else ss
  }

  predicate Linked(ss: seq<Section>, src: Option<string>, dest: Option<string>) {
    exists s :: s in ss && Complete(s) && Opt(s, "src") == src && Opt(s, "dest") == dest
  }

  function Ends(src: Option<string>, dest: Option<string>): map<string, string> {
    (if src.Some? then map["src" := src.value] else map[]) + (if dest.Some? then map["dest" := dest.value] else map[])
  }

  /** A forwarding from zone to zone, unless there is one or they are the same. */
  function AfterForward(ss: seq<Section>, src: Option<string>, dest: Option<string>, sid: string): seq<Section> {
    if src == dest || Linked(ss, src, dest) then ss else ss + [Section(sid, "forwarding", Ends(src, dest))]
  }

  function AfterForwardTo(ss: seq<Section>, self: string, dest: string, sid: string): seq<Section> {
    var z := LookupZone(ss, dest);
    if z.None? then ss else AfterForward(ss, NameOf(ss, self), NameOf(ss, z.value), sid)
  }

  function AfterForwardFrom(ss: seq<Section>, self: string, src: string, sid: string): seq<Section> {
    var z := LookupZone(ss, src);
    if z.None? then ss else AfterForward(ss, NameOf(ss, z.value), NameOf(ss, self), sid)
  }

  function AfterDeleteForwardingsBy(ss: seq<Section>, self: string, what: string): seq<Section> {
    Reject(ss, ForwardsBy(what, NameOf(ss, self)))
  }

  function AfterDeleteForwarding(ss: seq<Section>, sid: string): seq<Section> {
    var s := Find(ss, sid);
    if s.Some? && IsForwarding(s.value) then Reject(ss, HasSid(sid)) else ss
  }

  // ----- sections are known by their identifiers -----

  predicate DistinctSids(ss: seq<Section>) {
    forall i, j :: 0 <= i < j < |ss| ==> ss[i].sid != ss[j].sid
  }

  lemma {:induction false} RejectConcat(a: seq<Section>, b: seq<Section>, c: Condition)
    ensures Reject(a + b, c) == Reject(a, c) + Reject(b, c)
    decreases |b|
  {
    if b == [] {
      assert a + b == a && Reject(a, c) + [] == Reject(a, c);
    } else {
      var front, last := b[..|b| - 1], b[|b| - 1];
      RejectLast(b, c);
      RejectConcat(a, front, c);
      hide *;
      assert (a + b)[..|a + b| - 1] == a + front && (a + b)[|a + b| - 1] == last;
      RejectLast(a + b, c);
      Associates(Reject(a, c), Reject(front, c), if Meets(last, c) then [] else [last]);
    }
  }

  lemma RejectLast(ss: seq<Section>, c: Condition)
    requires ss != []
    ensures var last := ss[|ss| - 1];
            Reject(ss, c) == Reject(ss[..|ss| - 1], c) + if Meets(last, c) then [] else [last]
  {
  }

  lemma {:induction false} RejectsNothing(ss: seq<Section>, c: Condition)
    requires !Any(ss, c)
    ensures Reject(ss, c) == ss
    decreases |ss|
  {
    if ss != [] {
      assert ss == ss[..|ss| - 1] + [ss[|ss| - 1]];
      RejectsNothing(ss[..|ss| - 1], c);
    }
  }

  lemma {:induction false} RejectKeepsDistinct(ss: seq<Section>, c: Condition)
    requires DistinctSids(ss)
    ensures DistinctSids(Reject(ss, c))
    decreases |ss|
  {
    if ss != [] {
      var front, last := ss[..|ss| - 1], ss[|ss| - 1];
      RejectKeepsDistinct(front, c);
      forall i | 0 <= i < |Reject(front, c)| ensures Reject(front, c)[i].sid != last.sid {
        assert Reject(front, c)[i] in front;
      }
    }
  }

  lemma RemovesOne(a: seq<Section>, s: Section, b: seq<Section>)
    requires forall x :: x in a || x in b ==> x.sid != s.sid
    ensures Reject(a + [s] + b, HasSid(s.sid)) == a + b
  {
    var c := HasSid(s.sid);
    RejectConcat(a + [s], b, c);
    RejectConcat(a, [s], c);
    RejectsNothing(a, c);
    RejectsNothing(b, c);
    assert [s][..0] == [];
    assert Reject([s], c) == [];
    assert a + [] == a;
  }

  lemma {:induction false} SetOptConcat(a: seq<Section>, b: seq<Section>, sid: string, opt: string, val: Option<string>)
    ensures SetOpt(a + b, sid, opt, val) == SetOpt(a, sid, opt, val) + SetOpt(b, sid, opt, val)
    decreases |b|
  {
    if b == [] {
      assert a + b == a && SetOpt(a, sid, opt, val) + [] == SetOpt(a, sid, opt, val);
    } else {
      assert (a + b)[..|a + b| - 1] == a + b[..|b| - 1];
      SetOptConcat(a, b[..|b| - 1], sid, opt, val);
    }
  }

  lemma {:induction false} SetsNothing(ss: seq<Section>, sid: string, opt: string, val: Option<string>)
    requires forall x :: x in ss ==> x.sid != sid
    ensures SetOpt(ss, sid, opt, val) == ss
    decreases |ss|
  {
    if ss != [] {
      assert ss == ss[..|ss| - 1] + [ss[|ss| - 1]];
      SetsNothing(ss[..|ss| - 1], sid, opt, val);
    }
  }

  lemma SetsOne(a: seq<Section>, s: Section, b: seq<Section>, opt: string, val: Option<string>)
    requires forall x :: x in a || x in b ==> x.sid != s.sid
    ensures SetOpt(a + [s] + b, s.sid, opt, val) == a + [WithOpt(s, opt, val)] + b
  {
    SetOptConcat(a + [s], b, s.sid, opt, val);
    SetOptConcat(a, [s], s.sid, opt, val);
    SetsNothing(a, s.sid, opt, val);
    SetsNothing(b, s.sid, opt, val);
    assert [s][..0] == [];
    assert SetOpt([s], s.sid, opt, val) == [] + [WithOpt(s, opt, val)];
  }

  /** The next section of the copy, and that no other one has its identifier. */
  lemma SplitsAt(ss: seq<Section>, i: nat)
    requires i < |ss| && DistinctSids(ss)
    ensures ss[i..] == [ss[i]] + ss[i + 1..] && ss[..i + 1] == ss[..i] + [ss[i]] && ss[..i + 1][..i] == ss[..i]
    ensures forall x :: x in ss[..i] || x in ss[i + 1..] ==> x.sid != ss[i].sid
  {
  }

  /** The first `i` sections of the copy have been dealt with. */
  ghost predicate RejectedTo(ss: seq<Section>, i: nat, c: Condition, current: seq<Section>, found: bool)
    requires i <= |ss|
  {
    DistinctSids(ss) && current == Reject(ss[..i], c) + ss[i..] && (found <==> Any(ss[..i], c))
  }

  lemma RejectStarts(ss: seq<Section>, c: Condition)
    requires DistinctSids(ss)
    ensures RejectedTo(ss, 0, c, ss, false)
  {
    assert [] + ss == ss && ss[..0] == [];
  }

  lemma RejectsNext(ss: seq<Section>, i: nat, c: Condition, current: seq<Section>, found: bool)
    requires i < |ss| && RejectedTo(ss, i, c, current, found)
    ensures if Meets(ss[i], c) then RejectedTo(ss, i + 1, c, Reject(current, HasSid(ss[i].sid)), true)
            else RejectedTo(ss, i + 1, c, current, found)
  {
    var done, s, rest := Reject(ss[..i], c), ss[i], ss[i + 1..];
    SplitsAt(ss, i);
    AnyNext(ss, i, c);
    RejectLast(ss[..i + 1], c);
    assert forall x :: x in done ==> x in ss[..i];
    hide Meets;
    hide Reject;
    hide DistinctSids;
    hide Any;
    Associates(done, [s], rest);
    if Meets(s, c) {
      RemovesOne(done, s, rest);
      assert done + [] == done;
    }
  }

  lemma RejectEnds(ss: seq<Section>, c: Condition, current: seq<Section>, found: bool)
    requires RejectedTo(ss, |ss|, c, current, found)
    ensures current == Reject(ss, c) && (found <==> Any(ss, c))
  {
    assert ss[..|ss|] == ss && ss[|ss|..] == [];
    assert Reject(ss, c) + [] == Reject(ss, c);
  }

  ghost predicate RenamedTo(ss: seq<Section>, i: nat, pass: Pass, was: string, now: string, current: seq<Section>,
                            found: bool)
    requires i <= |ss|
  {
    && DistinctSids(ss) && current == AllRenamed(ss[..i], pass, was, now) + ss[i..]
    && (pass == ZoneNames ==> (found <==> Any(ss[..i], ZoneNamed(was))))
  }

  lemma RenameStarts(ss: seq<Section>, pass: Pass, was: string, now: string)
    requires DistinctSids(ss)
    ensures RenamedTo(ss, 0, pass, was, now, ss, false)
  {
    assert [] + ss == ss && ss[..0] == [];
  }

  /** Around the next section nothing has its identifier; what becomes of it is all that counts. */
  lemma {:induction false} RenamesAt(ss: seq<Section>, i: nat, pass: Pass, was: string, now: string,
                                     current: seq<Section>, found: bool)
    requires i < |ss| && RenamedTo(ss, i, pass, was, now, current, found)
    ensures var done, rest := AllRenamed(ss[..i], pass, was, now), ss[i + 1..];
            && current == done + [ss[i]] + rest
            && (forall x :: x in done || x in rest ==> x.sid != ss[i].sid)
            && RenamedTo(ss, i + 1, pass, was, now, done + [Renamed(ss[i], pass, was, now)] + rest,
                         found || Meets(ss[i], ZoneNamed(was)))
  {
    var done, s, rest := AllRenamed(ss[..i], pass, was, now), ss[i], ss[i + 1..];
    SplitsAt(ss, i);
    AnyNext(ss, i, ZoneNamed(was));
    RenamedSids(ss[..i], pass, was, now);
    hide Renamed;
    hide Any;
    hide DistinctSids;
    Associates(done, [s], rest);
    assert AllRenamed(ss[..i + 1], pass, was, now) == done + [Renamed(s, pass, was, now)];
  }

  lemma {:induction false} RenamesNext(ss: seq<Section>, i: nat, pass: Pass, was: string, now: string,
                                       current: seq<Section>, found: bool)
    requires i < |ss| && RenamedTo(ss, i, pass, was, now, current, found)
    ensures match pass
            case ZoneNames =>
              if IsZone(ss[i]) && Opt(ss[i], "name") == Some(was) then
                RenamedTo(ss, i + 1, pass, was, now, SetOpt(current, ss[i].sid, "name", Some(now)), true)
              else RenamedTo(ss, i + 1, pass, was, now, current, found)
            case References =>
              if Refers(ss[i]) then
                var first :=
                  if Opt(ss[i], "src") == Some(was) then SetOpt(current, ss[i].sid, "src", Some(now)) else current;
                var both :=
                  if Opt(ss[i], "dest") == Some(was) then SetOpt(first, ss[i].sid, "dest", Some(now)) else first;
                RenamedTo(ss, i + 1, pass, was, now, both, found)
              else RenamedTo(ss, i + 1, pass, was, now, current, found)
  {
    var done, s, rest := AllRenamed(ss[..i], pass, was, now), ss[i], ss[i + 1..];
    RenamesAt(ss, i, pass, was, now, current, found);
    hide AllRenamed;
    hide SetOpt;
    hide DistinctSids;
    hide RenamedTo;
    match pass {
      case ZoneNames =>
        SetsOne(done, s, rest, "name", Some(now));
      case References =>
        FoundUnused(ss, i + 1, was, now, done + [Renamed(s, pass, was, now)] + rest,
                    found || Meets(s, ZoneNamed(was)), found);
        SetsOne(done, s, rest, "src", Some(now));
        SetsOne(done, RenameOpt(s, "src", was, now), rest, "dest", Some(now));
    }
  }

  lemma {:induction false} FoundUnused(ss: seq<Section>, i: nat, was: string, now: string, current: seq<Section>,
                                       found: bool, found': bool)
    requires i <= |ss| && RenamedTo(ss, i, References, was, now, current, found)
    ensures RenamedTo(ss, i, References, was, now, current, found')
  {
  }

  lemma {:induction false} RenameEnds(ss: seq<Section>, pass: Pass, was: string, now: string, current: seq<Section>,
                                      found: bool)
    requires RenamedTo(ss, |ss|, pass, was, now, current, found)
    ensures current == AllRenamed(ss, pass, was, now) && DistinctSids(current)
    ensures pass == ZoneNames ==> (found <==> Any(ss, ZoneNamed(was)))
  {
    assert ss[..|ss|] == ss && ss[|ss|..] == [];
    assert current == AllRenamed(ss, pass, was, now);
  }

  // ----- the operations, with the loops they run over a copy of the sections -----

  class Rules {
    var sections: seq<Section>

    constructor (loaded: seq<Section>)
      ensures sections == loaded
    {
      sections := loaded;
    }

    method AddZone(name: string, defaultsSid: string, sid: string, policies: map<string, string>) returns (added: bool)
      modifies this
      ensures sections == AfterAddZone(old(sections), name, defaultsSid, sid, policies)
      ensures added <==> IsName(name) && LookupZone(old(sections), name).None?
    {
      if !IsName(name) || LookupZone(sections, name).Some? {
        return false;
      }
      sections := WithDefaults(sections, defaultsSid);
      sections := sections + [Section(sid, "zone", policies["name" := name])];
      added := true;
    }

    /** Goes through a copy of the sections and removes those that meet the condition. */
    method RemoveWhere(c: Condition) returns (found: bool)
      requires DistinctSids(sections)
      modifies this
      ensures sections == Reject(old(sections), c) && DistinctSids(sections)
      ensures found <==> Any(old(sections), c)
    {
      hide *;
      var ss := sections;
      found := false;
      RejectKeepsDistinct(ss, c);
      RejectStarts(ss, c);
      for i := 0 to |ss|
        invariant RejectedTo(ss, i, c, sections, found)
      {
        RejectsNext(ss, i, c, sections, found);
        if Meets(ss[i], c) {
          sections := Reject(sections, HasSid(ss[i].sid));
          found := true;
        }
      }
      RejectEnds(ss, c, sections, found);
    }

    method DeleteZone(name: string) returns (found: bool)
      requires DistinctSids(sections)
      modifies this
      ensures sections == AfterDeleteZone(old(sections), name)
      ensures found <==> Any(old(sections), TargetOf(old(sections), name).zones)
    {
      var t := TargetOf(sections, name);
      found := RemoveWhere(t.zones);
      if found {
        var _ := RemoveWhere(RefersTo(t.name));
      } else {
        RejectsNothing(old(sections), t.zones);
      }
    }

    method RenamePass(pass: Pass, was: string, now: string) returns (found: bool)
      requires DistinctSids(sections)
      modifies this
      ensures sections == AllRenamed(old(sections), pass, was, now) && DistinctSids(sections)
      ensures pass == ZoneNames ==> (found <==> Any(old(sections), ZoneNamed(was)))
    {
      hide *;
      var ss := sections;
      found := false;
      RenameStarts(ss, pass, was, now);
      for i := 0 to |ss|
        invariant RenamedTo(ss, i, pass, was, now, sections, found)
      {
        RenamesNext(ss, i, pass, was, now, sections, found);
        match pass {
          case ZoneNames =>
            if IsZone(ss[i]) && Opt(ss[i], "name") == Some(was) {
              sections := SetOpt(sections, ss[i].sid, "name", Some(now));
              found := true;
            }
          case References =>
            if Refers(ss[i]) {
              if Opt(ss[i], "src") == Some(was) {
                sections := SetOpt(sections, ss[i].sid, "src", Some(now));
              }
              if Opt(ss[i], "dest") == Some(was) {
                sections := SetOpt(sections, ss[i].sid, "dest", Some(now));
              }
            }
        }
      }
      RenameEnds(ss, pass, was, now, sections, found);
    }

    method RenameZone(was: string, now: string) returns (found: bool)
      requires DistinctSids(sections)
      modifies this
      ensures sections == AfterRenameZone(old(sections), was, now)
      ensures found <==> CanRename(old(sections), was, now)
    {
      if !IsName(now) || LookupZone(sections, now).Some? {
        return false;
      }
      found := RenamePass(ZoneNames, was, now);
      if found {
        var _ := RenamePass(References, was, now);
      } else {
        RenamesNothing(old(sections), was, now);
      }
    }

    /** `getForwardingsBy`, then the check for one that already leads there. */
    method Forward(src: Option<string>, dest: Option<string>, sid: string) returns (added: bool)
      modifies this
      ensures sections == AfterForward(old(sections), src, dest, sid)
      ensures added <==> src != dest && !Linked(old(sections), src, dest)
    {
      if src == dest {
        return false;
      }
      for i := 0 to |sections|
        invariant sections == old(sections)
        invariant !Linked(sections[..i], src, dest)
      {
        var s := sections[i];
        assert sections[..i + 1] == sections[..i] + [s];
        if Complete(s) && Opt(s, "src") == src && Opt(s, "dest") == dest {
          return false;
        }
      }
      assert sections[..|sections|] == sections;
      sections := sections + [Section(sid, "forwarding", Ends(src, dest))];
      added := true;
    }

    method AddForwardingTo(self: string, dest: string, sid: string) returns (added: bool)
      modifies this
      ensures sections == AfterForwardTo(old(sections), self, dest, sid)
      ensures var ss, z := old(sections), LookupZone(old(sections), dest);
              added <==>
                z.Some? && NameOf(ss, self) != NameOf(ss, z.value)
                && !Linked(ss, NameOf(ss, self), NameOf(ss, z.value))
    {
      var z := LookupZone(sections, dest);
      if z.None? {
        return false;
      }
      added := Forward(NameOf(sections, self), NameOf(sections, z.value), sid);
    }

    method AddForwardingFrom(self: string, src: string, sid: string) returns (added: bool)
      modifies this
      ensures sections == AfterForwardFrom(old(sections), self, src, sid)
      ensures var ss, z := old(sections), LookupZone(old(sections), src);
              added <==>
                z.Some? && NameOf(ss, z.value) != NameOf(ss, self)
                && !Linked(ss, NameOf(ss, z.value), NameOf(ss, self))
    {
      var z := LookupZone(sections, src);
      if z.None? {
        return false;
      }
      added := Forward(NameOf(sections, z.value), NameOf(sections, self), sid);
    }

    method DeleteForwardingsBy(self: string, what: string) returns (found: bool)
      requires DistinctSids(sections)
      modifies this
      ensures sections == AfterDeleteForwardingsBy(old(sections), self, what)
      ensures found <==> Any(old(sections), ForwardsBy(what, NameOf(old(sections), self)))
    {
      found := RemoveWhere(ForwardsBy(what, NameOf(sections, self)));
    }

    method DeleteForwarding(sid: string) returns (found: bool)
      modifies this
      ensures sections == AfterDeleteForwarding(old(sections), sid)
      ensures found <==> Find(old(sections), sid).Some? && IsForwarding(Find(old(sections), sid).value)
    {
      var s := Find(sections, sid);
      if s.None? || !IsForwarding(s.value) {
        return false;
      }
      sections := Reject(sections, HasSid(sid));
      found := true;
    }
  }

  lemma AnyNext(ss: seq<Section>, i: nat, c: Condition)
    requires i < |ss|
    ensures Any(ss[..i + 1], c) <==> Any(ss[..i], c) || Meets(ss[i], c)
  {
    assert ss[..i + 1] == ss[..i] + [ss[i]];
    assert ss[i] in ss[..i + 1];
    assert forall s :: s in ss[..i + 1] <==> s in ss[..i] || s == ss[i];
  }

  lemma RenamedSids(ss: seq<Section>, pass: Pass, was: string, now: string)
    ensures forall x :: x in AllRenamed(ss, pass, was, now) ==> exists y :: y in ss && y.sid == x.sid
  {
    var r := AllRenamed(ss, pass, was, now);
    forall x | x in r ensures exists y :: y in ss && y.sid == x.sid {
      var i :| 0 <= i < |r| && r[i] == x;
      assert ss[i] in ss && ss[i].sid == x.sid;
    }
  }

  lemma {:induction false} RenamesNothing(ss: seq<Section>, was: string, now: string)
    requires !Any(ss, ZoneNamed(was))
    ensures AllRenamed(ss, ZoneNames, was, now) == ss
  {
    var r := AllRenamed(ss, ZoneNames, was, now);
    forall i | 0 <= i < |ss| ensures r[i] == ss[i] {
      assert ss[i] in ss;
    }
  }
}
