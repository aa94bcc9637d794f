/** What each operation on zones and forwardings does, told from the kinds and options of the sections alone. */
module FirewallEffects {
  import opened Common
  import opened Firewall

  /** The option has that value, or is not there. */
  predicate Has(s: Section, opt: string, val: Option<string>) {
    if val.Some? then opt in s.opts && s.opts[opt] == val.value else opt !in s.opts
  }

  predicate Forwards(s: Section) {
    s.kind == "forwarding" && "src" in s.opts && "dest" in s.opts
  }

  predicate NamedZone(s: Section, name: string) {
    s.kind == "zone" && Has(s, "name", Some(name))
  }

  /** A rule, redirect or forwarding from or to a zone of that name. */
  predicate Mentions(s: Section, name: Option<string>) {
    && (s.kind == "rule" || s.kind == "redirect" || s.kind == "forwarding")
    && (Has(s, "src", name) || Has(s, "dest", name))
  }

  /** The sections to keep, in their order. */
  function Filter(ss: seq<Section>, keep: Section -> bool): seq<Section> {
    if ss == [] then []
    else Filter(ss[..|ss| - 1], keep) + if keep(ss[|ss| - 1]) then [ss[|ss| - 1]] else []
  }

  lemma {:induction false} RejectFilters(ss: seq<Section>, c: Condition, keep: Section -> bool)
    requires forall s :: s in ss ==> (keep(s) <==> !Meets(s, c))
    ensures Reject(ss, c) == Filter(ss, keep)
    decreases |ss|
  {
    hide Meets;
    if ss != [] {
      assert ss == ss[..|ss| - 1] + [ss[|ss| - 1]];
      RejectFilters(ss[..|ss| - 1], c, keep);
    }
  }

  lemma {:induction false} FilterTwice(ss: seq<Section>, c: Condition, d: Condition, keep: Section -> bool)
    requires forall s :: s in ss ==> (keep(s) <==> !Meets(s, c) && !Meets(s, d))
    ensures Reject(Reject(ss, c), d) == Filter(ss, keep)
    decreases |ss|
  {
    hide Meets;
    if ss != [] {
      var front, last := ss[..|ss| - 1], ss[|ss| - 1];
      assert ss == front + [last];
      FilterTwice(front, c, d, keep);
      RejectConcat(Reject(front, c), [last], d);
      assert [last][..0] == [] && Reject(front, c) + [] == Reject(front, c);
    }
  }

  // ----- looking up -----

  /** Names are made of letters, digits and underscores, at least one. */
  lemma NameCharacters(name: string)
    ensures IsName(name) <==>
              && name != ""
              && forall c :: c in name ==> 'a' <= c <= 'z' || 'A' <= c <= 'Z' || '0' <= c <= '9' || c == '_'
  {
    if IsName(name) {
      forall c | c in name ensures IsNameChar(c) {
        var i :| 0 <= i < |name| && name[i] == c;
      }
    }
    assert forall i :: 0 <= i < |name| ==> name[i] in name;
  }

  predicate FirstAt(ss: seq<Section>, name: string, i: nat) {
    i < |ss| && NamedZone(ss[i], name) && forall j :: 0 <= j < i ==> !NamedZone(ss[j], name)
  }

  /** A zone section of that identifier comes first, then the first zone of that name. */
  lemma LooksUp(ss: seq<Section>, name: string)
    requires DistinctSids(ss)
    ensures (exists s :: s in ss && s.sid == name && s.kind == "zone") ==> LookupZone(ss, name) == Some(name)
    ensures (forall s :: s in ss && s.sid == name ==> s.kind != "zone") ==>
              && (LookupZone(ss, name).None? <==> forall s :: s in ss ==> !NamedZone(s, name))
              && forall i: nat :: FirstAt(ss, name, i) ==> LookupZone(ss, name) == Some(ss[i].sid)
  {
    forall s | s in ss && s.sid == name ensures Find(ss, name) == Some(s) {
      FoundBySid(ss, s);
    }
    NamedFirst(ss, name);
    hide Find;
    hide FirstNamed;
    hide NamedZone;
    hide DistinctSids;
  }

  lemma FoundBySid(ss: seq<Section>, s: Section)
    requires DistinctSids(ss) && s in ss
    ensures Find(ss, s.sid) == Some(s)
  {
    hide Find;
    var z := Find(ss, s.sid);
  }

  lemma {:induction false} NamedFirst(ss: seq<Section>, name: string)
    ensures FirstNamed(ss, name).None? <==> forall s :: s in ss ==> !NamedZone(s, name)
    ensures forall i: nat :: FirstAt(ss, name, i) ==> FirstNamed(ss, name) == Some(ss[i].sid)
    decreases |ss|
  {
    if ss != [] {
      NamedFirst(ss[1..], name);
      assert Meets(ss[0], ZoneNamed(name)) <==> NamedZone(ss[0], name);
      hide NamedZone;
      hide Meets;
      assert ss == [ss[0]] + ss[1..];
      forall i: nat | FirstAt(ss, name, i) ensures FirstNamed(ss, name) == Some(ss[i].sid) {
        if i > 0 {
          assert !NamedZone(ss[0], name);
          assert FirstAt(ss[1..], name, i - 1);
        }
      }
    }
  }

  function NameIn(s: Section): Option<string> {
    if "name" in s.opts then Some(s.opts["name"]) else None
  }

  // ----- deleting -----

  lemma Mentioned(s: Section, name: Option<string>)
    ensures Meets(s, RefersTo(name)) <==> Mentions(s, name)
  {
  }

  lemma SaysNamed(s: Section, name: string)
    ensures Meets(s, ZoneNamed(name)) <==> NamedZone(s, name)
  {
  }

  /** What stays when the zone `z` is deleted. */
  function WithoutZone(z: Section): Section -> bool {
    (s: Section) => s.sid != z.sid && !Mentions(s, NameIn(z))
  }

  /** What stays when all zones of a name are. */
  function WithoutName(name: string): Section -> bool {
    (s: Section) => !NamedZone(s, name) && !Mentions(s, Some(name))
  }

  /** What stays when the forwardings are deleted that have the zone's name at one end. */
  function WithoutEnd(z: Section, what: string): Section -> bool {
    (s: Section) => !(Forwards(s) && Has(s, what, NameIn(z)))
  }

  function WithoutSid(sid: string): Section -> bool {
    (s: Section) => s.sid != sid
  }

  /** A zone deleted by its identifier goes, and with it whatever mentions its name; nothing else does. */
  lemma DeletesBySid(ss: seq<Section>, z: Section)
    requires DistinctSids(ss) && z in ss && z.kind == "zone"
    ensures AfterDeleteZone(ss, z.sid) == Filter(ss, WithoutZone(z))
  {
    FoundBySid(ss, z);
    var c := HasSid(z.sid);
    assert Any(ss, c) by {
      assert Meets(z, c);
    }
    forall s | s in ss ensures Meets(s, RefersTo(NameIn(z))) <==> Mentions(s, NameIn(z)) {
      Mentioned(s, NameIn(z));
    }
    FilterTwice(ss, c, RefersTo(NameIn(z)), WithoutZone(z));
    hide Mentions;
    hide Reject;
    hide Filter;
    hide Find;
  }

  /** By its name, if no zone has that identifier: all zones of that name go, and whatever mentions it. */
  lemma DeletesByName(ss: seq<Section>, name: string)
    requires forall s :: s in ss && s.sid == name ==> s.kind != "zone"
    ensures AfterDeleteZone(ss, name) ==
            if exists s :: s in ss && NamedZone(s, name) then
              Filter(ss, WithoutName(name))
            else ss
  {
    var c := ZoneNamed(name);
    forall s: Section
      ensures Meets(s, c) <==> NamedZone(s, name)
      ensures Meets(s, RefersTo(Some(name))) <==> Mentions(s, Some(name))
    {
      Mentioned(s, Some(name));
      SaysNamed(s, name);
    }
    FilterTwice(ss, c, RefersTo(Some(name)), WithoutName(name));
    hide Mentions;
    hide NamedZone;
    hide Meets;
    hide Reject;
    hide Filter;
    hide Find;
  }

  lemma ForwardsAt(s: Section, what: string, name: Option<string>)
    ensures Meets(s, ForwardsBy(what, name)) <==> Forwards(s) && Has(s, what, name)
  {
  }

  /** The forwardings with both ends that have the zone's own name at that end. */
  lemma DeletesForwardings(ss: seq<Section>, z: Section, what: string)
    requires DistinctSids(ss) && z in ss
    ensures AfterDeleteForwardingsBy(ss, z.sid, what) == Filter(ss, WithoutEnd(z, what))
  {
    FoundBySid(ss, z);
    var c := ForwardsBy(what, NameIn(z));
    forall s: Section ensures Meets(s, c) <==> Forwards(s) && Has(s, what, NameIn(z)) {
      ForwardsAt(s, what, NameIn(z));
    }
    hide Meets;
    hide Forwards;
    hide Has;
    RejectFilters(ss, c, WithoutEnd(z, what));
    hide Reject;
    hide Filter;
    hide Find;
  }

  lemma DeletesOne(ss: seq<Section>, s: Section)
    requires DistinctSids(ss) && s in ss
    ensures AfterDeleteForwarding(ss, s.sid) == if s.kind == "forwarding" then Filter(ss, WithoutSid(s.sid)) else ss
  {
    FoundBySid(ss, s);
    RejectFilters(ss, HasSid(s.sid), WithoutSid(s.sid));
    hide Reject;
    hide Filter;
    hide Find;
  }

  // ----- renaming -----

  /** Where a zone is named: in the zone itself, and at the ends of rules, redirects and forwardings. */
  predicate NamesZone(kind: string, opt: string) {
    || (kind == "zone" && opt == "name")
    || ((kind == "rule" || kind == "redirect" || kind == "forwarding") && (opt == "src" || opt == "dest"))
  }

  ghost predicate RenamedIn(s: Section, r: Section, was: string, now: string) {
    && r.sid == s.sid && r.kind == s.kind && r.opts.Keys == s.opts.Keys
    && forall opt :: opt in s.opts ==>
         r.opts[opt] == if NamesZone(s.kind, opt) && s.opts[opt] == was then now else s.opts[opt]
  }

  lemma RenamesIn(s: Section, was: string, now: string)
    ensures RenamedIn(s, Renamed(Renamed(s, ZoneNames, was, now), References, was, now), was, now)
  {
    var one := Renamed(s, ZoneNames, was, now);
    var two := Renamed(one, References, was, now);
    assert one.opts.Keys == s.opts.Keys;
    assert two.opts.Keys == one.opts.Keys;
  }

  /** The new name stands exactly where the old one did, if it may be taken; otherwise nothing changes. */
  lemma RenamesExactly(ss: seq<Section>, was: string, now: string)
    ensures var r := AfterRenameZone(ss, was, now);
            if IsName(now) && LookupZone(ss, now).None? && exists s :: s in ss && NamedZone(s, was) then
              |r| == |ss| && forall i :: 0 <= i < |ss| ==> RenamedIn(ss[i], r[i], was, now)
            else r == ss
  {
    forall s: Section ensures Meets(s, ZoneNamed(was)) <==> NamedZone(s, was) {
      SaysNamed(s, was);
    }
    hide Meets;
    hide NamedZone;
    hide AllRenamed;
    hide Renamed;
    hide RenamedIn;
    hide LookupZone;
    hide IsName;
    var one := AllRenamed(ss, ZoneNames, was, now);
    forall i | 0 <= i < |ss|
      ensures RenamedIn(ss[i], AllRenamed(one, References, was, now)[i], was, now)
    {
      RenamesIn(ss[i], was, now);
    }
  }

  // ----- adding -----

  /** A new forwarding from one name to another, unless they are the same or one leads there already. */
  ghost predicate ForwardedFrom(ss: seq<Section>, src: Option<string>, dest: Option<string>, sid: string,
                                r: seq<Section>) {
    if src == dest || exists s :: s in ss && Forwards(s) && Has(s, "src", src) && Has(s, "dest", dest) then r == ss
    else
      exists s :: r == ss + [s] && s.sid == sid && s.kind == "forwarding" && s.opts.Keys <= {"src", "dest"}
                  && Has(s, "src", src) && Has(s, "dest", dest)
  }

  lemma ForwardsFrom(ss: seq<Section>, src: Option<string>, dest: Option<string>, sid: string)
    ensures ForwardedFrom(ss, src, dest, sid, AfterForward(ss, src, dest, sid))
  {
    forall s: Section
      ensures Complete(s) && Opt(s, "src") == src && Opt(s, "dest") == dest <==>
                Forwards(s) && Has(s, "src", src) && Has(s, "dest", dest)
    {
    }
    var s := Section(sid, "forwarding", Ends(src, dest));
    assert Has(s, "src", src) && Has(s, "dest", dest) && s.opts.Keys <= {"src", "dest"};
    hide Complete;
    hide Forwards;
    hide Has;
    hide Ends;
  }

  /** From the zone to the other one, or from the other one to the zone. */
  lemma ForwardsBetween(ss: seq<Section>, self: Section, other: string, z: Section, sid: string)
    requires DistinctSids(ss) && self in ss && z in ss && LookupZone(ss, other) == Some(z.sid)
    ensures ForwardedFrom(ss, NameIn(self), NameIn(z), sid, AfterForwardTo(ss, self.sid, other, sid))
    ensures ForwardedFrom(ss, NameIn(z), NameIn(self), sid, AfterForwardFrom(ss, self.sid, other, sid))
  {
    FoundBySid(ss, self);
    FoundBySid(ss, z);
    ForwardsFrom(ss, NameIn(self), NameIn(z), sid);
    ForwardsFrom(ss, NameIn(z), NameIn(self), sid);
    hide ForwardedFrom;
    hide AfterForward;
    hide LookupZone;
    hide Find;
  }
}
