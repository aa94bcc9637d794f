/** What every run of zone and forwarding operations keeps. */
module FirewallRuns {
  import opened Common
  import opened Firewall

  /** Zones with a name are known by it. */
  ghost predicate ZonesDistinct(ss: seq<Section>) {
    forall s, t :: s in ss && t in ss && IsZone(s) && IsZone(t) && Opt(s, "name").Some?
      && Opt(s, "name") == Opt(t, "name")
      ==> s.sid == t.sid
  }

  predicate EndExists(ss: seq<Section>, name: Option<string>) {
    name.Some? ==> Any(ss, ZoneNamed(name.value))
  }

  /** A forwarding only names zones that exist. */
  ghost predicate Referenced(ss: seq<Section>) {
    forall s :: s in ss && IsForwarding(s) ==> EndExists(ss, Opt(s, "src")) && EndExists(ss, Opt(s, "dest"))
  }

  predicate SameEnds(s: Section, t: Section) {
    Opt(s, "src") == Opt(t, "src") && Opt(s, "dest") == Opt(t, "dest")
  }

  /** A forwarding leads from one zone to another one, and no second one does. */
  ghost predicate Single(ss: seq<Section>) {
    && (forall s :: s in ss && Complete(s) ==> Opt(s, "src") != Opt(s, "dest"))
    && (forall s, t :: s in ss && t in ss && Complete(s) && Complete(t) && SameEnds(s, t) ==> s.sid == t.sid)
  }

  ghost predicate Sound(ss: seq<Section>) {
    DistinctSids(ss) && ZonesDistinct(ss) && Referenced(ss) && Single(ss)
  }

  predicate Unused(ss: seq<Section>, sid: string) {
    forall s :: s in ss ==> s.sid != sid
  }

  // ----- adding -----

  lemma AppendDistinct(ss: seq<Section>, s: Section)
    requires DistinctSids(ss) && Unused(ss, s.sid)
    ensures DistinctSids(ss + [s])
  {
    forall i | 0 <= i < |ss| ensures ss[i].sid != s.sid {
      assert ss[i] in ss;
    }
  }

  lemma AppendKeepsEnds(ss: seq<Section>, s: Section, name: Option<string>)
    requires EndExists(ss, name)
    ensures EndExists(ss + [s], name)
  {
    if name.Some? {
      var z :| z in ss && Meets(z, ZoneNamed(name.value));
      assert z in ss + [s];
    }
  }

  lemma AppendSound(ss: seq<Section>, s: Section)
    requires Sound(ss) && Unused(ss, s.sid)
    requires IsZone(s) && Opt(s, "name").Some? ==> !Any(ss, ZoneNamed(Opt(s, "name").value))
    requires IsForwarding(s) ==> EndExists(ss, Opt(s, "src")) && EndExists(ss, Opt(s, "dest"))
    requires Complete(s) ==> Opt(s, "src") != Opt(s, "dest") && !Linked(ss, Opt(s, "src"), Opt(s, "dest"))
    ensures Sound(ss + [s])
  {
    AppendDistinct(ss, s);
    var ss' := ss + [s];
    assert forall x :: x in ss' <==> x in ss || x == s;
    assert ZonesDistinct(ss') by {
      hide Single;
      hide Referenced;
      assert forall z :: z in ss && IsZone(z) && IsZone(s) && Opt(s, "name").Some? ==> Opt(z, "name") != Opt(s, "name");
    }
    assert Referenced(ss') by {
      hide Single;
      hide ZonesDistinct;
      forall x | x in ss' && IsForwarding(x) ensures EndExists(ss', Opt(x, "src")) && EndExists(ss', Opt(x, "dest")) {
        AppendKeepsEnds(ss, s, Opt(x, "src"));
        AppendKeepsEnds(ss, s, Opt(x, "dest"));
      }
    }
    assert Single(ss') by {
      hide Referenced;
      hide ZonesDistinct;
      assert forall x :: x in ss && Complete(x) && Complete(s) ==>
               Opt(x, "src") != Opt(s, "src") || Opt(x, "dest") != Opt(s, "dest");
    }
  }

  lemma AddZoneSound(ss: seq<Section>, name: string, defaultsSid: string, sid: string, policies: map<string, string>)
    requires Sound(ss) && Unused(ss, defaultsSid) && Unused(ss, sid) && sid != defaultsSid
    ensures Sound(AfterAddZone(ss, name, defaultsSid, sid, policies))
  {
    if IsName(name) && LookupZone(ss, name).None? {
      var ss', d, z := WithDefaults(ss, defaultsSid), Section(defaultsSid, "defaults", map[]),
                       Section(sid, "zone", policies["name" := name]);
      AppendSound(ss, d);
      assert forall s :: s in ss' ==> s in ss || s == d;
      AppendSound(ss', z);
    }
  }

  lemma NameExists(ss: seq<Section>, sid: string)
    requires Find(ss, sid).Some? ==> IsZone(Find(ss, sid).value)
    ensures EndExists(ss, NameOf(ss, sid))
  {
  }

  lemma FoundIsZone(ss: seq<Section>, name: string)
    requires DistinctSids(ss) && LookupZone(ss, name).Some?
    ensures var z := Find(ss, LookupZone(ss, name).value); z.Some? && IsZone(z.value)
  {
    var z := Find(ss, name);
    if z.None? || !IsZone(z.value) {
      var s :| s in ss && Meets(s, ZoneNamed(name)) && s.sid == FirstNamed(ss, name).value;
      SameSid(ss, s, Find(ss, s.sid).value);
    }
  }

  lemma SameSid(ss: seq<Section>, s: Section, t: Section)
    requires DistinctSids(ss) && s in ss && t in ss && s.sid == t.sid
    ensures s == t
  {
  }

  lemma ForwardSound(ss: seq<Section>, src: Option<string>, dest: Option<string>, sid: string)
    requires Sound(ss) && Unused(ss, sid) && EndExists(ss, src) && EndExists(ss, dest)
    ensures Sound(AfterForward(ss, src, dest, sid))
  {
    if src != dest && !Linked(ss, src, dest) {
      AppendSound(ss, Section(sid, "forwarding", Ends(src, dest)));
    }
  }

  // ----- removing -----

  /** Removing what is no zone, or a zone with all that refers to it, keeps the rest sound. */
  lemma RejectSound(ss: seq<Section>, r: seq<Section>)
    requires Sound(ss) && DistinctSids(r) && forall s :: s in r ==> s in ss
    requires forall s, z :: s in r && IsForwarding(s) && z in ss && z !in r && IsZone(z) && Opt(z, "name").Some? ==>
      Opt(s, "src") != Opt(z, "name") && Opt(s, "dest") != Opt(z, "name")
    ensures Sound(r)
  {
    forall s | s in r && IsForwarding(s) ensures EndExists(r, Opt(s, "src")) && EndExists(r, Opt(s, "dest")) {
      EndStays(ss, r, s, Opt(s, "src"));
      EndStays(ss, r, s, Opt(s, "dest"));
    }
  }

  lemma EndStays(ss: seq<Section>, r: seq<Section>, s: Section, name: Option<string>)
    requires EndExists(ss, name) && (name == Opt(s, "src") || name == Opt(s, "dest"))
    requires forall z :: z in ss && z !in r && IsZone(z) && Opt(z, "name").Some? ==>
      Opt(s, "src") != Opt(z, "name") && Opt(s, "dest") != Opt(z, "name")
    ensures EndExists(r, name)
  {
    if name.Some? {
      var z :| z in ss && Meets(z, ZoneNamed(name.value));
      assert z in r;
    }
  }

  lemma DeleteZoneSound(ss: seq<Section>, name: string)
    requires Sound(ss)
    ensures Sound(AfterDeleteZone(ss, name))
  {
    var t := TargetOf(ss, name);
    if Any(ss, t.zones) {
      var r := Reject(Reject(ss, t.zones), RefersTo(t.name));
      RejectKeepsDistinct(ss, t.zones);
      RejectKeepsDistinct(Reject(ss, t.zones), RefersTo(t.name));
      forall s, z | s in r && IsForwarding(s) && z in ss && z !in r && IsZone(z) && Opt(z, "name").Some?
        ensures Opt(s, "src") != Opt(z, "name") && Opt(s, "dest") != Opt(z, "name")
      {
        TargetNamed(ss, name, z);
      }
      RejectSound(ss, r);
    }
  }

  /** A zone `deleteZone` removes has the name it clears. */
  lemma TargetNamed(ss: seq<Section>, name: string, z: Section)
    requires DistinctSids(ss) && z in ss && IsZone(z) && Meets(z, TargetOf(ss, name).zones)
    ensures Opt(z, "name") == TargetOf(ss, name).name
  {
    var f := Find(ss, name);
    if f.Some? && IsZone(f.value) {
      SameSid(ss, z, f.value);
    }
  }

  lemma RejectOthersSound(ss: seq<Section>, c: Condition)
    requires Sound(ss) && forall s :: s in ss && Meets(s, c) ==> !IsZone(s)
    ensures Sound(Reject(ss, c))
  {
    RejectKeepsDistinct(ss, c);
    RejectSound(ss, Reject(ss, c));
  }

  lemma DeleteForwardingSound(ss: seq<Section>, sid: string)
    requires Sound(ss)
    ensures Sound(AfterDeleteForwarding(ss, sid))
  {
    var f := Find(ss, sid);
    if f.Some? && IsForwarding(f.value) {
      forall s | s in ss && Meets(s, HasSid(sid)) ensures !IsZone(s) {
        SameSid(ss, s, f.value);
      }
      RejectOthersSound(ss, HasSid(sid));
    }
  }

  // ----- renaming -----

  function Both(s: Section, was: string, now: string): Section {
    Renamed(Renamed(s, ZoneNames, was, now), References, was, now)
  }

  function NewName(name: Option<string>, was: string, now: string): Option<string> {
    if name == Some(was) then Some(now) else name
  }

  lemma BothOpts(s: Section, was: string, now: string)
    ensures var r := Both(s, was, now);
            && r.sid == s.sid && r.kind == s.kind
            && Opt(r, "name") == (if IsZone(s) then NewName(Opt(s, "name"), was, now) else Opt(s, "name"))
            && Opt(r, "src") == (if Refers(s) then NewName(Opt(s, "src"), was, now) else Opt(s, "src"))
            && Opt(r, "dest") == (if Refers(s) then NewName(Opt(s, "dest"), was, now) else Opt(s, "dest"))
            && forall o :: o != "name" && o != "src" && o != "dest" ==> Opt(r, o) == Opt(s, o)
  {
  }

  function AllBoth(ss: seq<Section>, was: string, now: string): (r: seq<Section>)
    ensures |r| == |ss| && forall i :: 0 <= i < |ss| ==> r[i] == Both(ss[i], was, now)
  {
    AllRenamed(AllRenamed(ss, ZoneNames, was, now), References, was, now)
  }

  lemma BothOf(ss: seq<Section>, was: string, now: string, r: Section) returns (s: Section)
    requires r in AllBoth(ss, was, now)
    ensures s in ss && r == Both(s, was, now)
  {
    var i :| 0 <= i < |ss| && AllBoth(ss, was, now)[i] == r;
    s := ss[i];
  }

  lemma BothIn(ss: seq<Section>, was: string, now: string, s: Section)
    requires s in ss
    ensures Both(s, was, now) in AllBoth(ss, was, now)
  {
    var i :| 0 <= i < |ss| && ss[i] == s;
    assert AllBoth(ss, was, now)[i] == Both(s, was, now);
  }

  lemma EndRenamed(ss: seq<Section>, was: string, now: string, name: Option<string>)
    requires EndExists(ss, name)
    ensures EndExists(AllBoth(ss, was, now), NewName(name, was, now))
  {
    if name.Some? {
      var z :| z in ss && Meets(z, ZoneNamed(name.value));
      BothIn(ss, was, now, z);
      BothOpts(z, was, now);
    }
  }

  /** No zone had the new name, so names that exist stay apart. */
  lemma NamesApart(ss: seq<Section>, was: string, now: string, a: Option<string>, b: Option<string>)
    requires !Any(ss, ZoneNamed(now)) && EndExists(ss, a) && EndExists(ss, b)
    ensures NewName(a, was, now) == NewName(b, was, now) ==> a == b
  {
  }

  lemma RenameSound(ss: seq<Section>, was: string, now: string)
    requires Sound(ss) && !Any(ss, ZoneNamed(now))
    ensures Sound(AllBoth(ss, was, now))
  {
    var r := AllBoth(ss, was, now);
    forall x, y | x in r && y in r ensures PairSound(x, y) {
      var s := BothOf(ss, was, now, x);
      var t := BothOf(ss, was, now, y);
      BothOpts(s, was, now);
      BothOpts(t, was, now);
      PairRenamed(ss, was, now, s, t);
    }
    forall x | x in r && IsForwarding(x) ensures EndExists(r, Opt(x, "src")) && EndExists(r, Opt(x, "dest")) {
      var s := BothOf(ss, was, now, x);
      BothOpts(s, was, now);
      EndRenamed(ss, was, now, Opt(s, "src"));
      EndRenamed(ss, was, now, Opt(s, "dest"));
    }
    PairsSound(r);
  }

  ghost predicate PairSound(x: Section, y: Section) {
    && (IsZone(x) && IsZone(y) && Opt(x, "name").Some? && Opt(x, "name") == Opt(y, "name") ==> x.sid == y.sid)
    && (Complete(x) ==> Opt(x, "src") != Opt(x, "dest"))
    && (Complete(x) && Complete(y) && SameEnds(x, y) ==> x.sid == y.sid)
  }

  lemma PairsSound(r: seq<Section>)
    requires forall x, y :: x in r && y in r ==> PairSound(x, y)
    ensures ZonesDistinct(r) && Single(r)
  {
    forall x | x in r && Complete(x) ensures Opt(x, "src") != Opt(x, "dest") {
      assert PairSound(x, x);
    }
  }

  lemma PairRenamed(ss: seq<Section>, was: string, now: string, s: Section, t: Section)
    requires Sound(ss) && !Any(ss, ZoneNamed(now)) && s in ss && t in ss
    ensures PairSound(Both(s, was, now), Both(t, was, now))
  {
    hide Both;
    BothOpts(s, was, now);
    BothOpts(t, was, now);
    if IsZone(s) && IsZone(t) {
      ZoneNameExists(ss, s);
      ZoneNameExists(ss, t);
      NamesApart(ss, was, now, Opt(s, "name"), Opt(t, "name"));
    }
    if Complete(s) {
      NamesApart(ss, was, now, Opt(s, "src"), Opt(s, "dest"));
      if Complete(t) {
        NamesApart(ss, was, now, Opt(s, "src"), Opt(t, "src"));
        NamesApart(ss, was, now, Opt(s, "dest"), Opt(t, "dest"));
      }
    }
  }

  lemma ZoneNameExists(ss: seq<Section>, z: Section)
    requires z in ss && IsZone(z)
    ensures EndExists(ss, Opt(z, "name"))
  {
  }

  // ----- runs -----

  datatype Op =
    | AddZone(name: string, defaultsSid: string, sid: string, policies: map<string, string>)
    | DeleteZone(name: string)
    | RenameZone(was: string, now: string)
    | AddForwardingTo(self: string, other: string, sid: string)
    | AddForwardingFrom(self: string, other: string, sid: string)
    | DeleteForwardingsBy(self: string, what: string)
    | DeleteForwarding(sid: string)

  function Step(ss: seq<Section>, op: Op): seq<Section> {
    match op
    case AddZone(name, defaultsSid, sid, policies) => AfterAddZone(ss, name, defaultsSid, sid, policies)
    case DeleteZone(name) => AfterDeleteZone(ss, name)
    case RenameZone(was, now) => AfterRenameZone(ss, was, now)
    case AddForwardingTo(self, other, sid) => AfterForwardTo(ss, self, other, sid)
    case AddForwardingFrom(self, other, sid) => AfterForwardFrom(ss, self, other, sid)
    case DeleteForwardingsBy(self, what) => AfterDeleteForwardingsBy(ss, self, what)
    case DeleteForwarding(sid) => AfterDeleteForwarding(ss, sid)
  }

  /** A zone object stands for a zone section, or for one that is gone. */
  predicate Handle(ss: seq<Section>, self: string) {
    Find(ss, self).Some? ==> IsZone(Find(ss, self).value)
  }

  /** New identifiers are unused, as `createSID` makes them. */
  predicate Allowed(ss: seq<Section>, op: Op) {
    match op
    case AddZone(_, defaultsSid, sid, _) => Unused(ss, defaultsSid) && Unused(ss, sid) && sid != defaultsSid
    case AddForwardingTo(self, _, sid) => Handle(ss, self) && Unused(ss, sid)
    case AddForwardingFrom(self, _, sid) => Handle(ss, self) && Unused(ss, sid)
    case _ => true
  }

  function Run(ss: seq<Section>, ops: seq<Op>): seq<Section>
    decreases |ops|
  {
    if ops == [] then ss else Run(Step(ss, ops[0]), ops[1..])
  }

  predicate AllAllowed(ss: seq<Section>, ops: seq<Op>)
    decreases |ops|
  {
    ops == [] || (Allowed(ss, ops[0]) && AllAllowed(Step(ss, ops[0]), ops[1..]))
  }

  lemma StepSound(ss: seq<Section>, op: Op)
    requires Sound(ss) && Allowed(ss, op)
    ensures Sound(Step(ss, op))
  {
    match op
    case AddZone(name, defaultsSid, sid, policies) => AddZoneSound(ss, name, defaultsSid, sid, policies);
    case DeleteZone(name) => DeleteZoneSound(ss, name);
    case RenameZone(was, now) => if CanRename(ss, was, now) { RenameSound(ss, was, now); }
    case AddForwardingTo(self, other, sid) => ForwardBetweenSound(ss, self, other, sid);
    case AddForwardingFrom(self, other, sid) => ForwardBetweenSound(ss, self, other, sid);
    case DeleteForwardingsBy(self, what) => RejectOthersSound(ss, ForwardsBy(what, NameOf(ss, self)));
    case DeleteForwarding(sid) => DeleteForwardingSound(ss, sid);
  }

  lemma ForwardBetweenSound(ss: seq<Section>, self: string, other: string, sid: string)
    requires Sound(ss) && Handle(ss, self) && Unused(ss, sid)
    ensures Sound(AfterForwardTo(ss, self, other, sid)) && Sound(AfterForwardFrom(ss, self, other, sid))
  {
    var z := LookupZone(ss, other);
    if z.Some? {
      FoundIsZone(ss, other);
      NameExists(ss, self);
      NameExists(ss, z.value);
      hide Sound;
      hide Find;
      ForwardSound(ss, NameOf(ss, self), NameOf(ss, z.value), sid);
      ForwardSound(ss, NameOf(ss, z.value), NameOf(ss, self), sid);
    }
  }

  /** Over any run: zone names stay distinct, forwardings join existing, different zones, each pair once. */
  lemma {:induction false} RunSound(ss: seq<Section>, ops: seq<Op>)
    requires Sound(ss) && AllAllowed(ss, ops)
    ensures Sound(Run(ss, ops))
    decreases |ops|
  {
    if ops != [] {
      StepSound(ss, ops[0]);
      hide Sound;
      hide Step;
      hide Allowed;
      RunSound(Step(ss, ops[0]), ops[1..]);
    }
  }

  // ----- runs in which every zone object is live -----

  /** Every zone has a name and every forwarding both ends. */
  ghost predicate Whole(ss: seq<Section>) {
    && (forall s :: s in ss && IsZone(s) ==> Opt(s, "name").Some?)
    && forall s :: s in ss && IsForwarding(s) ==> Complete(s)
  }

  /**
   * Zones have names, all different; every forwarding has two ends, which name existing, different
   * zones; no two forwardings share both ends.
   */
  ghost predicate FullySound(ss: seq<Section>) {
    Sound(ss) && Whole(ss)
  }

  /** A forwarding is asked for by the object of a zone that is gone. */
  predicate Stale(ss: seq<Section>, op: Op) {
    match op
    case AddForwardingTo(self, other, _) => Find(ss, self).None? && LookupZone(ss, other).Some?
    case AddForwardingFrom(self, other, _) => Find(ss, self).None? && LookupZone(ss, other).Some?
    case _ => false
  }

  predicate NeverStale(ss: seq<Section>, ops: seq<Op>)
    decreases |ops|
  {
    ops == [] || (!Stale(ss, ops[0]) && NeverStale(Step(ss, ops[0]), ops[1..]))
  }

  lemma AppendWhole(ss: seq<Section>, s: Section)
    ensures Whole(ss + [s]) <==> Whole(ss) && (IsZone(s) ==> Opt(s, "name").Some?) && (IsForwarding(s) ==> Complete(s))
  {
    var r := ss + [s];
    assert forall x :: x in r <==> x in ss || x == s;
  }

  lemma AddZoneWhole(ss: seq<Section>, name: string, defaultsSid: string, sid: string, policies: map<string, string>)
    requires Whole(ss)
    ensures Whole(AfterAddZone(ss, name, defaultsSid, sid, policies))
  {
    var d, z := Section(defaultsSid, "defaults", map[]), Section(sid, "zone", policies["name" := name]);
    AppendWhole(ss, d);
    AppendWhole(WithDefaults(ss, defaultsSid), z);
    hide Whole;
    hide LookupZone;
  }

  lemma RejectWhole(ss: seq<Section>, c: Condition)
    requires Whole(ss)
    ensures Whole(Reject(ss, c))
  {
    hide Meets;
  }

  lemma RenameWhole(ss: seq<Section>, was: string, now: string)
    requires Whole(ss)
    ensures Whole(AllBoth(ss, was, now))
  {
    hide Both;
    var r := AllBoth(ss, was, now);
    forall x | x in r ensures (IsZone(x) ==> Opt(x, "name").Some?) && (IsForwarding(x) ==> Complete(x)) {
      var s := BothOf(ss, was, now, x);
      BothOpts(s, was, now);
    }
  }

  /** The forwarding that is added has both ends exactly if both zones have a name. */
  lemma ForwardWhole(ss: seq<Section>, src: Option<string>, dest: Option<string>, sid: string)
    requires Whole(ss)
    ensures Whole(AfterForward(ss, src, dest, sid)) <==>
            src == dest || Linked(ss, src, dest) || (src.Some? && dest.Some?)
  {
    AppendWhole(ss, Section(sid, "forwarding", Ends(src, dest)));
    hide Whole;
    hide Linked;
  }

  lemma NotLinked(ss: seq<Section>, src: Option<string>, dest: Option<string>)
    requires src.None? || dest.None?
    ensures !Linked(ss, src, dest)
  {
  }

  lemma ForwardBetweenWhole(ss: seq<Section>, self: string, other: string, sid: string)
    requires FullySound(ss) && Handle(ss, self)
    ensures var stale := Find(ss, self).None? && LookupZone(ss, other).Some?;
            && (Whole(AfterForwardTo(ss, self, other, sid)) <==> !stale)
            && (Whole(AfterForwardFrom(ss, self, other, sid)) <==> !stale)
  {
    var z := LookupZone(ss, other);
    if z.Some? {
      FoundIsZone(ss, other);
      var a, b := NameOf(ss, self), NameOf(ss, z.value);
      assert b.Some? && (a.Some? <==> Find(ss, self).Some?);
      hide Whole;
      hide Sound;
      hide Find;
      hide LookupZone;
      ForwardWhole(ss, a, b, sid);
      ForwardWhole(ss, b, a, sid);
      if a.None? {
        NotLinked(ss, a, b);
        NotLinked(ss, b, a);
      }
      hide AfterForward;
    }
  }

  /** One operation breaks this, and only with the object of a zone that is gone. */
  lemma StepFullySound(ss: seq<Section>, op: Op)
    requires FullySound(ss) && Allowed(ss, op)
    ensures FullySound(Step(ss, op)) <==> !Stale(ss, op)
  {
    StepSound(ss, op);
    hide Sound;
    match op
    case AddZone(name, defaultsSid, sid, policies) => AddZoneWhole(ss, name, defaultsSid, sid, policies);
    case DeleteZone(name) =>
      var t := TargetOf(ss, name);
      RejectWhole(ss, t.zones);
      RejectWhole(Reject(ss, t.zones), RefersTo(t.name));
    case RenameZone(was, now) => RenameWhole(ss, was, now);
    case AddForwardingTo(self, other, sid) => ForwardBetweenWhole(ss, self, other, sid);
    case AddForwardingFrom(self, other, sid) => ForwardBetweenWhole(ss, self, other, sid);
    case DeleteForwardingsBy(self, what) => RejectWhole(ss, ForwardsBy(what, NameOf(ss, self)));
    case DeleteForwarding(sid) => RejectWhole(ss, HasSid(sid));
  }

  /** Over every run without such a call. */
  lemma {:induction false} RunFullySound(ss: seq<Section>, ops: seq<Op>)
    requires FullySound(ss) && AllAllowed(ss, ops) && NeverStale(ss, ops)
    ensures FullySound(Run(ss, ops))
    decreases |ops|
  {
    if ops != [] {
      StepFullySound(ss, ops[0]);
      hide FullySound;
      hide Step;
      hide Allowed;
      hide Stale;
      RunFullySound(Step(ss, ops[0]), ops[1..]);
    }
  }

  /** Asked twice, the object of a zone that is gone adds the same forwarding twice, without a source. */
  lemma StaleTwice(ss: seq<Section>, gone: string, other: string, sid: string, sid': string)
    requires FullySound(ss) && Find(ss, gone).None? && LookupZone(ss, other).Some?
    requires Unused(ss, sid) && Unused(ss, sid') && sid != sid' && sid != gone
    ensures var dest := NameOf(ss, LookupZone(ss, other).value);
            && dest.Some?
            && Run(ss, [AddForwardingTo(gone, other, sid), AddForwardingTo(gone, other, sid')]) ==
               ss + [Section(sid, "forwarding", Ends(None, dest))] + [Section(sid', "forwarding", Ends(None, dest))]
            && AllAllowed(ss, [AddForwardingTo(gone, other, sid), AddForwardingTo(gone, other, sid')])
  {
    var dest := NameOf(ss, LookupZone(ss, other).value);
    var s := Section(sid, "forwarding", Ends(None, dest));
    var one, two := AddForwardingTo(gone, other, sid), AddForwardingTo(gone, other, sid');
    hide *;
    StaleOnce(ss, gone, other, sid);
    StaleOnce(ss + [s], gone, other, sid');
    UnusedNow(ss, s, sid');
    TwoSteps(ss, one, two);
  }

  /** What one such call adds, and that the next one finds everything as it was. */
  lemma StaleOnce(ss: seq<Section>, gone: string, other: string, sid: string)
    requires DistinctSids(ss) && Find(ss, gone).None? && LookupZone(ss, other).Some? && Unused(ss, sid)
    requires NameOf(ss, LookupZone(ss, other).value).Some?
    ensures var dest := NameOf(ss, LookupZone(ss, other).value);
            var ss' := ss + [Section(sid, "forwarding", Ends(None, dest))];
            && Step(ss, AddForwardingTo(gone, other, sid)) == ss' && Allowed(ss, AddForwardingTo(gone, other, sid))
            && DistinctSids(ss') && (sid != gone ==> Find(ss', gone).None?)
            && LookupZone(ss', other) == LookupZone(ss, other)
            && NameOf(ss', LookupZone(ss, other).value) == dest
  {
    var z := LookupZone(ss, other).value;
    var s := Section(sid, "forwarding", Ends(None, NameOf(ss, z)));
    FoundIsZone(ss, other);
    NotLinked(ss, None, NameOf(ss, z));
    AppendDistinct(ss, s);
    if sid != gone {
      UnusedFound(ss, s, gone);
    }
    UnusedFound(ss, s, z);
    LookupStays(ss, s, other);
    hide Find;
    hide LookupZone;
    hide Linked;
    hide Ends;
  }

  lemma TwoSteps(ss: seq<Section>, one: Op, two: Op)
    ensures Run(ss, [one, two]) == Step(Step(ss, one), two)
    ensures AllAllowed(ss, [one, two]) <==> Allowed(ss, one) && Allowed(Step(ss, one), two)
  {
    hide Step;
    hide Allowed;
    var ss' := Step(ss, one);
    assert [one, two][1..] == [two] && [two][1..] == [];
    assert Run(ss', [two]) == Run(Step(ss', two), []);
    assert AllAllowed(ss', [two]) == Allowed(ss', two);
  }

  lemma UnusedNow(ss: seq<Section>, s: Section, sid: string)
    requires Unused(ss, sid) && s.sid != sid
    ensures Unused(ss + [s], sid)
  {
  }

  lemma UnusedFound(ss: seq<Section>, s: Section, sid: string)
    requires s.sid != sid
    ensures Find(ss + [s], sid) == Find(ss, sid)
  {
    assert (ss + [s])[..|ss|] == ss;
  }

  lemma {:induction false} FirstStays(ss: seq<Section>, s: Section, name: string)
    requires !Meets(s, ZoneNamed(name))
    ensures FirstNamed(ss + [s], name) == FirstNamed(ss, name)
    decreases |ss|
  {
    if ss == [] {
      assert [s][1..] == [];
    } else {
      assert (ss + [s])[0] == ss[0] && (ss + [s])[1..] == ss[1..] + [s];
      FirstStays(ss[1..], s, name);
    }
  }

  lemma LookupStays(ss: seq<Section>, s: Section, name: string)
    requires Unused(ss, s.sid) && !IsZone(s)
    ensures LookupZone(ss + [s], name) == LookupZone(ss, name)
  {
    FirstStays(ss, s, name);
    if s.sid == name {
      FindsLast(ss, s);
      assert Find(ss, name).None?;
    } else {
      UnusedFound(ss, s, name);
    }
    hide FirstNamed;
  }

  // ----- renaming and renaming back -----

  /** A zone can be renamed back unless its old name is no name, or is the identifier of a zone. */
  predicate Returns(ss: seq<Section>, was: string) {
    IsName(was) && !(Find(ss, was).Some? && IsZone(Find(ss, was).value))
  }

  lemma {:induction false} FindBoth(ss: seq<Section>, was: string, now: string, sid: string)
    requires DistinctSids(ss)
    ensures var f := Find(AllBoth(ss, was, now), sid);
            f == if Find(ss, sid).Some? then Some(Both(Find(ss, sid).value, was, now)) else None
  {
    var r, f := AllBoth(ss, was, now), Find(AllBoth(ss, was, now), sid);
    if Find(ss, sid).Some? {
      var s := Find(ss, sid).value;
      BothIn(ss, was, now, s);
      BothOpts(s, was, now);
    }
    if f.Some? {
      var t := BothOf(ss, was, now, f.value);
      BothOpts(t, was, now);
      if Find(ss, sid).Some? {
        SameSid(ss, t, Find(ss, sid).value);
      }
    }
  }

  lemma BothTwice(s: Section, was: string, now: string)
    ensures Both(Both(s, was, now), now, was) == s <==>
      (IsZone(s) ==> Opt(s, "name") != Some(now) || was == now) &&
      (Refers(s) ==> (Opt(s, "src") != Some(now) && Opt(s, "dest") != Some(now)) || was == now)
  {
    var t := Both(s, was, now);
    BothOpts(s, was, now);
    BothOpts(t, now, was);
    var u := Both(t, now, was);
    if (IsZone(s) ==> Opt(s, "name") != Some(now) || was == now) &&
       (Refers(s) ==> (Opt(s, "src") != Some(now) && Opt(s, "dest") != Some(now)) || was == now) {
      assert forall o :: Opt(u, o) == Opt(s, o);
      SameOpts(u, s);
    }
  }

  lemma SameOpts(s: Section, t: Section)
    requires s.sid == t.sid && s.kind == t.kind && forall o :: Opt(s, o) == Opt(t, o)
    ensures s == t
  {
    forall o ensures (o in s.opts <==> o in t.opts) && (o in s.opts ==> s.opts[o] == t.opts[o]) {
      assert Opt(s, o) == Opt(t, o);
    }
    assert s.opts == t.opts;
  }

  lemma ZoneMoves(ss: seq<Section>, was: string, now: string)
    requires Any(ss, ZoneNamed(was))
    ensures Any(AllBoth(ss, was, now), ZoneNamed(now))
  {
    hide Both;
    var z :| z in ss && Meets(z, ZoneNamed(was));
    BothIn(ss, was, now, z);
    BothOpts(z, was, now);
  }

  lemma NoneLeft(ss: seq<Section>, was: string, now: string)
    requires was != now
    ensures !Any(AllBoth(ss, was, now), ZoneNamed(was))
  {
    hide Both;
    forall x | x in AllBoth(ss, was, now) ensures !Meets(x, ZoneNamed(was)) {
      var s := BothOf(ss, was, now, x);
      BothOpts(s, was, now);
    }
  }

  lemma LookupFails(ss: seq<Section>, name: string)
    ensures LookupZone(ss, name).None? <==>
      !(Find(ss, name).Some? && IsZone(Find(ss, name).value)) && !Any(ss, ZoneNamed(name))
  {
  }

  /** The first rename left nothing with the old name, and a zone with the new one. */
  lemma BackPossible(ss: seq<Section>, was: string, now: string)
    requires Sound(ss) && CanRename(ss, was, now)
    ensures was != now && !Any(ss, ZoneNamed(now))
    ensures CanRename(AllBoth(ss, was, now), now, was) <==> Returns(ss, was)
  {
    hide Both;
    hide AllBoth;
    hide Find;
    hide LookupZone;
    hide Any;
    hide ZonesDistinct;
    hide Referenced;
    hide Single;
    hide DistinctSids;
    LookupFails(ss, now);
    LookupFails(AllBoth(ss, was, now), was);
    ZoneMoves(ss, was, now);
    FindBoth(ss, was, now, was);
    if Find(ss, was).Some? {
      BothOpts(Find(ss, was).value, was, now);
    }
    NoneLeft(ss, was, now);
  }

  /** Twice renamed, a section is what it was unless it mentioned the new name. */
  lemma MentionsNot(ss: seq<Section>, was: string, now: string, s: Section)
    requires s in ss && was != now && !Any(ss, ZoneNamed(now))
    ensures Both(Both(s, was, now), now, was) == s <==> !Meets(s, RefersTo(Some(now)))
  {
    hide Both;
    assert !Meets(s, ZoneNamed(now));
    BothTwice(s, was, now);
  }

  lemma TwiceRenamed(ss: seq<Section>, was: string, now: string)
    requires was != now && !Any(ss, ZoneNamed(now))
    ensures AllBoth(AllBoth(ss, was, now), now, was) == ss <==> !Any(ss, RefersTo(Some(now)))
  {
    hide Both;
    hide Meets;
    var u := AllBoth(AllBoth(ss, was, now), now, was);
    forall i | 0 <= i < |ss| ensures u[i] == ss[i] <==> !Meets(ss[i], RefersTo(Some(now))) {
      MentionsNot(ss, was, now, ss[i]);
    }
    if u != ss {
      var i :| 0 <= i < |ss| && u[i] != ss[i];
      assert ss[i] in ss;
    }
  }

  /**
   * Renaming a zone and renaming it back restores the configuration exactly if the way back is open
   * and no rule or redirect mentioned the new name before.
   */
  lemma RenameBack(ss: seq<Section>, was: string, now: string)
    requires Sound(ss) && CanRename(ss, was, now)
    ensures AfterRenameZone(AfterRenameZone(ss, was, now), now, was) == ss <==>
      Returns(ss, was) && !Any(ss, RefersTo(Some(now)))
  {
    BackPossible(ss, was, now);
    TwiceRenamed(ss, was, now);
    assert AllBoth(ss, was, now) != ss by {
      hide Both;
      NoneLeft(ss, was, now);
    }
    hide Sound;
    hide CanRename;
    hide AllRenamed;
    hide Returns;
    hide Any;
  }

  // ----- what one call undoes -----

  lemma RejectsLast(ss: seq<Section>, s: Section)
    requires Unused(ss, s.sid)
    ensures Reject(ss + [s], HasSid(s.sid)) == ss
  {
    RejectConcat(ss, [s], HasSid(s.sid));
    RejectsNothing(ss, HasSid(s.sid));
    assert [s][..0] == [];
    assert Reject([s], HasSid(s.sid)) == [];
    assert ss + [] == ss;
  }

  lemma FindsLast(ss: seq<Section>, s: Section)
    ensures Find(ss + [s], s.sid) == Some(s)
  {
  }

  /** Deleting a forwarding that was just added restores the configuration. */
  lemma ForwardUndone(ss: seq<Section>, src: Option<string>, dest: Option<string>, sid: string)
    requires Unused(ss, sid) && src != dest && !Linked(ss, src, dest)
    ensures AfterDeleteForwarding(AfterForward(ss, src, dest, sid), sid) == ss
  {
    var s := Section(sid, "forwarding", Ends(src, dest));
    FindsLast(ss, s);
    RejectsLast(ss, s);
  }

  /** What `deleteZone` removes of a zone just added is that zone. */
  lemma TargetsLast(ss: seq<Section>, z: Section, name: string)
    requires Unused(ss, z.sid) && IsZone(z) && Opt(z, "name") == Some(name) && LookupZone(ss, name).None?
    ensures var t := TargetOf(ss + [z], name);
            && t.name == Some(name) && Any(ss + [z], t.zones) && Reject(ss + [z], t.zones) == ss
  {
    var zs := ss + [z];
    assert z in zs;
    LookupFails(ss, name);
    FindsLast(ss, z);
    if z.sid == name {
      RejectsLast(ss, z);
    } else {
      assert zs[..|zs| - 1] == ss && Find(zs, name) == Find(ss, name);
      RejectConcat(ss, [z], ZoneNamed(name));
      RejectsNothing(ss, ZoneNamed(name));
      assert [z][..0] == [];
      assert ss + [] == ss;
    }
  }

  /**
   * Deleting a zone that was just added restores the configuration if and only if no rule or redirect
   * already mentioned its name; the defaults section that may have been added stays.
   */
  lemma AddZoneUndone(ss: seq<Section>, name: string, defaultsSid: string, sid: string, policies: map<string, string>)
    requires Sound(ss) && IsName(name) && LookupZone(ss, name).None?
    requires Unused(ss, defaultsSid) && Unused(ss, sid) && sid != defaultsSid && defaultsSid != name
    ensures AfterDeleteZone(AfterAddZone(ss, name, defaultsSid, sid, policies), name) == WithDefaults(ss, defaultsSid)
            <==> !Any(ss, RefersTo(Some(name)))
  {
    var base, z := WithDefaults(ss, defaultsSid), Section(sid, "zone", policies["name" := name]);
    DefaultsNameNothing(ss, name, defaultsSid);
    TargetsLast(base, z, name);
    var c := RefersTo(Some(name));
    assert Reject(base, c) == base <==> !Any(base, c) by {
      if Any(base, c) {
        var s :| s in base && Meets(s, c);
        assert s !in Reject(base, c);
      } else {
        RejectsNothing(base, c);
      }
    }
  }

  lemma DefaultsNameNothing(ss: seq<Section>, name: string, defaultsSid: string)
    requires LookupZone(ss, name).None?
    ensures var base := WithDefaults(ss, defaultsSid);
            && LookupZone(base, name).None?
            && (Any(base, RefersTo(Some(name))) <==> Any(ss, RefersTo(Some(name))))
            && forall s :: s in base ==> s in ss || s.sid == defaultsSid
  {
    var d := Section(defaultsSid, "defaults", map[]);
    var base := ss + [d];
    assert forall s :: s in base <==> s in ss || s == d;
    LookupFails(ss, name);
    LookupFails(base, name);
    assert base[..|base| - 1] == ss;
    assert Any(ss, RefersTo(Some(name))) ==> Any(base, RefersTo(Some(name)));
  }
}
