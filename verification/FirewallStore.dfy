/**
 The firewall's sections as uci.js has them: the list the firewall goes through is what `sections`
 shows of the store, and each of its operations is a series of calls to the store.
 */
module FirewallStore {
  import opened Common
  import F = Firewall
  import R = FirewallRuns
  import opened UciModel
  import opened UciStore
  import opened UciOrder
  import opened UciRuns
  import opened UciSave
  import opened UciSessions
  import opened UciLost

  const FIREWALL := "firewall"

  function At(sid: string): Id {
    Id(FIREWALL, sid)
  }

  /** The options of a section that hold text. */
  function Texts(s: Section): map<string, string> {
    map opt | opt in s && !Dotted(opt) && s[opt].Str? :: s[opt].text
  }

  function KindOf(s: Section): string {
    if ".type" in s && s[".type"].Str? then s[".type"].text else ""
  }

  /** A section as the firewall takes it. */
  function Taken(sid: string, s: Section): F.Section {
    F.Section(sid, KindOf(s), Texts(s))
  }

  function TakenAt(c: Config, sid: string): F.Section {
    Taken(sid, if At(sid) in c then c[At(sid)] else map[])
  }

  function Seen(c: Config, sa: seq<string>): seq<F.Section> {
    if sa == [] then [] else Seen(c, sa[..|sa| - 1]) + [TakenAt(c, sa[|sa| - 1])]
  }

  /** The firewall configuration as the ordered list the firewall works on. */
  ghost function Project(c: Config): seq<F.Section> {
    Seen(c, OrderOf(c, FIREWALL))
  }

  // ----- lists of sections -----

  lemma {:induction false} SeenEach(c: Config, sa: seq<string>)
    ensures |Seen(c, sa)| == |sa| && forall i :: 0 <= i < |sa| ==> Seen(c, sa)[i] == TakenAt(c, sa[i])
    decreases |sa|
  {
    if sa != [] {
      SeenEach(c, sa[..|sa| - 1]);
    }
  }

  lemma SeenConcat(c: Config, a: seq<string>, b: seq<string>)
    ensures Seen(c, a + b) == Seen(c, a) + Seen(c, b)
  {
    SeenEach(c, a);
    SeenEach(c, b);
    SeenEach(c, a + b);
    hide *;
  }

  lemma SeenSame(c: Config, c': Config, sa: seq<string>)
    requires forall sid :: sid in sa ==> TakenAt(c', sid) == TakenAt(c, sid)
    ensures Seen(c', sa) == Seen(c, sa)
  {
    SeenEach(c, sa);
    SeenEach(c', sa);
    hide *;
    assert forall i :: 0 <= i < |sa| ==> sa[i] in sa;
  }

  lemma SeenOne(c: Config, sid: string)
    ensures Seen(c, [sid]) == [TakenAt(c, sid)]
  {
    assert [sid][..0] == [];
  }

  lemma SeenSids(c: Config, sa: seq<string>)
    ensures forall x :: x in Seen(c, sa) ==> x.sid in sa
    ensures forall sid :: sid in sa ==> exists x :: x in Seen(c, sa) && x.sid == sid
    ensures Distinct(sa) ==> F.DistinctSids(Seen(c, sa))
  {
    SeenEach(c, sa);
    hide Seen;
    forall sid | sid in sa ensures exists x :: x in Seen(c, sa) && x.sid == sid {
      var i :| 0 <= i < |sa| && sa[i] == sid;
      assert Seen(c, sa)[i] in Seen(c, sa);
    }
  }

  lemma {:induction false} FindSeen(c: Config, sa: seq<string>, sid: string)
    ensures F.Find(Seen(c, sa), sid) == if sid in sa then Some(TakenAt(c, sid)) else None
    decreases |sa|
  {
    if sa != [] {
      var front, last := sa[..|sa| - 1], sa[|sa| - 1];
      FindSeen(c, front, sid);
      assert Seen(c, sa)[..|Seen(c, sa)| - 1] == Seen(c, front);
      assert sa == front + [last];
    }
  }

  lemma {:induction false} SetSeen(c: Config, c': Config, sa: seq<string>, sid: string, opt: string,
                                   val: Option<string>)
    requires forall x :: x in sa ==>
               TakenAt(c', x) == if x == sid then F.WithOpt(TakenAt(c, x), opt, val) else TakenAt(c, x)
    ensures Seen(c', sa) == F.SetOpt(Seen(c, sa), sid, opt, val)
    decreases |sa|
  {
    hide TakenAt;
    hide F.SetOpt;
    hide F.WithOpt;
    if sa == [] {
      SetOptNone(sid, opt, val);
    } else {
      var front, last := sa[..|sa| - 1], sa[|sa| - 1];
      assert sa == front + [last];
      SetSeen(c, c', front, sid, opt, val);
      SetOptLast(Seen(c, front), TakenAt(c, last), sid, opt, val);
      SidTaken(c, last);
    }
  }

  lemma SetOptNone(sid: string, opt: string, val: Option<string>)
    ensures F.SetOpt([], sid, opt, val) == []
  {
  }

  lemma SetOptLast(ss: seq<F.Section>, s: F.Section, sid: string, opt: string, val: Option<string>)
    ensures F.SetOpt(ss + [s], sid, opt, val) ==
            F.SetOpt(ss, sid, opt, val) + [if s.sid == sid then F.WithOpt(s, opt, val) else s]
  {
    assert (ss + [s])[..|ss + [s]| - 1] == ss;
  }

  lemma SidTaken(c: Config, sid: string)
    ensures TakenAt(c, sid).sid == sid
  {
  }

  lemma NotBeside(a: seq<string>, sid: string, b: seq<string>)
    requires Distinct(a + [sid] + b)
    ensures sid !in a && sid !in b && Distinct(a + b) && Distinct(a)
  {
    var sa := a + [sid] + b;
    assert sa[|a|] == sid;
    assert forall i :: 0 <= i < |a| ==> sa[i] == a[i];
    assert forall i :: 0 <= i < |b| ==> sa[|a| + 1 + i] == b[i];
  }

  lemma RemoveSeen(c: Config, c': Config, a: seq<string>, sid: string, b: seq<string>)
    requires Distinct(a + [sid] + b) && forall x :: x != sid ==> TakenAt(c', x) == TakenAt(c, x)
    ensures Seen(c', a + b) == F.Reject(Seen(c, a + [sid] + b), F.HasSid(sid))
  {
    SeenConcat(c, a + [sid], b);
    SeenConcat(c, a, [sid]);
    SeenConcat(c', a, b);
    SeenOne(c, sid);
    SidTaken(c, sid);
    NotBeside(a, sid, b);
    hide TakenAt;
    hide Seen;
    SeenSame(c, c', a);
    SeenSame(c, c', b);
    SeenSids(c, a);
    SeenSids(c, b);
    F.RemovesOne(Seen(c, a), TakenAt(c, sid), Seen(c, b));
  }

  // ----- one call to the store -----

  lemma ProjectIs(c: Config)
    ensures Project(c) == Seen(c, OrderOf(c, FIREWALL))
    ensures F.DistinctSids(Project(c))
    ensures forall sid :: R.Unused(Project(c), sid) <==> At(sid) !in c
    ensures forall sid :: F.Find(Project(c), sid) == if At(sid) in c then Some(TakenAt(c, sid)) else None
  {
    var sa := OrderOf(c, FIREWALL);
    hide OrderOf;
    SeenSids(c, sa);
    forall sid ensures F.Find(Project(c), sid) == if At(sid) in c then Some(TakenAt(c, sid)) else None {
      FindSeen(c, sa, sid);
    }
    hide Seen;
    hide TakenAt;
    hide F.Find;
  }

  lemma NewTaken(c: Config, sid: string, kind: string, next: nat)
    ensures TakenAt(c[At(sid) := NewSection(At(sid), kind, false, next)], sid) == F.Section(sid, kind, map[])
  {
    var s := NewSection(At(sid), kind, false, next);
    assert Texts(s) == map[];
  }

  lemma TakenElsewhere(c: Config, c': Config, sid: string, x: string)
    requires Agree(c, c', At(x))
    ensures TakenAt(c', x) == TakenAt(c, x)
  {
    hide KindOf;
    hide Texts;
  }

  /** `add` puts an empty section at the end of the list. */
  lemma AddProjects(p: Plain, sid: string, kind: string)
    requires Roomy(p.cfg, FIREWALL, p.next) && At(sid) !in p.cfg
    ensures Project(PlainStep(p, OpAdd(At(sid), kind, false)).cfg) == Project(p.cfg) + [F.Section(sid, kind, map[])]
  {
    hide *;
    var c, c' := p.cfg, p.cfg[At(sid) := NewSection(At(sid), kind, false, p.next)];
    var sa := OrderOf(c, FIREWALL);
    AtIs(sid);
    StepIs(p, OpAdd(At(sid), kind, false));
    AddRoomy(c, At(sid), kind, false, p.next);
    OrderLists(c, FIREWALL, sa);
    ProjectIs(c);
    ProjectIs(c');
    SeenConcat(c', sa, [sid]);
    SeenOne(c', sid);
    NewTaken(c, sid, kind, p.next);
    OthersTaken(c, sid, NewSection(At(sid), kind, false, p.next), sa);
    SeenSame(c, c', sa);
  }

  lemma AtIs(sid: string)
    ensures At(sid).conf == FIREWALL && At(sid).sid == sid && At(sid) == Id(FIREWALL, sid)
  {
  }

  lemma OthersTaken(c: Config, sid: string, section: Section, sa: seq<string>)
    requires At(sid) !in c && UciOrder.Lists(c, FIREWALL, sa)
    ensures forall x :: x in sa ==> TakenAt(c[At(sid) := section], x) == TakenAt(c, x)
  {
    forall x | x in sa ensures TakenAt(c[At(sid) := section], x) == TakenAt(c, x) {
      TakenElsewhere(c, c[At(sid) := section], sid, x);
    }
  }

  /** `remove` takes the section out of the list. */
  lemma RemoveProjects(p: Plain, sid: string)
    requires Roomy(p.cfg, FIREWALL, p.next)
    ensures Project(PlainStep(p, OpRemove(At(sid))).cfg) == F.Reject(Project(p.cfg), F.HasSid(sid))
  {
    hide *;
    var c, c' := p.cfg, p.cfg - {At(sid)};
    var sa := OrderOf(c, FIREWALL);
    StepIs(p, OpRemove(At(sid)));
    ProjectIs(c);
    ProjectIs(c');
    if At(sid) in c {
      RoomyIndexed(c, FIREWALL, p.next);
      var a, b := SplitOrder(c, sa, sid);
      OrderWithout(c, a, sid, b);
      StillTaken(c, sid);
      OrderDistinct(c, sa);
      RemoveSeen(c, c', a, sid, b);
    } else {
      assert c' == c;
      NothingMeets(Project(c), sid);
      F.RejectsNothing(Project(c), F.HasSid(sid));
    }
  }

  lemma NothingMeets(ss: seq<F.Section>, sid: string)
    ensures R.Unused(ss, sid) ==> !F.Any(ss, F.HasSid(sid))
  {
  }

  lemma OrderDistinct(c: Config, sa: seq<string>)
    requires IsOrder(c, FIREWALL, sa)
    ensures Distinct(sa)
  {
  }

  lemma StillTaken(c: Config, sid: string)
    ensures forall x :: x != sid ==> TakenAt(c - {At(sid)}, x) == TakenAt(c, x)
  {
    forall x | x != sid ensures TakenAt(c - {At(sid)}, x) == TakenAt(c, x) {
      TakenElsewhere(c, c - {At(sid)}, sid, x);
    }
  }

  lemma SplitOrder(c: Config, sa: seq<string>, sid: string) returns (a: seq<string>, b: seq<string>)
    requires IsOrder(c, FIREWALL, sa) && At(sid) in c
    ensures sa == a + [sid] + b
  {
    hide IndexOf;
    hide Distinct;
    assert sid in sa;
    var i :| 0 <= i < |sa| && sa[i] == sid;
    a, b := sa[..i], sa[i + 1..];
  }

  lemma OrderWithout(c: Config, a: seq<string>, sid: string, b: seq<string>)
    requires Apart(c, FIREWALL) && OrderOf(c, FIREWALL) == a + [sid] + b
    ensures OrderOf(c - {At(sid)}, FIREWALL) == a + b
  {
    assert var c' := c - {At(sid)};
           && (forall x :: Id(FIREWALL, x) in c' <==> Id(FIREWALL, x) in c && x != sid)
           && forall x :: x != sid ==> IndexOf(c', FIREWALL, x) == IndexOf(c, FIREWALL, x);
    hide *;
    var c' := c - {At(sid)};
    OrderDistinct(c, a + [sid] + b);
    WithoutLists(c, c', a, sid, b);
    WithoutAscends(c, c', a, sid, b);
    FewerApart(c, c', sid);
    var sa := a + b;
    assert IsOrder(c', FIREWALL, sa) by {
      assert UciOrder.Lists(c', FIREWALL, sa) && Ascends(c', sa);
    }
    OrderIs(c', FIREWALL, a + b);
  }

  lemma FewerApart(c: Config, c': Config, sid: string)
    requires Apart(c, FIREWALL)
    requires forall x :: Id(FIREWALL, x) in c' <==> Id(FIREWALL, x) in c && x != sid
    requires forall x :: x != sid ==> IndexOf(c', FIREWALL, x) == IndexOf(c, FIREWALL, x)
    ensures Apart(c', FIREWALL)
  {
    hide IndexOf;
  }

  lemma WithoutLists(c: Config, c': Config, a: seq<string>, sid: string, b: seq<string>)
    requires IsOrder(c, FIREWALL, a + [sid] + b)
    requires forall x :: Id(FIREWALL, x) in c' <==> Id(FIREWALL, x) in c && x != sid
    ensures UciOrder.Lists(c', FIREWALL, a + b)
  {
    NotBeside(a, sid, b);
    hide Distinct;
    hide IndexOf;
    assert forall x :: x in a + b <==> x in a + [sid] + b && x != sid;
  }

  lemma WithoutAscends(c: Config, c': Config, a: seq<string>, sid: string, b: seq<string>)
    requires IsOrder(c, FIREWALL, a + [sid] + b)
    requires forall x :: x != sid ==> IndexOf(c', FIREWALL, x) == IndexOf(c, FIREWALL, x)
    ensures Ascends(c', a + b)
  {
    NotBeside(a, sid, b);
    hide UciOrder.Lists;
    hide IndexOf;
    var sa, sb := a + [sid] + b, a + b;
    forall i, j | 0 <= i < j < |sb| ensures IndexOf(c', FIREWALL, sb[i]) <= IndexOf(c', FIREWALL, sb[j]) {
      var i', j' := if i < |a| then i else i + 1, if j < |a| then j else j + 1;
      assert sa[i'] == sb[i] && sa[j'] == sb[j];
      assert sb[i] in a || sb[i] in b;
      assert sb[j] in a || sb[j] in b;
    }
  }

  ghost predicate Ascends(c: Config, sa: seq<string>) {
    forall i, j :: 0 <= i < j < |sa| ==> IndexOf(c, FIREWALL, sa[i]) <= IndexOf(c, FIREWALL, sa[j])
  }

  function TextOf(val: Option<string>): Option<Value> {
    if val.Some? then Some(Str(val.value)) else None
  }

  /** `set` gives the section the option, or takes it away; in a loaded one the empty string would do that too. */
  lemma SetProjects(p: Plain, sid: string, opt: string, val: Option<string>)
    requires Roomy(p.cfg, FIREWALL, p.next) && !Dotted(opt)
    requires val == Some("") ==> At(sid) in p.made
    ensures Project(PlainStep(p, OpSet(At(sid), opt, TextOf(val))).cfg) == F.SetOpt(Project(p.cfg), sid, opt, val)
  {
    hide *;
    var op := OpSet(At(sid), opt, TextOf(val));
    var c, c' := p.cfg, PlainStep(p, op).cfg;
    SetSame(p, op, FIREWALL);
    RoomyIndexed(c, FIREWALL, p.next);
    SameRoomy(c, c', FIREWALL, p.next, p.next);
    ProjectIs(c);
    ProjectIs(c');
    var sa := OrderOf(c, FIREWALL);
    forall x | x in sa
      ensures TakenAt(c', x) == if x == sid then F.WithOpt(TakenAt(c, x), opt, val) else TakenAt(c, x)
    {
      OrderLists(c, FIREWALL, sa);
      AtIs(x);
      SetTaken(p, sid, opt, val, x);
    }
    SetSeen(c, c', sa, sid, opt, val);
  }

  lemma SetTaken(p: Plain, sid: string, opt: string, val: Option<string>, x: string)
    requires !Dotted(opt) && (val == Some("") ==> At(sid) in p.made) && At(x) in p.cfg
    ensures TakenAt(PlainStep(p, OpSet(At(sid), opt, TextOf(val))).cfg, x) ==
            if x == sid then F.WithOpt(TakenAt(p.cfg, x), opt, val) else TakenAt(p.cfg, x)
  {
    if x == sid {
      TextsSet(p.cfg[At(sid)], opt, val);
    } else {
      TakenElsewhere(p.cfg, PlainStep(p, OpSet(At(sid), opt, TextOf(val))).cfg, sid, x);
    }
    hide Texts;
    hide KindOf;
  }

  lemma TextsSet(s: Section, opt: string, val: Option<string>)
    requires !Dotted(opt)
    ensures var s' := if val.Some? then s[opt := Str(val.value)] else s - {opt};
            && Texts(s') == (if val.Some? then Texts(s)[opt := val.value] else Texts(s) - {opt})
            && KindOf(s') == KindOf(s)
  {
    assert opt != ".type";
  }

  // ----- series of calls -----

  /** No option of a loaded section is taken away, and nothing is moved. */
  ghost predicate Gentle(p: Plain, op: Op) {
    match op
    case OpSet(id, _, val) => (val.Some? && val.value != Str("")) || id in p.made
    case OpMove(_, _, _, _) => false
    case _ => true
  }

  ghost predicate AllGentle(p: Plain, ops: seq<Op>)
    decreases |ops|
  {
    ops == [] || (Gentle(p, ops[0]) && AllGentle(PlainStep(p, ops[0]), ops[1..]))
  }

  /** The calls are allowed and gentle, and make the list `ss`. */
  ghost predicate Makes(p: Plain, ops: seq<Op>, ss: seq<F.Section>) {
    && AllAllowed(p, ops) && AllGentle(p, ops)
    && Project(PlainRun(p, ops).cfg) == ss
  }

  lemma {:induction false} RunOn(p: Plain, a: seq<Op>, b: seq<Op>)
    ensures PlainRun(p, a + b) == PlainRun(PlainRun(p, a), b)
    ensures AllAllowed(p, a + b) <==> AllAllowed(p, a) && AllAllowed(PlainRun(p, a), b)
    ensures AllGentle(p, a + b) <==> AllGentle(p, a) && AllGentle(PlainRun(p, a), b)
    decreases |a|
  {
    hide PlainStep;
    hide Allowed;
    hide Gentle;
    if a == [] {
      assert a + b == b;
    } else {
      RunOn(PlainStep(p, a[0]), a[1..], b);
      assert (a + b)[0] == a[0] && (a + b)[1..] == a[1..] + b;
    }
  }

  lemma MakesNothing(p: Plain)
    ensures Makes(p, [], Project(p.cfg)) && PlainRun(p, []) == p
  {
  }

  lemma MakesOne(p: Plain, op: Op)
    requires Allowed(p, op) && Gentle(p, op)
    ensures Makes(p, [op], Project(PlainStep(p, op).cfg)) && PlainRun(p, [op]) == PlainStep(p, op)
  {
    hide Project;
    hide PlainStep;
    hide Allowed;
    hide Gentle;
    assert [op][1..] == [];
    var p' := PlainStep(p, op);
    assert PlainRun(p', []) == p' && AllAllowed(p', []) && AllGentle(p', []);
  }

  /** Of series made one after another. */
  lemma {:induction false} MakesThen(p: Plain, a: seq<Op>, ss: seq<F.Section>, b: seq<Op>,
                                     ss': seq<F.Section>)
    requires Makes(p, a, ss) && Makes(PlainRun(p, a), b, ss')
    ensures Makes(p, a + b, ss') && PlainRun(p, a + b) == PlainRun(PlainRun(p, a), b)
  {
    RunOn(p, a, b);
    hide Project;
    hide AllAllowed;
    hide AllGentle;
    hide PlainRun;
  }

  lemma MakesRoomy(p: Plain, a: seq<Op>, ss: seq<F.Section>)
    requires Makes(p, a, ss) && Roomy(p.cfg, FIREWALL, p.next)
    ensures var p' := PlainRun(p, a); Roomy(p'.cfg, FIREWALL, p'.next) && Project(p'.cfg) == ss
  {
    RunRoomy(p, a, FIREWALL);
  }

  // ----- the calls of each operation -----

  function AddCall(sid: string, kind: string): Op {
    OpAdd(At(sid), kind, false)
  }

  function SetCall(sid: string, opt: string, val: Option<string>): Op {
    OpSet(At(sid), opt, TextOf(val))
  }

  /** `lookupZone`: a section of that name is read, and then the zone found. */
  function LookupCalls(ss: seq<F.Section>, name: string): seq<Op> {
    var z := F.LookupZone(ss, name);
    [OpGetSection(At(name))] + if z.Some? then [OpGetSection(At(z.value))] else []
  }

  function RemoveCalls(ss: seq<F.Section>, c: F.Condition): seq<Op> {
    if ss == [] then []
    else
      var last := ss[|ss| - 1];
      RemoveCalls(ss[..|ss| - 1], c) + if F.Meets(last, c) then [OpRemove(At(last.sid))] else []
  }

  function RenameCall(s: F.Section, opt: string, was: string, now: string): seq<Op> {
    if F.Opt(s, opt) == Some(was) then [SetCall(s.sid, opt, Some(now))] else []
  }

  function RenameCallsAt(s: F.Section, pass: F.Pass, was: string, now: string): seq<Op> {
    match pass
    case ZoneNames => if F.IsZone(s) then RenameCall(s, "name", was, now) else []
    case References =>
      if F.Refers(s) then RenameCall(s, "src", was, now) + RenameCall(s, "dest", was, now) else []
  }

  function RenameCalls(ss: seq<F.Section>, pass: F.Pass, was: string, now: string): seq<Op> {
    if ss == [] then []
    else RenameCalls(ss[..|ss| - 1], pass, was, now) + RenameCallsAt(ss[|ss| - 1], pass, was, now)
  }

  function SetCalls(sid: string, settings: seq<(string, Option<string>)>): seq<Op> {
    if settings == [] then []
    else
      var last := settings[|settings| - 1];
      SetCalls(sid, settings[..|settings| - 1]) + [SetCall(sid, last.0, last.1)]
  }

  function ForwardCalls(ss: seq<F.Section>, src: Option<string>, dest: Option<string>, sid: string): seq<Op> {
    if src == dest || F.Linked(ss, src, dest) then []
    else [AddCall(sid, "forwarding")] + SetCalls(sid, [("src", src), ("dest", dest)])
  }

  predicate HasDefaults(ss: seq<F.Section>) {
    exists s :: s in ss && s.kind == "defaults"
  }

  function PolicyOf(policies: map<string, string>, opt: string): (string, Option<string>) {
    (opt, if opt in policies then Some(policies[opt]) else None)
  }

  function ZoneSettings(name: string, policies: map<string, string>): seq<(string, Option<string>)> {
    [("name", Some(name)), PolicyOf(policies, "input"), PolicyOf(policies, "output"), PolicyOf(policies, "forward")]
  }

  /** What an operation calls of the store, reads of single options apart. */
  function Calls(ss: seq<F.Section>, op: R.Op): seq<Op> {
    match op
    case AddZone(name, defaultsSid, sid, policies) =>
      if !F.IsName(name) then []
      else if F.LookupZone(ss, name).Some? then LookupCalls(ss, name)
      else
        LookupCalls(ss, name) + (if HasDefaults(ss) then [] else [AddCall(defaultsSid, "defaults")])
        + ([AddCall(sid, "zone")] + SetCalls(sid, ZoneSettings(name, policies))) + [OpGetSection(At(sid))]
    case DeleteZone(name) =>
      var t := F.TargetOf(ss, name);
      [OpGetSection(At(name))] + RemoveCalls(ss, t.zones)
      + if F.Any(ss, t.zones) then RemoveCalls(F.Reject(ss, t.zones), F.RefersTo(t.name)) else []
    case RenameZone(was, now) =>
      if !F.IsName(now) then []
      else if F.LookupZone(ss, now).Some? then LookupCalls(ss, now)
      else
        LookupCalls(ss, now) + RenameCalls(ss, F.ZoneNames, was, now)
        + if F.Any(ss, F.ZoneNamed(was)) then
            RenameCalls(F.AllRenamed(ss, F.ZoneNames, was, now), F.References, was, now)
          else []
    case AddForwardingTo(self, dest, sid) =>
      var z := F.LookupZone(ss, dest);
      LookupCalls(ss, dest)
      + if z.None? then [] else ForwardCalls(ss, F.NameOf(ss, self), F.NameOf(ss, z.value), sid)
    case AddForwardingFrom(self, src, sid) =>
      var z := F.LookupZone(ss, src);
      LookupCalls(ss, src)
      + if z.None? then [] else ForwardCalls(ss, F.NameOf(ss, z.value), F.NameOf(ss, self), sid)
    case DeleteForwardingsBy(self, what) => RemoveCalls(ss, F.ForwardsBy(what, F.NameOf(ss, self)))
    case DeleteForwarding(sid) =>
      var s := F.Find(ss, sid);
      [OpGetSection(At(sid))] + if s.Some? && F.IsForwarding(s.value) then [OpRemove(At(sid))] else []
  }

  // ----- reading -----

  lemma ReadMakes(p: Plain, sid: string)
    ensures Makes(p, [OpGetSection(At(sid))], Project(p.cfg)) && PlainRun(p, [OpGetSection(At(sid))]) == p
  {
    MakesOne(p, OpGetSection(At(sid)));
  }

  lemma LookupMakes(p: Plain, ss: seq<F.Section>, name: string)
    ensures Makes(p, LookupCalls(ss, name), Project(p.cfg)) && PlainRun(p, LookupCalls(ss, name)) == p
  {
    hide Makes;
    hide Project;
    hide PlainRun;
    hide F.LookupZone;
    ReadMakes(p, name);
    var z := F.LookupZone(ss, name);
    if z.Some? {
      ReadMakes(p, z.value);
      MakesThen(p, [OpGetSection(At(name))], Project(p.cfg), [OpGetSection(At(z.value))], Project(p.cfg));
    } else {
      assert [OpGetSection(At(name))] + [] == [OpGetSection(At(name))];
    }
  }

  // ----- removing -----

  lemma RemoveOne(p: Plain, sid: string)
    requires Roomy(p.cfg, FIREWALL, p.next)
    ensures Makes(p, [OpRemove(At(sid))], F.Reject(Project(p.cfg), F.HasSid(sid)))
  {
    MakesOne(p, OpRemove(At(sid)));
    RemoveProjects(p, sid);
    hide Makes;
  }

  lemma {:induction false} RemoveMakes(p: Plain, ss: seq<F.Section>, c: F.Condition, i: nat)
    requires Roomy(p.cfg, FIREWALL, p.next) && Project(p.cfg) == ss && i <= |ss|
    ensures var found := F.Any(ss[..i], c);
            exists current :: F.RejectedTo(ss, i, c, current, found)
              && Makes(p, RemoveCalls(ss[..i], c), current)
    decreases i
  {
    hide *;
    ProjectIs(p.cfg);
    if i == 0 {
      F.RejectStarts(ss, c);
      MakesNothing(p);
      NoCalls(ss, c);
      assert ss[..0] == [];
    } else {
      RemoveMakes(p, ss, c, i - 1);
      var s, before := ss[i - 1], RemoveCalls(ss[..i - 1], c);
      var current :| F.RejectedTo(ss, i - 1, c, current, F.Any(ss[..i - 1], c)) && Makes(p, before, current);
      F.RejectsNext(ss, i - 1, c, current, F.Any(ss[..i - 1], c));
      F.AnyNext(ss, i - 1, c);
      NextCall(ss, i, c);
      if F.Meets(s, c) {
        MakesRoomy(p, before, current);
        RemoveOne(PlainRun(p, before), s.sid);
        MakesThen(p, before, current, [OpRemove(At(s.sid))], F.Reject(current, F.HasSid(s.sid)));
      } else {
        assert before + [] == before;
      }
    }
  }

  lemma NoCalls(ss: seq<F.Section>, c: F.Condition)
    ensures RemoveCalls([], c) == [] && !F.Any([], c)
  {
  }

  lemma NextCall(ss: seq<F.Section>, i: nat, c: F.Condition)
    requires 0 < i <= |ss|
    ensures RemoveCalls(ss[..i], c) ==
            RemoveCalls(ss[..i - 1], c) + if F.Meets(ss[i - 1], c) then [OpRemove(At(ss[i - 1].sid))] else []
  {
    assert ss[..i][..i - 1] == ss[..i - 1];
  }

  lemma RemoveAllMakes(p: Plain, c: F.Condition)
    requires Roomy(p.cfg, FIREWALL, p.next)
    ensures Makes(p, RemoveCalls(Project(p.cfg), c), F.Reject(Project(p.cfg), c))
  {
    hide *;
    var ss := Project(p.cfg);
    RemoveMakes(p, ss, c, |ss|);
    assert ss[..|ss|] == ss;
    var current :| F.RejectedTo(ss, |ss|, c, current, F.Any(ss, c)) && Makes(p, RemoveCalls(ss, c), current);
    F.RejectEnds(ss, c, current, F.Any(ss, c));
  }

  // ----- renaming -----

  lemma SetOne(p: Plain, sid: string, opt: string, val: Option<string>)
    requires Roomy(p.cfg, FIREWALL, p.next) && !Dotted(opt)
    requires At(sid) in p.made || (val.Some? && val.value != "")
    ensures Makes(p, [SetCall(sid, opt, val)], F.SetOpt(Project(p.cfg), sid, opt, val))
    ensures PlainRun(p, [SetCall(sid, opt, val)]).made == p.made
  {
    hide *;
    SetCallIs(p, sid, opt, val);
    MakesOne(p, SetCall(sid, opt, val));
    SetProjects(p, sid, opt, val);
  }

  lemma SetCallIs(p: Plain, sid: string, opt: string, val: Option<string>)
    requires At(sid) in p.made || (val.Some? && val.value != "")
    ensures var call := SetCall(sid, opt, val);
            && call == OpSet(At(sid), opt, TextOf(val)) && Allowed(p, call) && Gentle(p, call)
            && PlainStep(p, call).made == p.made
  {
    hide StoringSet;
    hide PlainSet;
  }

  lemma {:induction false} RenameOneMakes(p: Plain, s: F.Section, opt: string, was: string,
                                          now: string)
    requires Roomy(p.cfg, FIREWALL, p.next) && now != "" && !Dotted(opt)
    ensures Makes(p, RenameCall(s, opt, was, now),
                  if F.Opt(s, opt) == Some(was) then F.SetOpt(Project(p.cfg), s.sid, opt, Some(now))
                  else Project(p.cfg))
  {
    hide Makes;
    hide Project;
    hide Roomy;
    hide F.SetOpt;
    MakesNothing(p);
    if F.Opt(s, opt) == Some(was) {
      SetOne(p, s.sid, opt, Some(now));
    }
  }

  /** The list after one section of the copy has been dealt with. */
  function RenamedAt(current: seq<F.Section>, s: F.Section, pass: F.Pass, was: string, now: string): seq<F.Section> {
    match pass
    case ZoneNames =>
      if F.IsZone(s) && F.Opt(s, "name") == Some(was) then F.SetOpt(current, s.sid, "name", Some(now)) else current
    case References =>
      if F.Refers(s) then
        var first := if F.Opt(s, "src") == Some(was) then F.SetOpt(current, s.sid, "src", Some(now)) else current;
        if F.Opt(s, "dest") == Some(was) then F.SetOpt(first, s.sid, "dest", Some(now)) else first
      else current
  }

  lemma {:induction false} RenameAtMakes(p: Plain, s: F.Section, pass: F.Pass, was: string,
                                         now: string)
    requires Roomy(p.cfg, FIREWALL, p.next) && now != ""
    ensures Makes(p, RenameCallsAt(s, pass, was, now), RenamedAt(Project(p.cfg), s, pass, was, now))
  {
    hide Makes;
    hide Project;
    hide Roomy;
    hide RenameCall;
    hide F.SetOpt;
    hide F.Opt;
    hide PlainRun;
    MakesNothing(p);
    match pass {
      case ZoneNames =>
        RenameOneMakes(p, s, "name", was, now);
      case References =>
        if F.Refers(s) {
          var calls := RenameCall(s, "src", was, now);
          var ss := Project(p.cfg);
          var first := if F.Opt(s, "src") == Some(was) then F.SetOpt(ss, s.sid, "src", Some(now)) else ss;
          RenameOneMakes(p, s, "src", was, now);
          MakesRoomy(p, calls, first);
          RenameOneMakes(PlainRun(p, calls), s, "dest", was, now);
          MakesThen(p, calls, first, RenameCall(s, "dest", was, now),
                    RenamedAt(Project(p.cfg), s, pass, was, now));
        }
    }
  }

  lemma {:induction false} RenamedAtNext(ss: seq<F.Section>, i: nat, pass: F.Pass, was: string, now: string,
                                         current: seq<F.Section>, found: bool)
    returns (found': bool)
    requires i < |ss| && F.RenamedTo(ss, i, pass, was, now, current, found)
    ensures F.RenamedTo(ss, i + 1, pass, was, now, RenamedAt(current, ss[i], pass, was, now), found')
  {
    F.RenamesNext(ss, i, pass, was, now, current, found);
    hide F.RenamedTo;
    hide F.SetOpt;
    hide F.Opt;
    hide F.IsZone;
    hide F.Refers;
    found' := found || (pass == F.ZoneNames && F.IsZone(ss[i]) && F.Opt(ss[i], "name") == Some(was));
  }

  lemma {:induction false} RenameMakes(p: Plain, ss: seq<F.Section>, pass: F.Pass, was: string,
                                       now: string, i: nat)
    requires Roomy(p.cfg, FIREWALL, p.next) && Project(p.cfg) == ss && i <= |ss| && now != ""
    ensures exists current, found :: F.RenamedTo(ss, i, pass, was, now, current, found)
                                     && Makes(p, RenameCalls(ss[..i], pass, was, now), current)
    decreases i
  {
    hide *;
    ProjectIs(p.cfg);
    RenameCallsNext(ss, i, pass, was, now);
    if i == 0 {
      F.RenameStarts(ss, pass, was, now);
      MakesNothing(p);
      assert ss[..0] == [];
    } else {
      RenameMakes(p, ss, pass, was, now, i - 1);
      var s, before := ss[i - 1], RenameCalls(ss[..i - 1], pass, was, now);
      var current, found :| F.RenamedTo(ss, i - 1, pass, was, now, current, found) && Makes(p, before, current);
      var found' := RenamedAtNext(ss, i - 1, pass, was, now, current, found);
      MakesRoomy(p, before, current);
      RenameAtMakes(PlainRun(p, before), s, pass, was, now);
      MakesThen(p, before, current, RenameCallsAt(s, pass, was, now), RenamedAt(current, s, pass, was, now));
    }
  }

  lemma RenameCallsNext(ss: seq<F.Section>, i: nat, pass: F.Pass, was: string, now: string)
    requires i <= |ss|
    ensures RenameCalls(ss[..i], pass, was, now) ==
            if i == 0 then []
            else RenameCalls(ss[..i - 1], pass, was, now) + RenameCallsAt(ss[i - 1], pass, was, now)
  {
    assert i > 0 ==> ss[..i][..i - 1] == ss[..i - 1];
  }

  lemma RenamePassMakes(p: Plain, pass: F.Pass, was: string, now: string)
    requires Roomy(p.cfg, FIREWALL, p.next) && now != ""
    ensures var ss := Project(p.cfg);
            Makes(p, RenameCalls(ss, pass, was, now), F.AllRenamed(ss, pass, was, now))
  {
    hide *;
    var ss := Project(p.cfg);
    RenameMakes(p, ss, pass, was, now, |ss|);
    assert ss[..|ss|] == ss;
    var current, found :| F.RenamedTo(ss, |ss|, pass, was, now, current, found)
                          && Makes(p, RenameCalls(ss, pass, was, now), current);
    F.RenameEnds(ss, pass, was, now, current, found);
  }

  // ----- adding -----

  function AllSet(ss: seq<F.Section>, sid: string, settings: seq<(string, Option<string>)>): seq<F.Section> {
    if settings == [] then ss
    else
      var last := settings[|settings| - 1];
      F.SetOpt(AllSet(ss, sid, settings[..|settings| - 1]), sid, last.0, last.1)
  }

  function WithAll(s: F.Section, settings: seq<(string, Option<string>)>): (r: F.Section)
    ensures r.sid == s.sid && r.kind == s.kind
  {
    if settings == [] then s
    else
      var last := settings[|settings| - 1];
      F.WithOpt(WithAll(s, settings[..|settings| - 1]), last.0, last.1)
  }

  predicate Undotted(settings: seq<(string, Option<string>)>) {
    forall i :: 0 <= i < |settings| ==> !Dotted(settings[i].0)
  }

  lemma {:induction false} SetsMake(p: Plain, sid: string, settings: seq<(string, Option<string>)>)
    requires Roomy(p.cfg, FIREWALL, p.next) && At(sid) in p.made && Undotted(settings)
    ensures Makes(p, SetCalls(sid, settings), AllSet(Project(p.cfg), sid, settings))
    ensures PlainRun(p, SetCalls(sid, settings)).made == p.made
    decreases |settings|
  {
    assert if settings == [] then
             SetCalls(sid, settings) == [] && AllSet(Project(p.cfg), sid, settings) == Project(p.cfg)
           else
             var front, last := settings[..|settings| - 1], settings[|settings| - 1];
             && SetCalls(sid, settings) == SetCalls(sid, front) + [SetCall(sid, last.0, last.1)]
             && AllSet(Project(p.cfg), sid, settings) ==
                F.SetOpt(AllSet(Project(p.cfg), sid, front), sid, last.0, last.1)
             && (Undotted(settings) ==> Undotted(front) && !Dotted(last.0)) by {
      hide Project;
      hide Dotted;
    }
    hide *;
    MakesNothing(p);
    if settings != [] {
      var front, last := settings[..|settings| - 1], settings[|settings| - 1];
      var before := SetCalls(sid, front);
      SetsMake(p, sid, front);
      MakesRoomy(p, before, AllSet(Project(p.cfg), sid, front));
      SetOne(PlainRun(p, before), sid, last.0, last.1);
      MakesThen(p, before, AllSet(Project(p.cfg), sid, front), [SetCall(sid, last.0, last.1)],
                AllSet(Project(p.cfg), sid, settings));
    }
  }

  lemma {:induction false} AllSetLast(ss: seq<F.Section>, s: F.Section, settings: seq<(string, Option<string>)>)
    requires R.Unused(ss, s.sid)
    ensures AllSet(ss + [s], s.sid, settings) == ss + [WithAll(s, settings)]
    decreases |settings|
  {
    if settings != [] {
      var front, last := settings[..|settings| - 1], settings[|settings| - 1];
      AllSetLast(ss, s, front);
      hide F.SetOpt;
      hide F.WithOpt;
      F.SetsOne(ss, WithAll(s, front), [], last.0, last.1);
      assert ss + [WithAll(s, front)] + [] == ss + [WithAll(s, front)];
      assert ss + [WithAll(s, settings)] + [] == ss + [WithAll(s, settings)];
    }
  }

  lemma AddOne(p: Plain, sid: string, kind: string)
    requires Roomy(p.cfg, FIREWALL, p.next) && R.Unused(Project(p.cfg), sid)
    ensures Makes(p, [AddCall(sid, kind)], Project(p.cfg) + [F.Section(sid, kind, map[])])
    ensures At(sid) in PlainRun(p, [AddCall(sid, kind)]).made
  {
    ProjectIs(p.cfg);
    assert At(sid) !in p.cfg;
    MakesOne(p, AddCall(sid, kind));
    AddProjects(p, sid, kind);
    hide Makes;
    hide Project;
    hide NewSection;
    hide Roomy;
  }

  /** A new section and its settings. */
  lemma NewMakes(p: Plain, sid: string, kind: string, settings: seq<(string, Option<string>)>)
    requires Roomy(p.cfg, FIREWALL, p.next) && R.Unused(Project(p.cfg), sid) && Undotted(settings)
    ensures Makes(p, [AddCall(sid, kind)] + SetCalls(sid, settings),
                  Project(p.cfg) + [WithAll(F.Section(sid, kind, map[]), settings)])
  {
    hide *;
    var added := [AddCall(sid, kind)];
    var ss, s := Project(p.cfg), F.Section(sid, kind, map[]);
    AddOne(p, sid, kind);
    MakesRoomy(p, added, ss + [s]);
    SetsMake(PlainRun(p, added), sid, settings);
    MakesThen(p, added, ss + [s], SetCalls(sid, settings), AllSet(ss + [s], sid, settings));
    AllSetLast(ss, s, settings);
  }

  lemma TwoSettings(s: F.Section, a: (string, Option<string>), b: (string, Option<string>))
    ensures WithAll(s, [a, b]) == F.WithOpt(F.WithOpt(s, a.0, a.1), b.0, b.1)
  {
    assert [a, b][..1] == [a] && [a][..0] == [];
    assert WithAll(s, [a]) == F.WithOpt(WithAll(s, []), a.0, a.1);
  }

  lemma ForwardSettings(sid: string, src: Option<string>, dest: Option<string>)
    ensures WithAll(F.Section(sid, "forwarding", map[]), [("src", src), ("dest", dest)]) ==
            F.Section(sid, "forwarding", F.Ends(src, dest))
    ensures Undotted([("src", src), ("dest", dest)])
  {
    TwoSettings(F.Section(sid, "forwarding", map[]), ("src", src), ("dest", dest));
  }

  lemma ForwardMakes(p: Plain, src: Option<string>, dest: Option<string>, sid: string)
    requires Roomy(p.cfg, FIREWALL, p.next) && R.Unused(Project(p.cfg), sid)
    ensures Makes(p, ForwardCalls(Project(p.cfg), src, dest, sid),
                  F.AfterForward(Project(p.cfg), src, dest, sid))
  {
    hide Makes;
    hide Project;
    hide Roomy;
    hide SetCalls;
    hide WithAll;
    hide F.Ends;
    hide F.Linked;
    hide Undotted;
    hide R.Unused;
    MakesNothing(p);
    ForwardSettings(sid, src, dest);
    NewMakes(p, sid, "forwarding", [("src", src), ("dest", dest)]);
  }

  lemma ZoneSettingsAre(sid: string, name: string, policies: map<string, string>)
    requires policies.Keys == {"input", "output", "forward"}
    ensures WithAll(F.Section(sid, "zone", map[]), ZoneSettings(name, policies)) ==
            F.Section(sid, "zone", policies["name" := name])
    ensures Undotted(ZoneSettings(name, policies))
  {
    var s := F.Section(sid, "zone", map[]);
    var four := ZoneSettings(name, policies);
    assert four[..3] == [four[0], four[1], four[2]] && four[..3][..2] == [four[0], four[1]];
    TwoSettings(s, four[0], four[1]);
    assert WithAll(s, four[..3]) == F.WithOpt(WithAll(s, [four[0], four[1]]), four[2].0, four[2].1);
    hide WithAll;
  }

  lemma DefaultsMake(p: Plain, defaultsSid: string)
    requires Roomy(p.cfg, FIREWALL, p.next) && R.Unused(Project(p.cfg), defaultsSid)
    ensures Makes(p, if HasDefaults(Project(p.cfg)) then [] else [AddCall(defaultsSid, "defaults")],
                  F.WithDefaults(Project(p.cfg), defaultsSid))
    ensures forall sid :: sid != defaultsSid && R.Unused(Project(p.cfg), sid) ==>
                            R.Unused(F.WithDefaults(Project(p.cfg), defaultsSid), sid)
  {
    hide Makes;
    hide Project;
    hide Roomy;
    hide PlainRun;
    MakesNothing(p);
    AddOne(p, defaultsSid, "defaults");
  }

  lemma {:induction false} AddZoneMakes(p: Plain, name: string, defaultsSid: string, sid: string,
                     policies: map<string, string>)
    requires Roomy(p.cfg, FIREWALL, p.next) && R.Unused(Project(p.cfg), defaultsSid) && R.Unused(Project(p.cfg), sid)
    requires sid != defaultsSid
    requires policies.Keys == {"input", "output", "forward"}
    ensures var op, ss := R.AddZone(name, defaultsSid, sid, policies), Project(p.cfg);
            Makes(p, Calls(ss, op), R.Step(ss, op))
  {
    hide *;
    var op, ss := R.AddZone(name, defaultsSid, sid, policies), Project(p.cfg);
    MakesNothing(p);
    LookupMakes(p, ss, name);
    ZoneCallsAre(ss, name, defaultsSid, sid, policies);
    if F.IsName(name) && F.LookupZone(ss, name).None? {
      var look, rest := LookupCalls(ss, name), if HasDefaults(ss) then [] else [AddCall(defaultsSid, "defaults")];
      var zone := [AddCall(sid, "zone")] + SetCalls(sid, ZoneSettings(name, policies));
      DefaultsMake(p, defaultsSid);
      MakesThen(p, look, ss, rest, F.WithDefaults(ss, defaultsSid));
      MakesRoomy(p, look + rest, F.WithDefaults(ss, defaultsSid));
      var p1 := PlainRun(p, look + rest);
      ZoneSettingsAre(sid, name, policies);
      NewMakes(p1, sid, "zone", ZoneSettings(name, policies));
      MakesThen(p, look + rest, F.WithDefaults(ss, defaultsSid), zone, R.Step(ss, op));
      MakesRoomy(p, look + rest + zone, R.Step(ss, op));
      ReadMakes(PlainRun(p, look + rest + zone), sid);
      MakesThen(p, look + rest + zone, R.Step(ss, op), [OpGetSection(At(sid))], R.Step(ss, op));
    }
  }

  lemma ZoneCallsAre(ss: seq<F.Section>, name: string, defaultsSid: string, sid: string, policies: map<string, string>)
    ensures var op, look := R.AddZone(name, defaultsSid, sid, policies), LookupCalls(ss, name);
            if !F.IsName(name) then Calls(ss, op) == [] && R.Step(ss, op) == ss
            else if F.LookupZone(ss, name).Some? then Calls(ss, op) == look && R.Step(ss, op) == ss
            else
              && Calls(ss, op) ==
                 look + (if HasDefaults(ss) then [] else [AddCall(defaultsSid, "defaults")])
                 + ([AddCall(sid, "zone")] + SetCalls(sid, ZoneSettings(name, policies))) + [OpGetSection(At(sid))]
              && R.Step(ss, op) ==
                 F.WithDefaults(ss, defaultsSid) + [F.Section(sid, "zone", policies["name" := name])]
  {
    hide F.WithDefaults;
    hide F.LookupZone;
    hide LookupCalls;
    hide SetCalls;
    hide ZoneSettings;
    hide HasDefaults;
    hide F.IsName;
  }

  lemma DeleteZoneMakes(p: Plain, name: string)
    requires Roomy(p.cfg, FIREWALL, p.next)
    ensures var op, ss := R.DeleteZone(name), Project(p.cfg); Makes(p, Calls(ss, op), R.Step(ss, op))
  {
    hide Makes;
    hide Project;
    hide Roomy;
    hide PlainRun;
    hide RemoveCalls;
    hide F.TargetOf;
    hide F.Reject;
    hide F.Any;
    var ss := Project(p.cfg);
    var t := F.TargetOf(ss, name);
    var read, zones := [OpGetSection(At(name))], RemoveCalls(ss, t.zones);
    ReadMakes(p, name);
    RemoveAllMakes(p, t.zones);
    var left := F.Reject(ss, t.zones);
    MakesThen(p, read, ss, zones, left);
    if F.Any(ss, t.zones) {
      MakesRoomy(p, read + zones, left);
      RemoveAllMakes(PlainRun(p, read + zones), F.RefersTo(t.name));
      MakesThen(p, read + zones, left, RemoveCalls(left, F.RefersTo(t.name)),
                F.Reject(left, F.RefersTo(t.name)));
    } else {
      F.RejectsNothing(ss, t.zones);
      assert read + zones + [] == read + zones;
    }
  }

  lemma NameNotEmpty(name: string)
    requires F.IsName(name)
    ensures name != ""
  {
  }

  lemma RenameZoneMakes(p: Plain, was: string, now: string)
    requires Roomy(p.cfg, FIREWALL, p.next)
    ensures var op, ss := R.RenameZone(was, now), Project(p.cfg); Makes(p, Calls(ss, op), R.Step(ss, op))
  {
    hide Makes;
    hide Project;
    hide Roomy;
    hide PlainRun;
    hide RenameCalls;
    hide LookupCalls;
    hide F.AllRenamed;
    hide F.LookupZone;
    hide F.IsName;
    hide F.Any;
    var ss := Project(p.cfg);
    MakesNothing(p);
    LookupMakes(p, ss, now);
    if F.IsName(now) && F.LookupZone(ss, now).None? {
      NameNotEmpty(now);
      var look, names := LookupCalls(ss, now), RenameCalls(ss, F.ZoneNames, was, now);
      var first := F.AllRenamed(ss, F.ZoneNames, was, now);
      RenamePassMakes(p, F.ZoneNames, was, now);
      MakesThen(p, look, ss, names, first);
      if F.Any(ss, F.ZoneNamed(was)) {
        MakesRoomy(p, look + names, first);
        RenamePassMakes(PlainRun(p, look + names), F.References, was, now);
        MakesThen(p, look + names, first, RenameCalls(first, F.References, was, now),
                  F.AllRenamed(first, F.References, was, now));
      } else {
        F.RenamesNothing(ss, was, now);
        assert look + names + [] == look + names;
      }
    }
  }

  /** Forwarding to, or from, the zone found under a name. */
  lemma ForwardOpMakes(p: Plain, op: R.Op, name: string)
    requires Roomy(p.cfg, FIREWALL, p.next)
    requires (op.AddForwardingTo? || op.AddForwardingFrom?) && name == op.other
    requires R.Unused(Project(p.cfg), op.sid)
    ensures Makes(p, Calls(Project(p.cfg), op), R.Step(Project(p.cfg), op))
  {
    hide Makes;
    hide Project;
    hide Roomy;
    hide PlainRun;
    hide ForwardCalls;
    hide LookupCalls;
    hide R.Unused;
    hide F.LookupZone;
    hide F.NameOf;
    hide F.AfterForward;
    var ss := Project(p.cfg);
    var z, look := F.LookupZone(ss, name), LookupCalls(ss, name);
    LookupMakes(p, ss, name);
    if z.None? {
      assert look + [] == look;
    } else {
      var self, other := F.NameOf(ss, op.self), F.NameOf(ss, z.value);
      var src, dest := if op.AddForwardingTo? then self else other, if op.AddForwardingTo? then other else self;
      ForwardMakes(p, src, dest, op.sid);
      MakesThen(p, look, ss, ForwardCalls(ss, src, dest, op.sid), F.AfterForward(ss, src, dest, op.sid));
    }
  }

  lemma DeleteForwardingMakes(p: Plain, sid: string)
    requires Roomy(p.cfg, FIREWALL, p.next)
    ensures var op, ss := R.DeleteForwarding(sid), Project(p.cfg); Makes(p, Calls(ss, op), R.Step(ss, op))
  {
    hide Makes;
    hide Project;
    hide Roomy;
    hide PlainRun;
    hide F.Find;
    hide F.Reject;
    var ss := Project(p.cfg);
    var read, left := [OpGetSection(At(sid))], F.Reject(ss, F.HasSid(sid));
    ReadMakes(p, sid);
    RemoveOne(p, sid);
    MakesThen(p, read, ss, [OpRemove(At(sid))], left);
    assert read + [] == read;
  }

  // ----- whole runs -----

  /** A zone gets the three policies. */
  predicate Callable(op: R.Op) {
    op.AddZone? ==> op.policies.Keys == {"input", "output", "forward"}
  }

  /** The calls an operation makes to the store do to the firewall's list what the operation does. */
  lemma StepMakes(p: Plain, op: R.Op)
    requires Roomy(p.cfg, FIREWALL, p.next) && R.Allowed(Project(p.cfg), op) && Callable(op)
    ensures Makes(p, Calls(Project(p.cfg), op), R.Step(Project(p.cfg), op))
  {
    hide Makes;
    hide Project;
    hide Roomy;
    hide Calls;
    hide R.Step;
    hide R.Unused;
    hide R.Handle;
    match op {
      case AddZone(name, defaultsSid, sid, policies) => AddZoneMakes(p, name, defaultsSid, sid, policies);
      case DeleteZone(name) => DeleteZoneMakes(p, name);
      case RenameZone(was, now) => RenameZoneMakes(p, was, now);
      case AddForwardingTo(_, other, _) => ForwardOpMakes(p, op, other);
      case AddForwardingFrom(_, other, _) => ForwardOpMakes(p, op, other);
      case DeleteForwardingsBy(self, what) => DeleteByMakes(p, self, what);
      case DeleteForwarding(sid) => DeleteForwardingMakes(p, sid);
    }
  }

  lemma DeleteByMakes(p: Plain, self: string, what: string)
    requires Roomy(p.cfg, FIREWALL, p.next)
    ensures var op, ss := R.DeleteForwardingsBy(self, what), Project(p.cfg);
            Makes(p, Calls(ss, op), R.Step(ss, op))
  {
    RemoveAllMakes(p, F.ForwardsBy(what, F.NameOf(Project(p.cfg), self)));
    hide Makes;
    hide Project;
  }

  function AllCalls(ss: seq<F.Section>, ops: seq<R.Op>): seq<Op>
    decreases |ops|
  {
    if ops == [] then [] else Calls(ss, ops[0]) + AllCalls(R.Step(ss, ops[0]), ops[1..])
  }

  predicate AllCallable(ops: seq<R.Op>) {
    forall i :: 0 <= i < |ops| ==> Callable(ops[i])
  }

  /** Any run of firewall operations, as calls to the store. */
  lemma {:induction false} RunMakes(p: Plain, ops: seq<R.Op>)
    requires Roomy(p.cfg, FIREWALL, p.next) && R.AllAllowed(Project(p.cfg), ops) && AllCallable(ops)
    ensures Makes(p, AllCalls(Project(p.cfg), ops), R.Run(Project(p.cfg), ops))
    decreases |ops|
  {
    hide Makes;
    hide Project;
    hide Roomy;
    hide Calls;
    hide R.Step;
    hide R.Allowed;
    hide Callable;
    hide PlainRun;
    if ops == [] {
      MakesNothing(p);
    } else {
      var ss, calls := Project(p.cfg), Calls(Project(p.cfg), ops[0]);
      var ss' := R.Step(ss, ops[0]);
      StepMakes(p, ops[0]);
      MakesRoomy(p, calls, ss');
      RunMakes(PlainRun(p, calls), ops[1..]);
      MakesThen(p, calls, ss', AllCalls(ss', ops[1..]), R.Run(ss', ops[1..]));
    }
  }

  // ----- on the store -----

  /** No option is marked for deletion on its own, and loaded sections still have what was loaded. */
  ghost predicate IntactAt(st: Store, loaded: Config, id: Id) {
    Dropped(st, id) == {} && (id in loaded ==> id in st.values && loaded[id].Keys <= st.values[id].Keys)
  }

  ghost predicate Intact(st: Store, loaded: Config) {
    forall id :: IntactAt(st, loaded, id)
  }

  lemma SameIntact(st: Store, st': Store, loaded: Config, id: Id)
    requires SameAt(st, st', id) && IntactAt(st, loaded, id)
    ensures IntactAt(st', loaded, id)
  {
  }

  lemma SetIntact(st: Store, loaded: Config, id: Id, opt: string, val: Option<Value>)
    requires IntactAt(st, loaded, id) && ((val.Some? && val.value != Str("")) || id in st.creates)
    ensures IntactAt(AfterSet(st, id, opt, val), loaded, id)
  {
  }

  lemma StepIntactAt(s: State, loaded: Config, op: Op)
    requires !op.OpMove? && IntactAt(s.st, loaded, op.id) && Gentle(Meaning(s), op)
    ensures IntactAt(StoreStep(s, op).st, loaded, op.id)
  {
    hide View;
    match op {
      case OpSet(id, opt, val) =>
        hide IntactAt;
        hide AfterSet;
        SetIntact(s.st, loaded, id, opt, val);
      case _ =>
    }
  }

  lemma StepIntact(s: State, loaded: Config, op: Op)
    requires Intact(s.st, loaded) && Gentle(Meaning(s), op)
    ensures Intact(StoreStep(s, op).st, loaded)
  {
    hide IntactAt;
    hide StoreStep;
    hide Meaning;
    hide SameAt;
    forall id: Id ensures IntactAt(StoreStep(s, op).st, loaded, id) {
      assert IntactAt(s.st, loaded, id);
      if op.id == id {
        StepIntactAt(s, loaded, op);
      } else {
        UciLost.OthersSame(s, op, id);
        SameIntact(s.st, StoreStep(s, op).st, loaded, id);
      }
    }
  }

  lemma {:induction false} RunIntact(s: State, loaded: Config, ops: seq<Op>)
    requires Consistent(s.st) && Intact(s.st, loaded)
    requires AllAllowed(Meaning(s), ops) && AllGentle(Meaning(s), ops)
    ensures Intact(StoreRun(s, ops).st, loaded)
    decreases |ops|
  {
    if ops != [] {
      hide Consistent;
      hide Intact;
      hide StoreStep;
      hide PlainStep;
      hide Meaning;
      hide Allowed;
      hide Gentle;
      StepIntact(s, loaded, ops[0]);
      StepRefines(s, s.st.values.Keys, ops[0]);
      RunIntact(StoreStep(s, ops[0]), loaded, ops[1..]);
    }
  }

  /**
   Any run of firewall operations, from any state of the store: after the calls they make, the
   firewall configuration is the list the run leaves, and still no option is marked for deletion.
   */
  lemma RunOnStore(s: State, loaded: Config, ops: seq<R.Op>)
    requires Consistent(s.st) && Intact(s.st, loaded) && Roomy(View(s.st), FIREWALL, s.next)
    requires R.AllAllowed(Project(View(s.st)), ops) && AllCallable(ops)
    ensures var calls := AllCalls(Project(View(s.st)), ops);
            var s' := StoreRun(s, calls);
            && AllAllowed(Meaning(s), calls)
            && Consistent(s'.st) && Intact(s'.st, loaded) && NoneStale(s'.st) && Roomy(View(s'.st), FIREWALL, s'.next)
            && Project(View(s'.st)) == R.Run(Project(View(s.st)), ops)
  {
    hide *;
    var calls := AllCalls(Project(View(s.st)), ops);
    MeaningOf(s);
    RunMakes(Meaning(s), ops);
    MakesMeans(Meaning(s), calls, R.Run(Project(View(s.st)), ops));
    RunRefines(s, s.st.values.Keys, calls);
    RunIntact(s, loaded, calls);
    RunRoomy(Meaning(s), calls, FIREWALL);
    MeaningOf(StoreRun(s, calls));
    IntactNoneStale(StoreRun(s, calls).st, loaded);
  }

  lemma MeaningOf(s: State)
    ensures Meaning(s).cfg == View(s.st) && Meaning(s).next == s.next
  {
  }

  lemma MakesMeans(p: Plain, ops: seq<Op>, ss: seq<F.Section>)
    ensures Makes(p, ops, ss) <==>
            AllAllowed(p, ops) && AllGentle(p, ops) && Project(PlainRun(p, ops).cfg) == ss
  {
  }

  /** What was proved of the firewall's rules holds of the configuration in the store. */
  lemma RunSoundOnStore(s: State, ops: seq<R.Op>)
    requires Consistent(s.st) && Intact(s.st, map[]) && Roomy(View(s.st), FIREWALL, s.next)
    requires R.AllAllowed(Project(View(s.st)), ops) && AllCallable(ops)
    requires R.Sound(Project(View(s.st)))
    ensures R.Sound(Project(View(StoreRun(s, AllCalls(Project(View(s.st)), ops)).st)))
  {
    hide *;
    RunOnStore(s, map[], ops);
    R.RunSound(Project(View(s.st)), ops);
  }

  lemma FreshIntact(loaded: Config)
    ensures var s := State(Store(loaded, map[], map[], map[]), 0);
            && Consistent(s.st) && Intact(s.st, loaded) && View(s.st) == loaded && s.st.values.Keys == loaded.Keys
            && Meaning(s) == Plain(loaded, 0, {})
  {
    FreshMeaning(loaded);
  }

  lemma IntactLosesNothing(st: Store, loaded: Config)
    requires Intact(st, loaded)
    ensures forall id, opt :: !Lost(st, loaded, id, opt)
  {
    forall id: Id, opt: string ensures !Lost(st, loaded, id, opt) {
      assert IntactAt(st, loaded, id);
    }
  }

  /** Saving after a run of firewall operations makes remote exactly what the run leaves. */
  lemma {:induction false} RunSaves(loaded: Config, ops: seq<R.Op>, names: map<Id, Id>, dels: seq<Id>, adds: seq<Id>,
                                    sets: seq<Id>)
    requires Roomy(loaded, FIREWALL, 0) && R.AllAllowed(Project(loaded), ops) && AllCallable(ops)
    requires var st := StoreRun(State(Store(loaded, map[], map[], map[]), 0), AllCalls(Project(loaded), ops)).st;
             && Naming(st, names) && UciSave.Lists(dels, st.deletes.Keys)
             && UciSave.Lists(adds, st.creates.Keys) && UciSave.Lists(sets, st.changes.Keys)
    ensures var st := StoreRun(State(Store(loaded, map[], map[], map[]), 0), AllCalls(Project(loaded), ops)).st;
            && Project(View(st)) == R.Run(Project(loaded), ops)
            && Shows(st, names, Saved(st, Contents(loaded), names, dels, adds, sets))
  {
    hide *;
    var s := State(Store(loaded, map[], map[], map[]), 0);
    var calls := AllCalls(Project(loaded), ops);
    FreshIntact(loaded);
    RunOnStore(s, loaded, ops);
    SavesUnlessLost(loaded, calls, names, dels, adds, sets);
    IntactLosesNothing(StoreRun(s, calls).st, loaded);
  }

  // ----- what `sections` shows of it -----

  /** No text that is marked for deletion is still in its loaded section. */
  ghost predicate NoneStaleAt(st: Store, sid: string) {
    At(sid) in st.values && At(sid) !in st.creates ==>
      forall opt :: opt in Dropped(st, At(sid)) && opt in st.values[At(sid)] ==> !st.values[At(sid)][opt].Str?
  }

  ghost predicate NoneStale(st: Store) {
    forall sid :: NoneStaleAt(st, sid)
  }

  lemma TextsWithout(v: Section, d: set<string>, c: Section)
    requires forall opt :: opt in d ==> opt !in c && !Dotted(opt)
    ensures Texts(v + c) == Texts(v - d + c) <==> forall opt :: opt in d && opt in v ==> !v[opt].Str?
    ensures KindOf(v + c) == KindOf(v - d + c)
  {
    var a, b := Texts(v + c), Texts(v - d + c);
    assert ".type" !in d;
    assert forall opt :: opt in b <==> opt in a && opt !in d;
    assert forall opt :: opt in b ==> b[opt] == a[opt];
    assert forall opt :: opt in d ==> (opt in a <==> opt in v && v[opt].Str?);
  }

  lemma ShownAt(st: Store, sid: string)
    requires Live(st, At(sid)) && TidyAt(st, At(sid))
    ensures Taken(sid, CopyAt(st, At(sid))) == TakenAt(View(st), sid) <==>
            At(sid) in st.creates
            || forall opt :: opt in Dropped(st, At(sid)) && opt in st.values[At(sid)] ==> !st.values[At(sid)][opt].Str?
  {
    var id := At(sid);
    ViewDomain(st, id);
    hide View;
    if id !in st.creates {
      TextsWithout(st.values[id], Dropped(st, id), Changed(st, id));
    }
    hide Texts;
    hide KindOf;
  }

  lemma TakenIndexed(sid: string, s: Section, i: nat)
    ensures Taken(sid, s[".index" := Number(i)]) == Taken(sid, s)
  {
    assert Texts(s[".index" := Number(i)]) == Texts(s);
  }

  /**
   `sections('firewall')` as the firewall goes through it. It is what readers of single options get if
   and only if no text marked for deletion is still there.
   */
  method RulesOf(u: Uci) returns (ss: seq<F.Section>)
    requires var st := u.Snapshot(); Consistent(st) && Indexed(View(st), FIREWALL) && Apart(View(st), FIREWALL)
    ensures ss == Project(View(u.Snapshot())) <==> NoneStale(u.Snapshot())
  {
    hide *;
    var sa, shown := SectionsOf(u, FIREWALL);
    ss := [];
    for i := 0 to |sa|
      invariant |ss| == i
      invariant forall k :: 0 <= k < i ==> ss[k] == Taken(sa[k], CopyAt(u.Snapshot(), Id(FIREWALL, sa[k])))
    {
      TakenIndexed(sa[i], CopyAt(u.Snapshot(), Id(FIREWALL, sa[i])), i);
      ss := ss + [Taken(sa[i], shown[i])];
    }
    ShownExactly(u.Snapshot(), sa, ss);
  }

  lemma ShownExactly(st: Store, sa: seq<string>, ss: seq<F.Section>)
    requires Consistent(st) && Apart(View(st), FIREWALL) && IsOrder(View(st), FIREWALL, sa)
    requires |ss| == |sa|
    requires forall i :: 0 <= i < |sa| ==> ss[i] == Taken(sa[i], CopyAt(st, Id(FIREWALL, sa[i])))
    ensures ss == Project(View(st)) <==> NoneStale(st)
  {
    var c := View(st);
    OrderIs(c, FIREWALL, sa);
    ProjectIs(c);
    SeenEach(c, sa);
    assert forall sid :: sid in sa <==> At(sid) in c by {
      hide Distinct;
      hide IndexOf;
    }
    hide *;
    forall sid: string
      ensures NoneStaleAt(st, sid) <==> (sid in sa ==> Taken(sid, CopyAt(st, At(sid))) == TakenAt(c, sid))
    {
      ShownOrGone(st, sid);
    }
    EachShown(st, c, sa, ss);
  }

  lemma ShownOrGone(st: Store, sid: string)
    requires Consistent(st)
    ensures NoneStaleAt(st, sid) <==>
            (At(sid) in View(st) ==> Taken(sid, CopyAt(st, At(sid))) == TakenAt(View(st), sid))
  {
    ViewDomain(st, At(sid));
    AtOne(st, At(sid));
    hide View;
    hide Consistent;
    hide TidyAt;
    hide Taken;
    hide TakenAt;
    hide CopyAt;
    if Live(st, At(sid)) {
      ShownAt(st, sid);
    }
  }

  lemma EachShown(st: Store, c: Config, sa: seq<string>, ss: seq<F.Section>)
    requires |ss| == |sa| == |Seen(c, sa)|
    requires forall i :: 0 <= i < |sa| ==>
               ss[i] == Taken(sa[i], CopyAt(st, Id(FIREWALL, sa[i]))) && Seen(c, sa)[i] == TakenAt(c, sa[i])
    requires forall sid: string ::
               NoneStaleAt(st, sid) <==> (sid in sa ==> Taken(sid, CopyAt(st, At(sid))) == TakenAt(c, sid))
    ensures ss == Seen(c, sa) <==> NoneStale(st)
  {
    hide Seen;
    hide Taken;
    hide TakenAt;
    hide CopyAt;
    hide NoneStaleAt;
    if ss == Seen(c, sa) {
      forall sid: string ensures NoneStaleAt(st, sid) {
        if sid in sa {
          var i :| 0 <= i < |sa| && sa[i] == sid;
          assert Seen(c, sa)[i] == TakenAt(c, sid);
        }
      }
    }
    if NoneStale(st) {
      forall i | 0 <= i < |sa| ensures ss[i] == Seen(c, sa)[i] {
        assert sa[i] in sa && NoneStaleAt(st, sa[i]);
      }
    }
  }

  lemma IntactNoneStale(st: Store, loaded: Config)
    requires Intact(st, loaded)
    ensures NoneStale(st)
  {
    forall sid: string ensures NoneStaleAt(st, sid) {
      assert IntactAt(st, loaded, At(sid));
    }
  }

  /** A zone whose name was deleted is still found under it, though no reader sees a zone of that name. */
  lemma DeletedNameIsFound(sid: string, x: string, u: Section)
    requires sid != x && ".type" in u && u[".type"] == Str("zone")
    ensures var id := At(sid);
            var s := State(Store(map[id := u["name" := Str(x)]], map[], map[], map[]), 0);
            var st := StoreRun(s, [OpSet(id, "name", None)]).st;
            && F.LookupZone([Taken(sid, CopyAt(st, id))], x) == Some(sid)
            && F.LookupZone([TakenAt(View(st), sid)], x) == None
  {
    var id := At(sid);
    var zone := u["name" := Str(x)];
    var s := State(Store(map[id := zone], map[], map[], map[]), 0);
    var op := OpSet(id, "name", None);
    var st := StoreStep(s, op).st;
    assert StoreRun(StoreStep(s, op), []) == StoreStep(s, op);
    assert [op][1..] == [];
    assert Dropped(st, id) == {"name"} && Changed(st, id) == map[];
    ViewDomain(st, id);
    hide StoreRun;
    hide View;
    assert CopyAt(st, id) == zone;
    assert View(st)[id] == zone - {"name"};
    OneZone(Taken(sid, zone), x);
    OneZone(TakenAt(View(st), sid), x);
  }

  lemma OneZone(s: F.Section, name: string)
    requires s.sid != name && s.kind == "zone"
    ensures F.LookupZone([s], name) == if F.Opt(s, "name") == Some(name) then Some(s.sid) else None
  {
    assert [s][..0] == [] && [s][1..] == [];
    assert F.Find([s], name) == None;
    assert F.FirstNamed([], name) == None;
  }

  /** One firewall operation on the store itself, from the list that `sections` shows. */
  method Apply(u: Uci, op: R.Op)
    requires var st := u.Snapshot(); Consistent(st) && Intact(st, map[]) && Roomy(View(st), FIREWALL, u.newidx)
    requires R.Allowed(Project(View(u.Snapshot())), op) && Callable(op)
    modifies u
    ensures var st := u.Snapshot(); Consistent(st) && Intact(st, map[]) && Roomy(View(st), FIREWALL, u.newidx)
    ensures Project(View(u.Snapshot())) == R.Step(Project(View(old(u.Snapshot()))), op)
  {
    hide *;
    ghost var s := State(u.Snapshot(), u.newidx);
    RoomyIndexed(View(s.st), FIREWALL, u.newidx);
    IntactNoneStale(s.st, map[]);
    LoadedIs(u);
    OneOperation(s, op);
    var ss := RulesOf(u);
    var _ := Session(u, Calls(ss, op));
  }

  lemma OneOperation(s: State, op: R.Op)
    requires Consistent(s.st) && Intact(s.st, map[]) && Roomy(View(s.st), FIREWALL, s.next)
    requires R.Allowed(Project(View(s.st)), op) && Callable(op)
    ensures var calls := Calls(Project(View(s.st)), op);
            var s' := StoreRun(s, calls);
            && AllAllowed(Meaning(s), calls)
            && Consistent(s'.st) && Intact(s'.st, map[]) && Roomy(View(s'.st), FIREWALL, s'.next)
            && Project(View(s'.st)) == R.Step(Project(View(s.st)), op)
  {
    hide *;
    OneIsRun(Project(View(s.st)), op);
    RunOnStore(s, map[], [op]);
  }

  lemma OneIsRun(ss: seq<F.Section>, op: R.Op)
    ensures R.Run(ss, [op]) == R.Step(ss, op) && AllCalls(ss, [op]) == Calls(ss, op)
    ensures R.AllAllowed(ss, [op]) <==> R.Allowed(ss, op)
    ensures AllCallable([op]) <==> Callable(op)
  {
    hide Calls;
    hide R.Step;
    hide R.Allowed;
    hide Callable;
    assert [op][1..] == [] && [op][0] == op;
    var ss' := R.Step(ss, op);
    assert R.Run(ss', []) == ss' && R.AllAllowed(ss', []) && AllCalls(ss', []) == [];
    assert Calls(ss, op) + [] == Calls(ss, op);
  }
}
