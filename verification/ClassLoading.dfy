/** Every run of the class loader: replies in any order, requests at any time. */
module ClassLoading {
  import opened ClassLoader
  import opened Common

  // ----- which classes can be loaded at all -----

  /** A ranking of some classes, closed under requiring, in which dependencies come strictly lower. */
  ghost predicate Ranked(site: Site, rank: map<Name, nat>) {
    forall x :: x in rank ==>
      x in site.builtins || (x in site.files && forall d :: d in site.files[x] ==> d in rank && rank[d] < rank[x])
  }

  /** The class needs no cycle and no missing file. */
  ghost predicate Loadable(site: Site, n: Name) {
    exists rank: map<Name, nat> :: n in rank && Ranked(site, rank)
  }

  lemma DependencyLoadable(site: Site, n: Name, d: Name)
    requires Loadable(site, n) && n !in site.builtins && n in site.files && d in site.files[n]
    ensures Loadable(site, d)
  {
    var rank: map<Name, nat> :| n in rank && Ranked(site, rank);
    assert d in rank;
  }

  /** A built-in class is there from the start and needs nothing. */
  predicate Needs(site: Site, n: Name, d: Name) {
    n !in site.builtins && n in site.files && d in site.files[n]
  }

  // ----- what is requested, and in which order -----

  /** The names that are not known, each where it comes first. */
  function News(known: set<Name>, deps: seq<Name>): seq<Name> {
    if deps == [] then []
    else
      var front, last := deps[..|deps| - 1], deps[|deps| - 1];
      News(known, front) + if last in known || last in front then [] else [last]
  }

  ghost predicate Fetches(s: State, deps: seq<Name>, from: seq<Name>, r: Outcome, n: nat) {
    && n <= |deps| && (if r.ok then n == |deps| else n < |deps| && deps[n] in from)
    && r.state.fetched == s.fetched + News(s.classes.Keys, deps[..n])
    && forall x :: x in r.state.classes <==> x in s.classes || x in deps[..n]
  }

  lemma {:induction false} RequiresFetch(s: State, deps: seq<Name>, from: seq<Name>) returns (n: nat)
    ensures Fetches(s, deps, from, AfterRequires(s, deps, from), n)
    decreases |deps|
  {
    n := 0;
    if deps != [] {
      var k := |deps| - 1;
      n := RequiresFetch(s, deps[..k], from);
      var r := AfterRequires(s, deps[..k], from);
      var n' := RequireFetches(s, deps, from, r, n);
      n := n';
    }
  }

  lemma NewsNext(known: set<Name>, deps: seq<Name>, d: Name)
    ensures News(known, deps + [d]) == News(known, deps) + if d in known || d in deps then [] else [d]
  {
    assert (deps + [d])[..|deps|] == deps;
  }

  lemma RequireFetches(s: State, deps: seq<Name>, from: seq<Name>, r: Outcome, n: nat) returns (m: nat)
    requires deps != [] && Fetches(s, deps[..|deps| - 1], from, r, n)
    ensures Fetches(s, deps, from, if r.ok then AfterRequire(r.state, deps[|deps| - 1], from) else r, m)
  {
    var k := |deps| - 1;
    var front, d := deps[..k], deps[k];
    hide News;
    m := n;
    if r.ok && (d !in r.state.classes || d !in from) {
      m := k + 1;
      assert front[..k] == front;
      assert deps[..m] == deps == front + [d];
      var news := News(s.classes.Keys, front);
      NewsNext(s.classes.Keys, front, d);
      assert s.fetched + (news + [d]) == s.fetched + news + [d] && s.fetched + (news + []) == s.fetched + news;
    } else {
      assert front[..n] == deps[..n];
    }
  }

  /**
   A reply sends a request for each dependency that is not known, once, in the order of the file and after all
   others, up to the first that is in the chain of requesters; for a missing file it sends none.
   */
  lemma ReplyFetches(site: Site, s: State, name: Name) returns (n: nat)
    requires name in s.classes && s.classes[name].Requested?
    ensures var t := AfterReply(site, s, name);
            if name !in site.files then t.fetched == s.fetched
            else
              var deps := site.files[name];
              && n <= |deps| && (n < |deps| ==> deps[n] in s.classes[name].from && t.classes[name].Failed?)
              && (n == |deps| ==> t.classes[name].Waiting?)
              && t.fetched == s.fetched + News(s.classes.Keys, deps[..n])
  {
    n := 0;
    if name in site.files {
      n := RequiresFetch(s, site.files[name], s.classes[name].from);
      hide AfterRequires;
    }
  }

  // ----- the invariant -----

  /** Every class in the chain was required by the next one. */
  ghost predicate Chain(site: Site, from: seq<Name>) {
    && (forall i :: 0 <= i < |from| ==> from[i] !in site.builtins)
    && forall i, j :: 0 <= i < j < |from| && j == i + 1 ==> Needs(site, from[j], from[i])
  }

  /** A class was instantiated after all its dependencies. */
  ghost predicate InOrder(site: Site, order: seq<Name>) {
    forall i :: 0 <= i < |order| ==>
      order[i] in site.files && forall d :: d in site.files[order[i]] ==> d in site.builtins || d in order[..i]
  }

  /** A class that fails by itself: its file is missing, or it requires a class of its own chain. */
  ghost predicate Culprit(site: Site, s: State, n: Name) {
    && n in s.classes && s.classes[n].Failed?
    && (n !in site.files || exists d :: d in site.files[n] && d in s.classes[n].from)
  }

  ghost predicate Path(site: Site, path: seq<Name>) {
    forall i, j :: 0 <= i < j < |path| && j == i + 1 ==> Needs(site, path[i], path[j])
  }

  ghost predicate LeadsToCulprit(site: Site, s: State, n: Name) {
    exists path: seq<Name> :: path != [] && path[0] == n && Path(site, path) && Culprit(site, s, path[|path| - 1])
  }

  ghost predicate Linked(site: Site, from: seq<Name>, n: Name) {
    from != [] && from[0] == n && Chain(site, from)
  }

  predicate Known(s: State, names: seq<Name>) {
    forall n :: n in names ==> n in s.classes
  }

  ghost predicate EntryOk(site: Site, s: State, n: Name)
    requires n in s.classes
  {
    match s.classes[n]
    case Requested(from) => Linked(site, from, n) && Known(s, from)
    case Waiting(from) =>
      Linked(site, from, n) && Known(s, from) && n in site.files && forall d :: d in site.files[n] ==> d in s.classes
    case Ready => true
    case Failed(from) => !Loadable(site, n) && LeadsToCulprit(site, s, n)
  }

  /** Each class is fetched at most once and instantiated at most once, after its dependencies. */
  ghost predicate Once(site: Site, s: State) {
    && Distinct(s.fetched) && Distinct(s.order) && InOrder(site, s.order)
    && (forall n :: n in s.classes <==> n in site.builtins || n in s.fetched)
    && (forall n :: n in s.fetched ==> n !in site.builtins)
    && (forall n :: n in s.classes ==> (s.classes[n] == Ready <==> n in site.builtins || n in s.order))
    && (forall n :: n in s.order ==> n in s.fetched)
  }

  ghost predicate Sound(site: Site, s: State) {
    Once(site, s) && forall n :: n in s.classes ==> EntryOk(site, s, n)
  }

  // ----- cycles -----

  /** Down a chain the ranks fall. */
  lemma {:induction false} ChainFalls(site: Site, rank: map<Name, nat>, from: seq<Name>, k: nat)
    requires Ranked(site, rank) && Chain(site, from) && k < |from| && from[k] in rank
    ensures from[0] in rank && rank[from[0]] <= rank[from[k]]
    decreases k
  {
    if k > 0 {
      assert Needs(site, from[k], from[k - 1]);
      ChainFalls(site, rank, from, k - 1);
    }
  }

  ghost predicate DependsOnItself(site: Site, n: Name) {
    exists path: seq<Name> :: |path| > 1 && path[0] == n && path[|path| - 1] == n && Path(site, path)
  }

  /** A DependencyError is raised for a class on a cycle only. */
  lemma CycleIsNotLoadable(site: Site, from: seq<Name>, n: Name, d: Name)
    requires Linked(site, from, n) && n in site.files && d in site.files[n] && d in from
    ensures DependsOnItself(site, n) && !Loadable(site, n)
  {
    // From the class up its chain to the dependency, and down again.
    assert DependsOnItself(site, n) by {
      var k :| 0 <= k < |from| && from[k] == d;
      var path := [n] + seq(k + 1, i requires 0 <= i <= k => from[k - i]);
      forall i, j | 0 <= i < j < |path| && j == i + 1 ensures Needs(site, path[i], path[j]) {
        assert i > 0 ==> Needs(site, from[k - (i - 1)], from[k - i]);
      }
      assert |path| > 1 && path[0] == n && path[|path| - 1] == n;
    }
    if Loadable(site, n) {
      var rank: map<Name, nat> :| n in rank && Ranked(site, rank);
      var k :| 0 <= k < |from| && from[k] == d;
      assert n !in site.builtins;
      ChainFalls(site, rank, from, k);
      assert false;
    }
  }

  // ----- every event keeps the invariant -----

  /** Nothing but new requests. */
  ghost predicate Grows(s: State, s': State) {
    && (forall n :: n in s.classes ==> n in s'.classes && s'.classes[n] == s.classes[n])
    && (forall n :: n in s'.classes && n !in s.classes ==> s'.classes[n].Requested?)
  }

  lemma StillLeads(site: Site, s: State, s': State, n: Name)
    requires LeadsToCulprit(site, s, n)
    requires forall m :: m in s.classes && s.classes[m].Failed? ==> m in s'.classes && s'.classes[m] == s.classes[m]
    ensures LeadsToCulprit(site, s', n)
  {
    var path: seq<Name> :| path != [] && path[0] == n && Path(site, path) && Culprit(site, s, path[|path| - 1]);
    assert Culprit(site, s', path[|path| - 1]);
  }

  lemma KeepsEntry(site: Site, s: State, s': State, n: Name)
    requires n in s.classes && EntryOk(site, s, n)
    requires n in s'.classes && s'.classes[n] == s.classes[n]
    requires forall m :: m in s.classes ==> m in s'.classes
    requires forall m :: m in s.classes && s.classes[m].Failed? ==> s'.classes[m] == s.classes[m]
    ensures EntryOk(site, s', n)
  {
    if s.classes[n].Failed? {
      StillLeads(site, s, s', n);
    }
  }

  lemma LinkedNext(site: Site, from: seq<Name>, name: Name)
    requires Chain(site, from) && name !in site.builtins
    requires from != [] ==> Needs(site, from[0], name)
    ensures Linked(site, [name] + from, name)
  {
    var chain := [name] + from;
    forall i, j | 0 <= i < j < |chain| && j == i + 1 ensures Needs(site, chain[j], chain[i]) {
      assert i > 0 ==> chain[i] == from[i - 1] && chain[j] == from[j - 1];
    }
  }

  lemma RequestOnce(site: Site, s: State, name: Name, from: seq<Name>)
    requires Once(site, s) && name !in s.classes
    ensures Once(site, AfterRequire(s, name, from).state)
  {
    assert name !in s.fetched;
  }

  lemma RequireSound(site: Site, s: State, name: Name, from: seq<Name>)
    requires Sound(site, s) && Chain(site, from) && Known(s, from)
    requires from != [] ==> Needs(site, from[0], name)
    ensures var r := AfterRequire(s, name, from);
            Sound(site, r.state) && Grows(s, r.state) && name in r.state.classes && (r.ok <==> name !in from)
  {
    var s' := AfterRequire(s, name, from).state;
    if name !in s.classes {
      RequestOnce(site, s, name, from);
      LinkedNext(site, from, name);
      hide Once;
      hide Chain;
      forall n | n in s'.classes ensures EntryOk(site, s', n) {
        if n != name {
          KeepsEntry(site, s, s', n);
        }
      }
    }
  }

  lemma GrowsOn(s: State, s': State, s'': State)
    requires Grows(s, s') && Grows(s', s'')
    ensures Grows(s, s'')
  {
  }

  lemma {:induction false} RequiresSound(site: Site, s: State, deps: seq<Name>, from: seq<Name>)
    requires Sound(site, s) && Chain(site, from) && Known(s, from) && from != []
    requires forall d :: d in deps ==> Needs(site, from[0], d)
    ensures var r := AfterRequires(s, deps, from);
            && Sound(site, r.state) && Grows(s, r.state)
            && (r.ok ==> Known(r.state, deps))
            && (r.ok <==> forall d :: d in deps ==> d !in from)
    decreases |deps|
  {
    hide Sound;
    hide Chain;
    if deps != [] {
      var front, last := deps[..|deps| - 1], deps[|deps| - 1];
      assert deps == front + [last];
      RequiresSound(site, s, front, from);
      var r := AfterRequires(s, front, from);
      if r.ok {
        hide AfterRequire;
        RequireSound(site, r.state, last, from);
        GrowsOn(s, r.state, AfterRequire(r.state, last, from).state);
      }
    }
  }

  /** An entry changes for one of the two ways to end, or to wait. */
  lemma MovesOn(site: Site, s: State, n: Name, entry: Entry)
    requires Sound(site, s) && n in s.classes && !s.classes[n].Failed?
    requires !s.classes[n].Ready? && !entry.Ready? && EntryOk(site, s.(classes := s.classes[n := entry]), n)
    ensures Sound(site, s.(classes := s.classes[n := entry]))
  {
    var s' := s.(classes := s.classes[n := entry]);
    assert Once(site, s');
    hide Once;
    forall m | m in s'.classes ensures EntryOk(site, s', m) {
      if m != n {
        KeepsEntry(site, s, s', m);
      }
    }
  }

  lemma FailsItself(site: Site, s: State, n: Name)
    requires Culprit(site, s, n)
    ensures LeadsToCulprit(site, s, n)
  {
    var path := [n];
    assert path != [] && path[0] == n && Path(site, path) && Culprit(site, s, path[|path| - 1]);
  }

  lemma ReplySound(site: Site, s: State, n: Name)
    requires Sound(site, s) && n in s.classes && s.classes[n].Requested?
    ensures Sound(site, AfterReply(site, s, n))
  {
    var from, s' := s.classes[n].from, AfterReply(site, s, n);
    assert EntryOk(site, s, n);
    if n !in site.files {
      NotInFiles(site, n);
      FailsItself(site, s', n);
      MovesOn(site, s, n, s'.classes[n]);
    } else {
      RequiresSound(site, s, site.files[n], from);
      var r := AfterRequires(s, site.files[n], from);
      if !r.ok {
        var d :| d in site.files[n] && d in from;
        CycleIsNotLoadable(site, from, n, d);
        assert Culprit(site, s', n);
        FailsItself(site, s', n);
      }
      MovesOn(site, r.state, n, s'.classes[n]);
    }
  }

  lemma NotInFiles(site: Site, n: Name)
    requires n !in site.files && n !in site.builtins
    ensures !Loadable(site, n)
  {
  }

  lemma SettleSound(site: Site, s: State, n: Name)
    requires Sound(site, s) && n in s.classes && s.classes[n].Waiting? && n in site.files
    ensures Sound(site, AfterSettle(site, s, n))
  {
    var s', deps := AfterSettle(site, s, n), site.files[n];
    assert EntryOk(site, s, n);
    if HasFailed(s, deps) {
      var d :| d in deps && d in s.classes && s.classes[d].Failed?;
      FailsAfter(site, s, s', n, d);
      MovesOn(site, s, n, s'.classes[n]);
    } else if AllReady(s, deps) {
      ReadyOnce(site, s, n);
      hide Once;
      forall m | m in s'.classes ensures EntryOk(site, s', m) {
        if m != n {
          KeepsEntry(site, s, s', m);
        }
      }
    }
  }

  lemma FailsAfter(site: Site, s: State, s': State, n: Name, d: Name)
    requires d in s.classes && s.classes[d].Failed? && EntryOk(site, s, d)
    requires n !in site.builtins && Needs(site, n, d) && n in s.classes && !s.classes[n].Failed?
    requires exists from :: s' == s.(classes := s.classes[n := Failed(from)])
    ensures !Loadable(site, n) && LeadsToCulprit(site, s', n)
  {
    if Loadable(site, n) {
      DependencyLoadable(site, n, d);
      assert false;
    }
    StillLeads(site, s, s', d);
    var path: seq<Name> :| path != [] && path[0] == d && Path(site, path) && Culprit(site, s', path[|path| - 1]);
    var longer := [n] + path;
    forall i, j | 0 <= i < j < |longer| && j == i + 1 ensures Needs(site, longer[i], longer[j]) {
      assert i > 0 ==> longer[i] == path[i - 1] && longer[j] == path[j - 1];
    }
    assert longer[0] == n && longer[|longer| - 1] == path[|path| - 1];
  }

  lemma ReadyOnce(site: Site, s: State, n: Name)
    requires Once(site, s) && n in s.classes && !s.classes[n].Ready? && n in site.files && AllReady(s, site.files[n])
    ensures Once(site, s.(classes := s.classes[n := Ready], order := s.order + [n]))
  {
    var order := s.order + [n];
    forall i | 0 <= i < |order|
      ensures order[i] in site.files && forall d :: d in site.files[order[i]] ==> d in site.builtins || d in order[..i]
    {
      if i < |s.order| {
        assert order[..i] == s.order[..i];
      } else {
        assert order[..i] == s.order;
      }
    }
  }

  // ----- runs -----

  datatype Event = Load(name: Name) | Reply(name: Name) | Settle(name: Name)

  /** An event that cannot happen changes nothing. */
  function AfterEvent(site: Site, s: State, e: Event): State {
    match e
    case Load(n) => AfterRequire(s, n, []).state
    case Reply(n) => if n in s.classes && s.classes[n].Requested? then AfterReply(site, s, n) else s
    case Settle(n) =>
      if n in s.classes && s.classes[n].Waiting? && n in site.files then AfterSettle(site, s, n) else s
  }

  function Run(site: Site, events: seq<Event>): State {
    if events == [] then Initial(site)
    else AfterEvent(site, Run(site, events[..|events| - 1]), events[|events| - 1])
  }

  lemma EventSound(site: Site, s: State, e: Event)
    requires Sound(site, s)
    ensures Sound(site, AfterEvent(site, s, e))
  {
    hide Sound;
    hide AfterReply;
    hide AfterSettle;
    hide AfterRequire;
    match e
    case Load(n) => RequireSound(site, s, n, []);
    case Reply(n) => if n in s.classes && s.classes[n].Requested? { ReplySound(site, s, n); }
    case Settle(n) =>
      if n in s.classes && s.classes[n].Waiting? && n in site.files { SettleSound(site, s, n); }
  }

  /** Whatever is requested and in whatever order replies and results come. */
  lemma {:induction false} RunSound(site: Site, events: seq<Event>)
    ensures Sound(site, Run(site, events))
    decreases |events|
  {
    assert Sound(site, Initial(site));
    if events != [] {
      RunSound(site, events[..|events| - 1]);
      EventSound(site, Run(site, events[..|events| - 1]), events[|events| - 1]);
    }
  }

  /** No request is open and no class can be settled. */
  ghost predicate Quiet(site: Site, s: State) {
    forall e: Event :: !e.Load? ==> AfterEvent(site, s, e) == s
  }

  lemma QuietEntry(site: Site, s: State, n: Name)
    requires Sound(site, s) && Quiet(site, s) && n in s.classes
    ensures !s.classes[n].Requested?
    ensures s.classes[n].Waiting? ==>
      n in site.files && !HasFailed(s, site.files[n]) && !AllReady(s, site.files[n]) && Known(s, site.files[n])
  {
    assert EntryOk(site, s, n);
    assert AfterEvent(site, s, Settle(n)) == s;
    assert AfterEvent(site, s, Reply(n)) == s;
    if s.classes[n].Requested? {
      Replied(site, s, n);
    }
  }

  lemma Replied(site: Site, s: State, n: Name)
    requires n in s.classes && s.classes[n].Requested?
    ensures n in AfterReply(site, s, n).classes && !AfterReply(site, s, n).classes[n].Requested?
  {
  }

  /** A class that was instantiated is loadable: the order of instantiation ranks it. */
  lemma ReadyIsLoadable(site: Site, s: State, n: Name)
    requires Once(site, s) && n in s.classes && s.classes[n].Ready?
    ensures Loadable(site, n)
  {
    var rank := RankOf(site, s.order);
    forall x | x in rank && x !in site.builtins
      ensures x in site.files && forall d :: d in site.files[x] ==> d in rank && rank[d] < rank[x]
    {
      RankFalls(site, s.order, rank, x);
    }
    assert Ranked(site, rank);
  }

  lemma RankFalls(site: Site, order: seq<Name>, rank: map<Name, nat>, x: Name)
    requires Distinct(order) && InOrder(site, order) && rank == RankOf(site, order) && x in rank && x !in site.builtins
    ensures x in site.files && forall d :: d in site.files[x] ==> d in rank && rank[d] < rank[x]
  {
    hide RankOf;
    var i :| 0 <= i < |order| && order[i] == x;
    forall d | d in site.files[x] ensures d in rank && rank[d] < rank[x] {
      if d !in site.builtins {
        var j :| 0 <= j < i && order[..i][j] == d;
        assert order[j] == d;
      }
    }
  }

  ghost function RankOf(site: Site, order: seq<Name>): (rank: map<Name, nat>)
    requires Distinct(order)
    ensures forall x :: x in rank <==> x in site.builtins || x in order
    ensures forall x :: x in site.builtins ==> rank[x] == 0
    ensures forall i :: 0 <= i < |order| && order[i] !in site.builtins ==> rank[order[i]] == i + 1
  {
    if order == [] then map x | x in site.builtins :: 0
    else
      var n, last := |order| - 1, order[|order| - 1];
      assert order == order[..n] + [last];
      var front := RankOf(site, order[..n]);
      if last in site.builtins then front else front[last := n + 1]
  }

  /** When nothing more can happen, every loadable class that was asked for exists. */
  lemma {:induction false} LoadableIsReady(site: Site, s: State, rank: map<Name, nat>, n: Name)
    requires Sound(site, s) && Quiet(site, s) && Ranked(site, rank) && n in rank && n in s.classes
    ensures s.classes[n].Ready?
    decreases rank[n]
  {
    QuietEntry(site, s, n);
    assert EntryOk(site, s, n) && Loadable(site, n);
    if s.classes[n].Waiting? {
      assert n !in site.builtins;
      forall d | d in site.files[n] ensures s.classes[d].Ready? {
        LoadableIsReady(site, s, rank, d);
      }
    }
  }

  /**
   * A run that has come to rest has instantiated a requested class exactly if the class needs
   * no cycle and no missing file.
   */
  lemma LoadedExactly(site: Site, events: seq<Event>, n: Name)
    requires var s := Run(site, events); Quiet(site, s) && n in s.classes
    ensures Run(site, events).classes[n].Ready? <==> Loadable(site, n)
  {
    var s := Run(site, events);
    RunSound(site, events);
    if s.classes[n].Ready? {
      ReadyIsLoadable(site, s, n);
    } else if Loadable(site, n) {
      var rank: map<Name, nat> :| n in rank && Ranked(site, rank);
      LoadableIsReady(site, s, rank, n);
    }
  }

  /** No DependencyError comes out of the reply for a loadable class. */
  lemma NoErrorWhenLoadable(site: Site, s: State, n: Name)
    requires Sound(site, s) && n in s.classes && s.classes[n].Requested? && Loadable(site, n)
    ensures AfterReply(site, s, n).classes[n] == Waiting(s.classes[n].from)
  {
    var from := s.classes[n].from;
    assert EntryOk(site, s, n);
    if n !in site.files {
      NotInFiles(site, n);
      assert false;
    }
    RequiresSound(site, s, site.files[n], from);
    if d :| d in site.files[n] && d in from {
      CycleIsNotLoadable(site, from, n, d);
      assert false;
    }
  }

  // ----- acyclic sites -----

  ghost predicate Within(s: State, site: Site, rank: map<Name, nat>) {
    forall n :: n in s.classes ==> n in site.builtins || n in rank
  }

  lemma {:induction false} RequiresWithin(site: Site, s: State, deps: seq<Name>, from: seq<Name>, rank: map<Name, nat>)
    requires Within(s, site, rank) && forall d :: d in deps ==> d in rank
    ensures Within(AfterRequires(s, deps, from).state, site, rank)
    decreases |deps|
  {
    if deps != [] {
      assert deps == deps[..|deps| - 1] + [deps[|deps| - 1]];
      RequiresWithin(site, s, deps[..|deps| - 1], from, rank);
    }
  }

  lemma {:induction false} RunWithin(site: Site, events: seq<Event>, rank: map<Name, nat>)
    requires Ranked(site, rank) && forall i :: 0 <= i < |events| && events[i].Load? ==> events[i].name in rank
    ensures Within(Run(site, events), site, rank)
    decreases |events|
  {
    if events != [] {
      var front := events[..|events| - 1];
      RunWithin(site, front, rank);
      RunSound(site, front);
      var s := Run(site, front);
      var e := events[|events| - 1];
      assert Within(AfterEvent(site, s, e), site, rank) by {
        if e.Reply? && e.name in s.classes && s.classes[e.name].Requested? && e.name in site.files {
          assert EntryOk(site, s, e.name);
          RequiresWithin(site, s, site.files[e.name], s.classes[e.name].from, rank);
        }
      }
    }
  }

  /**
   * Without cycles, whatever the order of replies: nothing fails, and when the run comes to rest
   * every class asked for, directly or as a dependency, exists.
   */
  lemma AcyclicLoadsAll(site: Site, events: seq<Event>, rank: map<Name, nat>)
    requires Ranked(site, rank) && forall i :: 0 <= i < |events| && events[i].Load? ==> events[i].name in rank
    ensures var s := Run(site, events);
            && (forall n :: n in s.classes ==> !s.classes[n].Failed?)
            && (Quiet(site, s) ==> forall n :: n in s.classes ==> s.classes[n].Ready?)
  {
    var s := Run(site, events);
    RunSound(site, events);
    RunWithin(site, events, rank);
    forall n | n in s.classes ensures !s.classes[n].Failed? && (Quiet(site, s) ==> s.classes[n].Ready?) {
      assert EntryOk(site, s, n);
      if n !in site.builtins {
        assert Loadable(site, n);
        if Quiet(site, s) {
          LoadableIsReady(site, s, rank, n);
        }
      }
    }
  }

  // ----- how a class fails -----

  lemma ReadyNeeds(site: Site, s: State, n: Name, d: Name)
    requires Sound(site, s) && n in s.classes && s.classes[n].Ready? && Needs(site, n, d)
    ensures d in s.classes && s.classes[d].Ready?
  {
    var i :| 0 <= i < |s.order| && s.order[i] == n;
    assert d in site.builtins || d in s.order[..i];
    assert d in s.order[..i] ==> d in s.order;
  }

  lemma PathRest(site: Site, path: seq<Name>)
    requires Path(site, path) && |path| > 1
    ensures Needs(site, path[0], path[1]) && Path(site, path[1..]) && path[1..][|path| - 2] == path[|path| - 1]
  {
    var rest := path[1..];
    forall i, j | 0 <= i < j < |rest| && j == i + 1 ensures Needs(site, rest[i], rest[j]) {
      assert rest[i] == path[i + 1] && rest[j] == path[j + 1];
    }
  }

  lemma {:induction false} CulpritFailsAll(site: Site, s: State, path: seq<Name>)
    requires Sound(site, s) && Quiet(site, s) && path != [] && Path(site, path) && path[0] in s.classes
    requires Culprit(site, s, path[|path| - 1])
    ensures s.classes[path[0]].Failed?
    decreases |path|
  {
    var n := path[0];
    QuietEntry(site, s, n);
    hide Sound;
    hide Quiet;
    if |path| > 1 && !s.classes[n].Failed? {
      PathRest(site, path);
      hide Path;
      hide Culprit;
      if s.classes[n].Ready? {
        ReadyNeeds(site, s, n, path[1]);
      }
      CulpritFailsAll(site, s, path[1..]);
    }
  }

  /**
   * A run that has come to rest has rejected a class exactly if the class leads to one whose file
   * is missing or which requires a class of the chain that led to its own request.
   */
  lemma RejectedExactly(site: Site, events: seq<Event>, n: Name)
    requires var s := Run(site, events); Quiet(site, s) && n in s.classes
    ensures var s := Run(site, events); s.classes[n].Failed? <==> LeadsToCulprit(site, s, n)
  {
    var s := Run(site, events);
    RunSound(site, events);
    assert EntryOk(site, s, n);
    if LeadsToCulprit(site, s, n) {
      var path: seq<Name> :| path != [] && path[0] == n && Path(site, path) && Culprit(site, s, path[|path| - 1]);
      CulpritFailsAll(site, s, path);
    }
  }

  // ----- every run comes to rest -----

  function Weight(s: State, n: Name): nat {
    if n !in s.classes then 3
    else match s.classes[n]
      case Requested(_) => 2
      case Waiting(_) => 1
      case _ => 0
  }

  /** The work left on some names. */
  function Effort(s: State, names: seq<Name>): (e: nat)
    ensures e <= 3 * |names|
  {
    if names == [] then 0 else Effort(s, names[..|names| - 1]) + Weight(s, names[|names| - 1])
  }

  ghost predicate Lighter(s: State, s': State) {
    forall n :: Weight(s', n) <= Weight(s, n)
  }

  lemma {:induction false} EffortFalls(s: State, s': State, names: seq<Name>, n: Name)
    requires Lighter(s, s')
    ensures Effort(s', names) <= Effort(s, names)
    ensures n in names && Weight(s', n) < Weight(s, n) ==> Effort(s', names) < Effort(s, names)
    decreases |names|
  {
    hide Weight;
    if names != [] {
      assert names == names[..|names| - 1] + [names[|names| - 1]];
      EffortFalls(s, s', names[..|names| - 1], n);
    }
  }

  lemma GrowsLighter(s: State, s': State)
    requires Grows(s, s')
    ensures Lighter(s, s')
  {
  }

  lemma ReplyLightens(site: Site, s: State, n: Name)
    requires Sound(site, s) && n in s.classes && s.classes[n].Requested?
    ensures Lighter(s, AfterReply(site, s, n)) && Weight(AfterReply(site, s, n), n) < Weight(s, n)
  {
    assert EntryOk(site, s, n);
    if n in site.files {
      RequiresSound(site, s, site.files[n], s.classes[n].from);
      GrowsLighter(s, AfterRequires(s, site.files[n], s.classes[n].from).state);
    }
  }

  /** Every reply and every result that changes the table leaves less to do. */
  lemma EventLightens(site: Site, s: State, e: Event, names: seq<Name>)
    requires Sound(site, s) && !e.Load? && AfterEvent(site, s, e) != s && e.name in names
    ensures Effort(AfterEvent(site, s, e), names) < Effort(s, names)
  {
    var s' := AfterEvent(site, s, e);
    if e.Reply? {
      ReplyLightens(site, s, e.name);
    }
    EffortFalls(s, s', names, e.name);
  }

  /** The classes the state and the site know of. */
  ghost predicate Covers(site: Site, s: State, names: seq<Name>) {
    && (forall n :: n in s.classes ==> n in names)
    && forall n, d :: n in site.files && d in site.files[n] ==> d in names
  }

  lemma {:induction false} RequiresCovered(site: Site, s: State, deps: seq<Name>, from: seq<Name>, names: seq<Name>)
    requires Covers(site, s, names) && forall d :: d in deps ==> d in names
    ensures Covers(site, AfterRequires(s, deps, from).state, names)
    decreases |deps|
  {
    if deps != [] {
      assert deps == deps[..|deps| - 1] + [deps[|deps| - 1]];
      RequiresCovered(site, s, deps[..|deps| - 1], from, names);
    }
  }

  lemma EventCovered(site: Site, s: State, e: Event, names: seq<Name>)
    requires Covers(site, s, names) && !e.Load?
    ensures Covers(site, AfterEvent(site, s, e), names)
    ensures AfterEvent(site, s, e) != s ==> e.name in names
  {
    if e.Reply? && e.name in site.files && e.name in s.classes && s.classes[e.name].Requested? {
      RequiresCovered(site, s, site.files[e.name], s.classes[e.name].from, names);
    }
  }

  function Continue(site: Site, s: State, events: seq<Event>): State {
    if events == [] then s
    else AfterEvent(site, Continue(site, s, events[..|events| - 1]), events[|events| - 1])
  }

  /** Each event is a reply or a result, and changes the table. */
  ghost predicate Effective(site: Site, s: State, events: seq<Event>) {
    events != [] ==>
      var front, e := events[..|events| - 1], events[|events| - 1];
      && Effective(site, s, front)
      && !e.Load? && AfterEvent(site, Continue(site, s, front), e) != Continue(site, s, front)
  }

  /** A loader left alone comes to rest: no more than three events for each name. */
  lemma {:induction false} ComesToRest(site: Site, s: State, events: seq<Event>, names: seq<Name>)
    requires Sound(site, s) && Covers(site, s, names) && Effective(site, s, events)
    ensures var s' := Continue(site, s, events);
            && Sound(site, s') && Covers(site, s', names)
            && |events| + Effort(s', names) <= Effort(s, names) <= 3 * |names|
    decreases |events|
  {
    if events != [] {
      hide *;
      var front, e := events[..|events| - 1], events[|events| - 1];
      assert var front, e := events[..|events| - 1], events[|events| - 1];
             && Effective(site, s, front)
             && !e.Load? && AfterEvent(site, Continue(site, s, front), e) != Continue(site, s, front)
             && Continue(site, s, events) == AfterEvent(site, Continue(site, s, front), e) by {
        hide AfterEvent;
      }
      ComesToRest(site, s, front, names);
      var s' := Continue(site, s, front);
      EventCovered(site, s', e, names);
      EventLightens(site, s', e, names);
      EventSound(site, s', e);
    }
  }

  // ----- a cycle need not be noticed -----

  const CROSSED := Site(map["a" := ["b", "c"], "b" := ["c"], "c" := ["b"]], {})

  function Table(a: Entry, b: Entry, c: Entry): map<Name, Entry> {
    map["a" := a, "b" := b, "c" := c]
  }

  lemma Crossed2(s: State)
    requires s.classes == map["a" := Requested(["a"])]
    ensures AfterEvent(CROSSED, s, Reply("a")).classes
      == Table(Waiting(["a"]), Requested(["b", "a"]), Requested(["c", "a"]))
  {
    RequireTwo(s, "b", "c", ["a"]);
    assert ["b"] + ["a"] == ["b", "a"] && ["c"] + ["a"] == ["c", "a"];
    assert "b" !in s.classes && "c" !in s.classes;
    assert "b" !in ["a"] && "c" !in ["a"];
  }

  lemma Crossed3(s: State)
    requires s.classes == Table(Waiting(["a"]), Requested(["b", "a"]), Requested(["c", "a"]))
    ensures AfterEvent(CROSSED, s, Reply("b")).classes ==
            Table(Waiting(["a"]), Waiting(["b", "a"]), Requested(["c", "a"]))
  {
    RequireOne(s, "c", ["b", "a"]);
    assert "c" !in ["b", "a"];
  }

  lemma Crossed4(s: State)
    requires s.classes == Table(Waiting(["a"]), Waiting(["b", "a"]), Requested(["c", "a"]))
    ensures AfterEvent(CROSSED, s, Reply("c")).classes ==
            Table(Waiting(["a"]), Waiting(["b", "a"]), Waiting(["c", "a"]))
  {
    RequireOne(s, "b", ["c", "a"]);
    assert "b" !in ["c", "a"];
  }

  lemma CrossedRests(s: State)
    requires s.classes == Table(Waiting(["a"]), Waiting(["b", "a"]), Waiting(["c", "a"]))
    ensures Quiet(CROSSED, s)
  {
    assert "c" in CROSSED.files["a"] && "c" in CROSSED.files["b"] && "b" in CROSSED.files["c"];
  }

  lemma RunFour(site: Site, w: Event, x: Event, y: Event, z: Event)
    ensures Run(site, [w, x, y, z]) ==
      AfterEvent(site, AfterEvent(site, AfterEvent(site, AfterEvent(site, Initial(site), w), x), y), z)
  {
    hide AfterEvent;
    hide Initial;
    assert [w][..0] == [];
    assert Run(site, [w]) == AfterEvent(site, Initial(site), w);
    assert [w, x][..1] == [w];
    assert [w, x, y][..2] == [w, x];
    assert Run(site, [w, x, y]) == AfterEvent(site, Run(site, [w, x]), y);
    assert [w, x, y, z][..3] == [w, x, y];
  }

  /**
   * Two classes that require each other, reached from a third that requires both: the documented
   * DependencyError does not come, and the three promises stay pending.
   */
  lemma CycleUnnoticed()
    ensures var s := Run(CROSSED, [Load("a"), Reply("a"), Reply("b"), Reply("c")]);
            && Quiet(CROSSED, s) && !Loadable(CROSSED, "a")
            && s.classes == Table(Waiting(["a"]), Waiting(["b", "a"]), Waiting(["c", "a"]))
  {
    var s0 := Initial(CROSSED);
    assert AfterEvent(CROSSED, s0, Load("a")) == State(map["a" := Requested(["a"])], ["a"], []) by {
      assert s0.classes == map[];
      assert ["a"] + [] == ["a"] && [] + ["a"] == ["a"];
    }
    hide *;
    var s1 := AfterEvent(CROSSED, s0, Load("a"));
    Crossed2(s1);
    var s2 := AfterEvent(CROSSED, s1, Reply("a"));
    Crossed3(s2);
    var s3 := AfterEvent(CROSSED, s2, Reply("b"));
    Crossed4(s3);
    CrossedRests(AfterEvent(CROSSED, s3, Reply("c")));
    RunFour(CROSSED, Load("a"), Reply("a"), Reply("b"), Reply("c"));
    CrossedNotLoadable();
  }

  lemma RequireOne(s: State, d: Name, from: seq<Name>)
    ensures AfterRequires(s, [d], from) == AfterRequire(s, d, from)
  {
    assert [d][..0] == [];
  }

  lemma RequireTwo(s: State, d: Name, d': Name, from: seq<Name>)
    ensures var r := AfterRequire(s, d, from);
            AfterRequires(s, [d, d'], from) == if r.ok then AfterRequire(r.state, d', from) else r
  {
    assert [d, d'][..1] == [d];
    RequireOne(s, d, from);
  }

  lemma CrossedNotLoadable()
    ensures !Loadable(CROSSED, "a")
  {
    assert "b" in CROSSED.files["a"] && "c" in CROSSED.files["b"] && "b" in CROSSED.files["c"];
  }
}
