/** Which cycles `LuCI.require` notices, told from the files on the server alone; one class is loaded. */
module ClassCycles {
  import opened ClassLoader
  import opened ClassLoading

  /** Apart from replies and results there are requests for one class only. */
  ghost predicate OnlyLoads(events: seq<Event>, n: Name) {
    forall i :: 0 <= i < |events| && events[i].Load? ==> events[i].name == n
  }

  /** The reply for `m` raises a DependencyError. */
  ghost predicate Raises(site: Site, s: State, m: Name) {
    && m in s.classes && s.classes[m].Requested? && m in site.files
    && !AfterRequires(s, site.files[m], s.classes[m].from).ok
  }

  ghost predicate MayRaise(site: Site, n: Name) {
    exists events, m :: OnlyLoads(events, n) && Raises(site, Run(site, events), m)
  }

  /** No class on the path needs one further on than the next. */
  ghost predicate Tight(site: Site, path: seq<Name>) {
    forall i, j :: 0 <= i && i + 1 < j < |path| ==> !Needs(site, path[i], path[j])
  }

  ghost predicate RunsInto(site: Site, path: seq<Name>) {
    path != [] && exists d :: Needs(site, path[|path| - 1], d) && d in path
  }

  /** A path without shortcuts that runs into itself. */
  ghost predicate Tangled(site: Site, n: Name) {
    exists path: seq<Name> :: path != [] && path[0] == n && Path(site, path) && Tight(site, path)
      && RunsInto(site, path)
  }

  // ----- chains are paths read backwards -----

  function Reversed(s: seq<Name>): (r: seq<Name>)
    ensures |r| == |s| && forall i :: 0 <= i < |s| ==> r[i] == s[|s| - 1 - i]
  {
    seq(|s|, i requires 0 <= i < |s| => s[|s| - 1 - i])
  }

  lemma ReversedMembers(s: seq<Name>, x: Name)
    ensures x in Reversed(s) <==> x in s
  {
    if x in s {
      var i :| 0 <= i < |s| && s[i] == x;
      assert Reversed(s)[|s| - 1 - i] == x;
    }
  }

  /** No class of the chain was needed earlier than by its requester. */
  ghost predicate TightChain(site: Site, from: seq<Name>) {
    forall i, j :: 0 <= i && i + 1 < j < |from| ==> !Needs(site, from[j], from[i])
  }

  lemma ChainIsPath(site: Site, from: seq<Name>)
    requires Chain(site, from)
    ensures Path(site, Reversed(from))
    ensures TightChain(site, from) ==> Tight(site, Reversed(from))
  {
    hide Needs;
    var path, k := Reversed(from), |from|;
    forall i, j | 0 <= i < j < |path| && j == i + 1 ensures Needs(site, path[i], path[j]) {
      assert Needs(site, from[k - 1 - i], from[k - 1 - j]);
    }
    if TightChain(site, from) {
      forall i, j | 0 <= i && i + 1 < j < |path| ensures !Needs(site, path[i], path[j]) {
        assert !Needs(site, from[k - 1 - i], from[k - 1 - j]);
      }
    }
  }

  // ----- runs in which no error was raised -----

  predicate Clear(site: Site, m: Name, from: seq<Name>) {
    forall d :: d in from ==> !Needs(site, m, d)
  }

  ghost predicate Ends(from: seq<Name>, n: Name) {
    from != [] && from[|from| - 1] == n
  }

  ghost predicate Listed(site: Site, s: State, from: seq<Name>) {
    forall i :: 1 <= i < |from| ==> from[i] in site.files && Known(s, site.files[from[i]])
  }

  /** In every run: chains go back to the class that was loaded, and a class that waits raised no error. */
  ghost predicate Rooted(site: Site, n: Name, s: State) {
    forall m :: m in s.classes ==> RootedEntry(site, n, s, m)
  }

  ghost predicate RootedEntry(site: Site, n: Name, s: State, m: Name)
    requires m in s.classes
  {
    match s.classes[m]
    case Requested(from) => Ends(from, n)
    case Waiting(from) => Ends(from, n) && Clear(site, m, from)
    case _ => true
  }

  ghost predicate NeatEntry(site: Site, s: State, m: Name)
    requires m in s.classes
  {
    match s.classes[m]
    case Requested(from) => TightChain(site, from) && Listed(site, s, from)
    case Failed(from) => Clear(site, m, from)
    case _ => true
  }

  /** As long as no error was raised. */
  ghost predicate Neat(site: Site, s: State) {
    forall m :: m in s.classes ==> NeatEntry(site, s, m)
  }

  /** New entries are requests from the class that requires them. */
  lemma {:induction false} RequiresAdd(s: State, deps: seq<Name>, from: seq<Name>)
    ensures var t := AfterRequires(s, deps, from).state;
            && (forall m :: m in s.classes ==> m in t.classes && t.classes[m] == s.classes[m])
            && forall m :: m in t.classes && m !in s.classes ==> m in deps && t.classes[m] == Requested([m] + from)
    decreases |deps|
  {
    if deps != [] {
      var front, last := deps[..|deps| - 1], deps[|deps| - 1];
      assert deps == front + [last];
      RequiresAdd(s, front, from);
    }
  }

  /** The table after a reply. */
  lemma ReplyTable(site: Site, s: State, m: Name)
    requires Sound(site, s) && m in s.classes && s.classes[m].Requested? && m in site.files
    ensures var from, t := s.classes[m].from, AfterReply(site, s, m);
            && m in t.classes
            && (t.classes[m] == Failed(from)
                || (t.classes[m] == Waiting(from) && Clear(site, m, from)))
            && forall x :: x in t.classes && x != m ==>
              if x in s.classes then t.classes[x] == s.classes[x] else t.classes[x] == Requested([x] + from)
  {
    var from, deps := s.classes[m].from, site.files[m];
    RequestedOk(site, s, m);
    RequiresSound(site, s, deps, from);
    RequiresAdd(s, deps, from);
    hide Sound;
    hide AfterRequires;
    hide Linked;
  }

  lemma RootedReply(site: Site, n: Name, s: State, m: Name)
    requires Sound(site, s) && Rooted(site, n, s) && m in s.classes && s.classes[m].Requested? && m in site.files
    ensures Rooted(site, n, AfterReply(site, s, m))
  {
    var from, t := s.classes[m].from, AfterReply(site, s, m);
    ReplyTable(site, s, m);
    assert RootedEntry(site, n, s, m);
    hide Sound;
    hide AfterReply;
    hide Clear;
    forall x | x in t.classes ensures RootedEntry(site, n, t, x) {
      if x != m {
        if x in s.classes {
          assert RootedEntry(site, n, s, x);
        } else {
          assert Ends([x] + from, n);
        }
      }
    }
  }

  lemma RequestedOk(site: Site, s: State, m: Name)
    requires Sound(site, s) && m in s.classes && s.classes[m].Requested?
    ensures var from := s.classes[m].from;
            Linked(site, from, m) && Chain(site, from) && Known(s, from) && from != []
            && (m in site.files ==> forall d :: d in site.files[m] ==> Needs(site, from[0], d))
  {
    assert EntryOk(site, s, m);
  }

  lemma RootedStep(site: Site, n: Name, s: State, e: Event)
    requires Sound(site, s) && Rooted(site, n, s) && (e.Load? ==> e.name == n)
    ensures Rooted(site, n, AfterEvent(site, s, e))
  {
    hide Sound;
    hide AfterRequires;
    var t := AfterEvent(site, s, e);
    if e.Reply? && e.name in s.classes && s.classes[e.name].Requested? && e.name in site.files {
      RootedReply(site, n, s, e.name);
    } else {
      forall x | x in t.classes ensures RootedEntry(site, n, t, x) {
        if x in s.classes {
          assert RootedEntry(site, n, s, x);
        }
      }
    }
  }

  lemma {:induction false} RunRooted(site: Site, events: seq<Event>, n: Name)
    requires OnlyLoads(events, n)
    ensures Rooted(site, n, Run(site, events))
    decreases |events|
  {
    if events != [] {
      var front := events[..|events| - 1];
      RunRooted(site, front, n);
      RunSound(site, front);
      RootedStep(site, n, Run(site, front), events[|events| - 1]);
    }
  }

  /** The chain of a class whose reply raises an error, read from its end. */
  lemma ErrorTangles(site: Site, n: Name, s: State, m: Name)
    requires Sound(site, s) && Rooted(site, n, s) && Neat(site, s) && Raises(site, s, m)
    ensures Tangled(site, n)
  {
    hide Sound;
    hide AfterRequires;
    hide Listed;
    var from := s.classes[m].from;
    RequestedOk(site, s, m);
    assert RootedEntry(site, n, s, m) && NeatEntry(site, s, m);
    RequiresSound(site, s, site.files[m], from);
    var d :| d in site.files[m] && d in from;
    var path := Reversed(from);
    ChainIsPath(site, from);
    ReversedMembers(from, d);
    assert path[0] == n && path[|path| - 1] == m;
    assert RunsInto(site, path);
  }

  lemma TightNext(site: Site, s: State, from: seq<Name>, d: Name)
    requires TightChain(site, from) && Listed(site, s, from) && d !in s.classes
    ensures TightChain(site, [d] + from)
  {
    var chain := [d] + from;
    forall i, j | 0 <= i && i + 1 < j < |chain| ensures !Needs(site, chain[j], chain[i]) {
      if i == 0 {
        assert chain[j] == from[j - 1];
        assert Known(s, site.files[from[j - 1]]);
      } else {
        assert chain[j] == from[j - 1] && chain[i] == from[i - 1];
      }
    }
  }

  lemma ListedNext(site: Site, s: State, from: seq<Name>, d: Name)
    requires Listed(site, s, from) && from != [] && from[0] in site.files && Known(s, site.files[from[0]])
    ensures Listed(site, s, [d] + from)
  {
    var chain := [d] + from;
    forall i | 1 <= i < |chain| ensures chain[i] in site.files && Known(s, site.files[chain[i]]) {
      assert chain[i] == from[i - 1];
    }
  }

  lemma ListedStays(site: Site, s: State, t: State, from: seq<Name>)
    requires Listed(site, s, from) && forall m :: m in s.classes ==> m in t.classes
    ensures Listed(site, t, from)
  {
    forall i | 1 <= i < |from| ensures from[i] in site.files && Known(t, site.files[from[i]]) {
      assert Known(s, site.files[from[i]]);
    }
  }

  lemma NeatReply(site: Site, n: Name, s: State, m: Name)
    requires Sound(site, s) && Neat(site, s) && m in s.classes && s.classes[m].Requested? && m in site.files
    requires !Raises(site, s, m)
    ensures Neat(site, AfterReply(site, s, m))
  {
    var from, deps, t := s.classes[m].from, site.files[m], AfterReply(site, s, m);
    var r := AfterRequires(s, deps, from);
    assert EntryOk(site, s, m) && NeatEntry(site, s, m);
    RequiresSound(site, s, deps, from);
    RequiresAdd(s, deps, from);
    assert from[0] == m;
    assert forall x :: x in t.classes <==> x in r.state.classes;
    ListedStays(site, s, t, from);
    assert Known(t, deps);
    hide AfterRequires;
    hide Sound;
    hide EntryOk;
    hide TightChain;
    hide Known;
    hide AfterReply;
    assert t == r.state.(classes := r.state.classes[m := Waiting(from)]) by { ReplyIs(site, s, m); }
    forall x | x in t.classes ensures NeatEntry(site, t, x) {
      if x != m && x in s.classes {
        assert t.classes[x] == s.classes[x] && NeatEntry(site, s, x);
        if t.classes[x].Requested? {
          ListedStays(site, s, t, t.classes[x].from);
        }
      } else if x != m {
        TightNext(site, s, from, x);
        ListedNext(site, t, from, x);
      }
    }
  }

  lemma ReplyIs(site: Site, s: State, m: Name)
    requires m in s.classes && s.classes[m].Requested? && m in site.files && !Raises(site, s, m)
    ensures var from := s.classes[m].from; var r := AfterRequires(s, site.files[m], from);
            r.ok && AfterReply(site, s, m) == r.state.(classes := r.state.classes[m := Waiting(from)])
  {
  }

  lemma NeatMissing(site: Site, s: State, m: Name)
    requires Neat(site, s) && m in s.classes && s.classes[m].Requested? && m !in site.files
    ensures Neat(site, AfterReply(site, s, m))
  {
    var t := AfterReply(site, s, m);
    forall x | x in t.classes ensures NeatEntry(site, t, x) {
      assert NeatEntry(site, s, x);
      if x != m && s.classes[x].Requested? {
        ListedStays(site, s, t, s.classes[x].from);
      }
    }
  }

  lemma NeatSettle(site: Site, n: Name, s: State, m: Name)
    requires Neat(site, s) && Rooted(site, n, s) && m in s.classes && s.classes[m].Waiting? && m in site.files
    ensures Neat(site, AfterSettle(site, s, m))
  {
    var t := AfterSettle(site, s, m);
    forall x | x in t.classes ensures NeatEntry(site, t, x) {
      assert NeatEntry(site, s, x);
      if x != m && s.classes[x].Requested? {
        ListedStays(site, s, t, s.classes[x].from);
      }
    }
  }

  lemma NeatLoad(site: Site, s: State, n: Name)
    requires Neat(site, s)
    ensures Neat(site, AfterRequire(s, n, []).state)
  {
    var t := AfterRequire(s, n, []).state;
    assert [n] + [] == [n];
    forall x | x in t.classes ensures NeatEntry(site, t, x) {
      if x in s.classes {
        assert NeatEntry(site, s, x);
        if s.classes[x].Requested? {
          ListedStays(site, s, t, s.classes[x].from);
        }
      }
    }
  }

  lemma NeatStep(site: Site, n: Name, s: State, e: Event)
    requires Sound(site, s) && Rooted(site, n, s) && Neat(site, s)
    ensures Neat(site, AfterEvent(site, s, e)) || Tangled(site, n)
  {
    hide Sound;
    hide Rooted;
    hide Neat;
    hide AfterReply;
    hide AfterSettle;
    hide AfterRequire;
    match e
    case Load(m) => NeatLoad(site, s, m);
    case Reply(m) =>
      if Raises(site, s, m) {
        ErrorTangles(site, n, s, m);
      } else if m in s.classes && s.classes[m].Requested? {
        hide Raises;
        if m in site.files {
          NeatReply(site, n, s, m);
        } else {
          NeatMissing(site, s, m);
        }
      }
    case Settle(m) =>
      if m in s.classes && s.classes[m].Waiting? && m in site.files {
        NeatSettle(site, n, s, m);
      }
  }

  lemma {:induction false} RunNeat(site: Site, events: seq<Event>, n: Name)
    requires OnlyLoads(events, n)
    ensures Neat(site, Run(site, events)) || Tangled(site, n)
    decreases |events|
  {
    if events != [] {
      hide AfterEvent;
      hide Neat;
      hide Tangled;
      var front := events[..|events| - 1];
      RunNeat(site, front, n);
      RunSound(site, front);
      RunRooted(site, front, n);
      if !Tangled(site, n) {
        NeatStep(site, n, Run(site, front), events[|events| - 1]);
      }
    }
  }

  // ----- an order of replies that raises the error -----

  /** The replies along a path, in turn. */
  function Replies(path: seq<Name>, k: nat): seq<Event>
    requires k <= |path| && path != []
  {
    if k == 0 then [Load(path[0])] else Replies(path, k - 1) + [Reply(path[k - 1])]
  }

  lemma {:induction false} RepliesLoadOnly(path: seq<Name>, k: nat)
    requires k <= |path| && path != []
    ensures OnlyLoads(Replies(path, k), path[0])
    decreases k
  {
    if k > 0 {
      RepliesLoadOnly(path, k - 1);
    }
  }

  /** What has been asked for once the first `k` classes of the path are there. */
  ghost predicate AskedBy(site: Site, s: State, path: seq<Name>, k: nat)
    requires k <= |path| && path != []
  {
    forall m :: m in s.classes ==>
      m in site.builtins || m == path[0] || exists j :: 0 <= j < k && Needs(site, path[j], m)
  }

  ghost predicate FreeSoFar(site: Site, path: seq<Name>, k: nat)
    requires k <= |path|
  {
    forall j :: 0 <= j < k ==> Clear(site, path[j], path[..j + 1])
  }

  ghost predicate Own(site: Site, path: seq<Name>) {
    forall j :: 0 <= j < |path| ==> path[j] !in site.builtins
  }

  lemma NextIsNew(site: Site, s: State, path: seq<Name>, k: nat)
    requires k + 1 < |path| && Path(site, path) && Tight(site, path) && Own(site, path)
    requires AskedBy(site, s, path, k) && FreeSoFar(site, path, k + 1)
    ensures path[k + 1] !in s.classes
  {
    var x := path[k + 1];
    assert Needs(site, path[k], x);
    assert Clear(site, path[k], path[..k + 1]);
    assert path[..k + 1][0] == path[0];
  }

  lemma ReversedNext(path: seq<Name>, k: nat)
    requires k + 1 < |path|
    ensures Reversed(path[..k + 2]) == [path[k + 1]] + Reversed(path[..k + 1])
  {
    var r, t := Reversed(path[..k + 2]), [path[k + 1]] + Reversed(path[..k + 1]);
    forall i | 0 <= i < |r| ensures r[i] == t[i] {
      if i > 0 {
        assert r[i] == path[k + 1 - i] && t[i] == Reversed(path[..k + 1])[i - 1];
      }
    }
  }

  lemma DriveStep(site: Site, s: State, path: seq<Name>, k: nat)
    requires k + 1 < |path| && Path(site, path) && Tight(site, path) && Own(site, path) && FreeSoFar(site, path, k + 1)
    requires Sound(site, s) && AskedBy(site, s, path, k)
    requires path[k] in s.classes && s.classes[path[k]] == Requested(Reversed(path[..k + 1]))
    ensures var t := AfterEvent(site, s, Reply(path[k]));
            && AskedBy(site, t, path, k + 1)
            && path[k + 1] in t.classes && t.classes[path[k + 1]] == Requested(Reversed(path[..k + 2]))
  {
    var m, from, x := path[k], Reversed(path[..k + 1]), path[k + 1];
    assert Needs(site, m, x);
    var deps := site.files[m];
    assert EntryOk(site, s, m);
    RequiresSound(site, s, deps, from);
    RequiresAdd(s, deps, from);
    NextIsNew(site, s, path, k);
    assert Clear(site, m, path[..k + 1]);
    forall d | d in deps ensures d !in from {
      ReversedMembers(path[..k + 1], d);
      assert Needs(site, m, d);
    }
    ReversedNext(path, k);
    hide Sound;
    hide Reversed;
    hide Path;
    hide Tight;
    hide Own;
    hide FreeSoFar;
    hide AfterRequires;
    var r, t := AfterRequires(s, deps, from), AfterEvent(site, s, Reply(m));
    assert r.ok && t.classes == r.state.classes[m := Waiting(from)];
    forall y | y in t.classes
      ensures y in site.builtins || y == path[0] || exists j :: 0 <= j < k + 1 && Needs(site, path[j], y)
    {
      if y !in s.classes {
        assert Needs(site, path[k], y);
      }
    }
  }

  lemma RepliesNext(path: seq<Name>, i: nat)
    requires i < |path|
    ensures Replies(path, i + 1) == Replies(path, i) + [Reply(path[i])]
  {
  }

  lemma RunLast(site: Site, events: seq<Event>, e: Event)
    ensures Run(site, events + [e]) == AfterEvent(site, Run(site, events), e)
  {
    hide AfterEvent;
    assert (events + [e])[..|events|] == events;
  }

  lemma RunOne(site: Site, e: Event)
    ensures Run(site, [e]) == AfterEvent(site, Initial(site), e)
  {
    assert [e][..0] == [];
  }

  lemma {:induction false} Drive(site: Site, path: seq<Name>, k: nat)
    requires k < |path| && Path(site, path) && Tight(site, path) && Own(site, path) && FreeSoFar(site, path, k)
    ensures var s := Run(site, Replies(path, k));
            && AskedBy(site, s, path, k)
            && path[k] in s.classes && s.classes[path[k]] == Requested(Reversed(path[..k + 1]))
    decreases k
  {
    hide *;
    if k == 0 {
      DriveStart(site, path);
    } else {
      Drive(site, path, k - 1) by { FreeEarlier(site, path, k); }
      RunSound(site, Replies(path, k - 1));
      RepliesNext(path, k - 1);
      RunLast(site, Replies(path, k - 1), Reply(path[k - 1]));
      DriveStep(site, Run(site, Replies(path, k - 1)), path, k - 1);
    }
  }

  lemma FreeEarlier(site: Site, path: seq<Name>, k: nat)
    requires 0 < k <= |path| && FreeSoFar(site, path, k)
    ensures FreeSoFar(site, path, k - 1)
  {
  }

  lemma DriveStart(site: Site, path: seq<Name>)
    requires path != [] && Own(site, path)
    ensures var s := Run(site, Replies(path, 0));
            && AskedBy(site, s, path, 0)
            && path[0] in s.classes && s.classes[path[0]] == Requested(Reversed(path[..1]))
  {
    RunOne(site, Load(path[0]));
    assert [path[0]] + [] == Reversed(path[..1]);
  }

  /** The first class of the path that needs one before it, or itself. */
  lemma {:induction false} FirstLoop(site: Site, path: seq<Name>, k: nat) returns (i: nat)
    requires k < |path| && !Clear(site, path[k], path[..k + 1])
    ensures i <= k && !Clear(site, path[i], path[..i + 1]) && FreeSoFar(site, path, i)
    decreases k
  {
    if FreeSoFar(site, path, k) {
      i := k;
    } else {
      var j :| 0 <= j < k && !Clear(site, path[j], path[..j + 1]);
      i := FirstLoop(site, path, j);
    }
  }

  lemma PathOwn(site: Site, path: seq<Name>)
    requires Path(site, path) && RunsInto(site, path)
    ensures Own(site, path)
  {
    forall j | 0 <= j < |path| ensures path[j] !in site.builtins {
      if j + 1 < |path| {
        assert Needs(site, path[j], path[j + 1]);
      }
    }
  }

  lemma TangleRaises(site: Site, path: seq<Name>) returns (i: nat)
    requires path != [] && Path(site, path) && Tight(site, path) && RunsInto(site, path)
    ensures i < |path| && OnlyLoads(Replies(path, i), path[0]) && Raises(site, Run(site, Replies(path, i)), path[i])
    ensures Run(site, Replies(path, i)).classes[path[i]].from == Reversed(path[..i + 1])
    ensures !Clear(site, path[i], path[..i + 1])
  {
    var k := |path| - 1;
    assert path[..k + 1] == path;
    PathOwn(site, path);
    i := FirstLoop(site, path, k);
    Drive(site, path, i);
    RepliesLoadOnly(path, i);
    var s, m := Run(site, Replies(path, i)), path[i];
    RunSound(site, Replies(path, i));
    assert EntryOk(site, s, m);
    var d :| d in path[..i + 1] && Needs(site, m, d);
    ReversedMembers(path[..i + 1], d);
    RequiresSound(site, s, site.files[m], s.classes[m].from);
  }

  /**
   * Some order of replies to the request for one class raises a DependencyError if and only if
   * a path without shortcuts leads from the class to itself or into an earlier class of the path.
   */
  lemma RaisedExactly(site: Site, n: Name)
    ensures MayRaise(site, n) <==> Tangled(site, n)
  {
    if events, m :| OnlyLoads(events, n) && Raises(site, Run(site, events), m) {
      RunNeat(site, events, n);
      if !Tangled(site, n) {
        RunSound(site, events);
        RunRooted(site, events, n);
        ErrorTangles(site, n, Run(site, events), m);
      }
    }
    if Tangled(site, n) {
      var path: seq<Name> :| path != [] && path[0] == n && Path(site, path) && Tight(site, path)
          && RunsInto(site, path);
      var i := TangleRaises(site, path);
    }
  }

  // ----- what is rejected -----

  ghost predicate LeadsToMissing(site: Site, n: Name) {
    exists path: seq<Name> :: path != [] && path[0] == n && Path(site, path)
      && path[|path| - 1] !in site.builtins && path[|path| - 1] !in site.files
  }

  /** Nothing along the path can be loaded if its last class cannot. */
  lemma {:induction false} BlockedAlong(site: Site, path: seq<Name>)
    requires path != [] && Path(site, path) && !Loadable(site, path[|path| - 1])
    ensures !Loadable(site, path[0])
    decreases |path|
  {
    if |path| > 1 {
      PathRest(site, path);
      BlockedAlong(site, path[1..]);
      if Loadable(site, path[0]) {
        DependencyLoadable(site, path[0], path[1]);
      }
    }
  }

  /** At rest, a pending class waits for what it needs, whichever way one follows. */
  lemma {:induction false} PendingAlong(site: Site, s: State, path: seq<Name>)
    requires Sound(site, s) && Quiet(site, s) && path != [] && Path(site, path) && !Loadable(site, path[|path| - 1])
    requires path[0] in s.classes && !s.classes[path[0]].Failed?
    ensures path[|path| - 1] in s.classes && s.classes[path[|path| - 1]].Waiting?
    decreases |path|
  {
    var n := path[0];
    BlockedAlong(site, path);
    QuietEntry(site, s, n);
    if s.classes[n].Ready? {
      ReadyIsLoadable(site, s, n);
    }
    hide Sound;
    hide Quiet;
    if |path| > 1 {
      PathRest(site, path);
      PendingAlong(site, s, path[1..]);
    }
  }

  lemma WaitingHasFile(site: Site, s: State, m: Name)
    requires Sound(site, s) && m in s.classes && s.classes[m].Waiting?
    ensures m in site.files
  {
    assert EntryOk(site, s, m);
  }

  /** A class that leads to a missing file is rejected, in every order. */
  lemma MissingRejected(site: Site, events: seq<Event>, n: Name)
    requires var s := Run(site, events); Quiet(site, s) && n in s.classes
    requires LeadsToMissing(site, n)
    ensures Run(site, events).classes[n].Failed?
  {
    var s := Run(site, events);
    RunSound(site, events);
    var path: seq<Name> :| path != [] && path[0] == n && Path(site, path)
      && path[|path| - 1] !in site.builtins && path[|path| - 1] !in site.files;
    var last := path[|path| - 1];
    NotInFiles(site, last);
    if !s.classes[n].Failed? {
      PendingAlong(site, s, path);
      WaitingHasFile(site, s, last);
    }
  }

  /** The class is on a cycle. */
  lemma {:induction false} RankAlong(site: Site, rank: map<Name, nat>, path: seq<Name>)
    requires Ranked(site, rank) && path != [] && Path(site, path) && path[0] in rank
    ensures path[|path| - 1] in rank && rank[path[|path| - 1]] + |path| <= rank[path[0]] + 1
    decreases |path|
  {
    if |path| > 1 {
      PathRest(site, path);
      RankAlong(site, rank, path[1..]);
    }
  }

  lemma OnCycleNotLoadable(site: Site, n: Name)
    requires DependsOnItself(site, n)
    ensures !Loadable(site, n)
  {
    if Loadable(site, n) {
      var rank: map<Name, nat> :| n in rank && Ranked(site, rank);
      var path: seq<Name> :| |path| > 1 && path[0] == n && path[|path| - 1] == n && Path(site, path);
      RankAlong(site, rank, path);
    }
  }

  /** The class that was loaded is in every chain. */
  lemma WaitsForOthers(site: Site, n: Name, s: State, m: Name)
    requires Rooted(site, n, s) && m in s.classes && s.classes[m].Waiting?
    ensures !Needs(site, m, n)
  {
    assert RootedEntry(site, n, s, m);
  }

  /** A class on a cycle is rejected in every order of replies, if it is the only one that is loaded. */
  lemma OnCycleRejected(site: Site, events: seq<Event>, n: Name)
    requires OnlyLoads(events, n) && DependsOnItself(site, n)
    requires var s := Run(site, events); Quiet(site, s) && n in s.classes
    ensures Run(site, events).classes[n].Failed?
  {
    var s := Run(site, events);
    RunSound(site, events);
    RunRooted(site, events, n);
    OnCycleNotLoadable(site, n);
    var path: seq<Name> :| |path| > 1 && path[0] == n && path[|path| - 1] == n && Path(site, path);
    var k := |path| - 2;
    assert Needs(site, path[k], path[k + 1]);
    if !s.classes[n].Failed? {
      LastBlocked(site, path);
      PendingAlong(site, s, path[..k + 1]);
      WaitsForOthers(site, n, s, path[k]);
    }
  }

  lemma LastBlocked(site: Site, path: seq<Name>)
    requires |path| > 1 && Path(site, path) && !Loadable(site, path[|path| - 1])
    ensures Path(site, path[..|path| - 1]) && !Loadable(site, path[|path| - 2])
  {
    var k := |path| - 2;
    assert Needs(site, path[k], path[k + 1]);
    if Loadable(site, path[k]) {
      DependencyLoadable(site, path[k], path[k + 1]);
    }
  }

  // ----- some order rejects -----

  ghost predicate MayReject(site: Site, n: Name) {
    exists events :: OnlyLoads(events, n) && Quiet(site, Run(site, events))
      && n in Run(site, events).classes && Run(site, events).classes[n].Failed?
  }

  ghost function Members(names: set<Name>): (q: seq<Name>)
    ensures forall x :: x in names ==> x in q
  {
    if names == {} then [] else var x :| x in names; [x] + Members(names - {x})
  }

  lemma HasCover(site: Site, s: State) returns (names: seq<Name>)
    ensures Covers(site, s, names)
  {
    var needed := set n, d | n in site.files && d in site.files[n] :: d;
    names := Members(s.classes.Keys + needed);
    forall n, d | n in site.files && d in site.files[n] ensures d in names {
      assert d in needed;
    }
  }

  /** An event leaves what has failed as it is, and what has been asked for. */
  lemma FailedStays(site: Site, s: State, e: Event, m: Name)
    requires Sound(site, s) && m in s.classes
    ensures m in AfterEvent(site, s, e).classes
    ensures s.classes[m].Failed? ==> AfterEvent(site, s, e).classes[m] == s.classes[m]
  {
    if e.Reply? && e.name in s.classes && s.classes[e.name].Requested? && e.name in site.files {
      RequiresAdd(s, site.files[e.name], s.classes[e.name].from);
    }
  }

  /** Replies and results can be made to come in until nothing more can happen. */
  lemma {:induction false} RestFollows(site: Site, events: seq<Event>, n: Name, m: Name, names: seq<Name>)
    returns (longer: seq<Event>)
    requires OnlyLoads(events, n) && Covers(site, Run(site, events), names)
    requires n in Run(site, events).classes && m in Run(site, events).classes
    ensures OnlyLoads(longer, n) && Quiet(site, Run(site, longer))
    ensures n in Run(site, longer).classes && m in Run(site, longer).classes
    ensures var s, t := Run(site, events), Run(site, longer); s.classes[m].Failed? ==> t.classes[m] == s.classes[m]
    decreases Effort(Run(site, events), names)
  {
    hide *;
    hide OnlyLoads;
    hide Quiet;
    var s := Run(site, events);
    RunSound(site, events);
    if Quiet(site, s) {
      longer := events;
    } else {
      var e := Unrest(site, s);
      var next := events + [e];
      RunNext(site, events, e, n);
      EventCovered(site, s, e, names);
      EventLightens(site, s, e, names);
      FailedStays(site, s, e, m);
      FailedStays(site, s, e, n);
      longer := RestFollows(site, next, n, m, names);
    }
  }

  lemma Unrest(site: Site, s: State) returns (e: Event)
    requires !Quiet(site, s)
    ensures !e.Load? && AfterEvent(site, s, e) != s
  {
    hide AfterEvent;
    e :| !e.Load? && AfterEvent(site, s, e) != s;
  }

  lemma RunNext(site: Site, events: seq<Event>, e: Event, n: Name)
    requires OnlyLoads(events, n) && !e.Load?
    ensures OnlyLoads(events + [e], n) && Run(site, events + [e]) == AfterEvent(site, Run(site, events), e)
  {
    RunLast(site, events, e);
  }

  /** After an error there is an order for the rest, and with it the class that was loaded is rejected. */
  lemma ErrorRejects(site: Site, path: seq<Name>)
    requires path != [] && Path(site, path) && Tight(site, path) && RunsInto(site, path)
    ensures MayReject(site, path[0])
  {
    var n := path[0];
    var i := TangleRaises(site, path);
    var events, m := Replies(path, i), path[i];
    var s := Run(site, events);
    RunSound(site, events);
    hide *;
    hide Tight;
    hide RunsInto;
    var next, t := RaisedFails(site, events, path, i);
    var names := HasCover(site, t);
    var longer := RestFollows(site, next, n, m, names);
    CulpritRejects(site, longer, path, i);
    IsRejected(site, longer, n);
  }

  /** At rest, a failure for a cycle has reached the start of its chain. */
  lemma CulpritRejects(site: Site, events: seq<Event>, path: seq<Name>, i: nat)
    requires var s := Run(site, events); Quiet(site, s) && i < |path| && path[0] in s.classes && path[i] in s.classes
    requires Path(site, path) && !Clear(site, path[i], path[..i + 1])
    requires Run(site, events).classes[path[i]] == Failed(Reversed(path[..i + 1]))
    ensures Run(site, events).classes[path[0]].Failed?
  {
    var s, front := Run(site, events), path[..i + 1];
    RunSound(site, events);
    var d :| d in front && Needs(site, path[i], d);
    ReversedMembers(front, d);
    assert Culprit(site, s, path[i]);
    CulpritFailsAll(site, s, front);
  }

  lemma IsRejected(site: Site, events: seq<Event>, n: Name)
    requires OnlyLoads(events, n) && Quiet(site, Run(site, events))
    requires n in Run(site, events).classes && Run(site, events).classes[n].Failed?
    ensures MayReject(site, n)
  {
    hide Quiet;
    hide OnlyLoads;
    hide Run;
  }

  lemma RaisedFails(site: Site, events: seq<Event>, path: seq<Name>, i: nat) returns (next: seq<Event>, t: State)
    requires i < |path| && events == Replies(path, i) && Raises(site, Run(site, events), path[i])
    ensures next == Replies(path, i + 1) && t == Run(site, next) && OnlyLoads(next, path[0])
    ensures path[0] in t.classes && path[i] in t.classes
    ensures t.classes[path[i]] == Failed(Run(site, events).classes[path[i]].from)
  {
    hide *;
    next := Replies(path, i + 1);
    RepliesNext(path, i);
    RunLast(site, events, Reply(path[i]));
    t := Run(site, next);
    RepliesLoadOnly(path, i + 1);
    RaisedReply(site, Run(site, events), path[i]);
    RootIsThere(site, path, i + 1);
  }

  lemma RaisedReply(site: Site, s: State, m: Name)
    requires Raises(site, s, m)
    ensures var t := AfterEvent(site, s, Reply(m)); m in t.classes && t.classes[m] == Failed(s.classes[m].from)
  {
  }

  lemma {:induction false} RootIsThere(site: Site, path: seq<Name>, i: nat)
    requires i <= |path| && path != []
    ensures path[0] in Run(site, Replies(path, i)).classes
    decreases i
  {
    if i == 0 {
      RunOne(site, Load(path[0]));
    } else {
      var front := Replies(path, i - 1);
      RootIsThere(site, path, i - 1);
      RunSound(site, front);
      assert Replies(path, i)[..|front|] == front;
      FailedStays(site, Run(site, front), Reply(path[i - 1]), path[0]);
    }
  }

  lemma MissingMayReject(site: Site, n: Name)
    requires LeadsToMissing(site, n)
    ensures MayReject(site, n)
  {
    assert OnlyLoads([Load(n)], n) && n in Run(site, [Load(n)]).classes by {
      RunOne(site, Load(n));
    }
    hide *;
    hide LeadsToMissing;
    var events := [Load(n)];
    var names := HasCover(site, Run(site, events));
    var longer := RestFollows(site, events, n, n, names);
    MissingRejected(site, longer, n);
    IsRejected(site, longer, n);
  }

  /**
   * Some order of replies gets a class rejected if and only if it leads to a missing file or
   * its requests can tangle.
   */
  lemma MayRejectExactly(site: Site, n: Name)
    ensures MayReject(site, n) <==> LeadsToMissing(site, n) || Tangled(site, n)
  {
    hide Quiet;
    if MayReject(site, n) {
      var events :| OnlyLoads(events, n) && Quiet(site, Run(site, events))
        && n in Run(site, events).classes && Run(site, events).classes[n].Failed?;
      RejectedBy(site, events, n);
    }
    if LeadsToMissing(site, n) {
      MissingMayReject(site, n);
    }
    if Tangled(site, n) {
      var path: seq<Name> :| path != [] && path[0] == n && Path(site, path) && Tight(site, path)
          && RunsInto(site, path);
      ErrorRejects(site, path);
    }
  }

  lemma RejectedBy(site: Site, events: seq<Event>, n: Name)
    requires OnlyLoads(events, n) && var s := Run(site, events); n in s.classes && s.classes[n].Failed?
    ensures LeadsToMissing(site, n) || Tangled(site, n)
  {
    var s := Run(site, events);
    RunSound(site, events);
    assert EntryOk(site, s, n);
    var path: seq<Name> :| path != [] && path[0] == n && Path(site, path) && Culprit(site, s, path[|path| - 1]);
    var c := path[|path| - 1];
    RunNeat(site, events, n);
    hide Tangled;
    if Neat(site, s) {
      NeatCulprit(site, s, c);
    }
  }

  lemma NeatCulprit(site: Site, s: State, c: Name)
    requires Sound(site, s) && Neat(site, s) && Culprit(site, s, c)
    ensures c !in site.builtins && c !in site.files
  {
    assert NeatEntry(site, s, c);
  }
}
