/** `LuCI.require` of luci.js: fetching classes and their dependencies, replies coming in any order. */
module ClassLoader {

  type Name = string

  /** The entry of a class that was asked for; `from` is the chain of classes that led to the request. */
  datatype Entry =
    | Requested(from: seq<Name>)
    | Waiting(from: seq<Name>)
    | Ready
    | Failed(from: seq<Name>)

  /** The class table, the requests sent, and the classes instantiated after start-up, in order. */
  datatype State = State(classes: map<Name, Entry>, fetched: seq<Name>, order: seq<Name>)

  datatype Outcome = Outcome(state: State, ok: bool)

  /** The class files on the server, each with its require statements in order, and the built-in classes. */
  datatype Site = Site(files: map<Name, seq<Name>>, builtins: set<Name>)

  function Initial(site: Site): State {
    State(map n | n in site.builtins :: Ready, [], [])
  }

  // ----- what each event does to the table -----

  /** A class is asked for; not `ok` is a DependencyError. */
  function AfterRequire(s: State, name: Name, from: seq<Name>): Outcome {
    if name in s.classes then Outcome(s, name !in from)
    else Outcome(s.(classes := s.classes[name := Requested([name] + from)], fetched := s.fetched + [name]), true)
  }

  /** Requires one after the other, up to the first error. */
  function AfterRequires(s: State, deps: seq<Name>, from: seq<Name>): Outcome {
    if deps == [] then Outcome(s, true)
    else
      var front := AfterRequires(s, deps[..|deps| - 1], from);
      if front.ok then AfterRequire(front.state, deps[|deps| - 1], from) else front
  }

  /** The reply to a request comes in. */
  function AfterReply(site: Site, s: State, name: Name): State
    requires name in s.classes && s.classes[name].Requested?
  {
    var from := s.classes[name].from;
    if name !in site.files then s.(classes := s.classes[name := Failed(from)])
    else
      var r := AfterRequires(s, site.files[name], from);
      r.state.(classes := r.state.classes[name := if r.ok then Waiting(from) else Failed(from)])
  }

  predicate HasFailed(s: State, deps: seq<Name>) {
    exists d :: d in deps && d in s.classes && s.classes[d].Failed?
  }

  predicate AllReady(s: State, deps: seq<Name>) {
    forall d :: d in deps ==> d in s.classes && s.classes[d] == Ready
  }

  /** The promises of a class's dependencies are looked at once more. */
  function AfterSettle(site: Site, s: State, name: Name): State
    requires name in s.classes && s.classes[name].Waiting? && name in site.files
  {
    if HasFailed(s, site.files[name]) then s.(classes := s.classes[name := Failed(s.classes[name].from)])
    else if AllReady(s, site.files[name]) then
      s.(classes := s.classes[name := Ready], order := s.order + [name])
    else s
  }

  // ----- the table in place -----

  class Loader {
    const site: Site
    var classes: map<Name, Entry>
    ghost var fetched: seq<Name>
    ghost var order: seq<Name>

    ghost function Contents(): State
      reads this
    {
      State(classes, fetched, order)
    }

    constructor (site: Site)
      ensures this.site == site && Contents() == Initial(site)
    {
      this.site := site;
      classes := map n | n in site.builtins :: Ready;
      fetched, order := [], [];
    }

    method Require(name: Name, from: seq<Name>) returns (ok: bool)
      modifies this
      ensures Outcome(Contents(), ok) == AfterRequire(old(Contents()), name, from)
    {
      if name in classes {
        return name !in from;
      }
      classes := classes[name := Requested([name] + from)];
      fetched := fetched + [name];
      ok := true;
    }

    /** `compileClass`, up to the point where it waits. */
    method Reply(name: Name)
      requires name in classes && classes[name].Requested?
      modifies this
      ensures Contents() == AfterReply(site, old(Contents()), name)
    {
      if name !in site.files {
        classes := classes[name := Failed(classes[name].from)];
        return;
      }
      var from, deps := classes[name].from, site.files[name];
      ghost var s := Contents();
      for i := 0 to |deps|
        invariant Outcome(Contents(), true) == AfterRequires(s, deps[..i], from)
      {
        assert deps[..i + 1][..i] == deps[..i];
        var ok := Require(deps[i], from);
        if !ok {
          StopsAtError(s, deps, from, i + 1);
          classes := classes[name := Failed(from)];
          return;
        }
      }
      assert deps[..|deps|] == deps;
      classes := classes[name := Waiting(from)];
    }

    /** The rest of `compileClass`. */
    method Settle(name: Name)
      requires name in classes && classes[name].Waiting? && name in site.files
      modifies this
      ensures Contents() == AfterSettle(site, old(Contents()), name)
    {
      var deps := site.files[name];
      if exists d :: d in deps && d in classes && classes[d].Failed? {
        classes := classes[name := Failed(classes[name].from)];
      } else if forall d :: d in deps ==> d in classes && classes[d] == Ready {
        classes := classes[name := Ready];
        order := order + [name];
      }
    }
  }

  lemma {:induction false} StopsAtError(s: State, deps: seq<Name>, from: seq<Name>, n: nat)
    requires n <= |deps| && !AfterRequires(s, deps[..n], from).ok
    ensures AfterRequires(s, deps, from) == AfterRequires(s, deps[..n], from)
    decreases |deps|
  {
    if n == |deps| {
      assert deps[..n] == deps;
    } else {
      var front := deps[..|deps| - 1];
      assert front[..n] == deps[..n];
      StopsAtError(s, front, from, n);
    }
  }
}
