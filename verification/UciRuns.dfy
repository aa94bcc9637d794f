/** Whole editing sessions: what readers see, and what `save` sends. */
module UciRuns {
  import opened Common
  import opened UciModel
  import opened UciStore
  import opened UciOrder

  datatype Op =
    | OpAdd(id: Id, kind: string, named: bool)
    | OpRemove(id: Id)
    | OpSet(id: Id, opt: string, val: Option<Value>)
    | OpGet(id: Id, opt: string)
    | OpGetSection(id: Id)
    | OpMove(conf: string, sid1: string, sid2: Option<string>, after: bool)

  datatype Reply = Nothing | OneOption(val: Option<Value>) | OneSection(section: Option<Section>) | Moved(done: bool)

  /** The plain model: a configuration, a counter for new sections, and which sections are new. */
  datatype Plain = Plain(cfg: Config, next: nat, made: set<Id>)

  ghost function PlainStep(p: Plain, op: Op): Plain {
    match op
    case OpAdd(id, kind, named) =>
      Plain(p.cfg[id := NewSection(id, kind, named, p.next)], p.next + 1, p.made + {id})
    case OpRemove(id) => p.(cfg := p.cfg - {id}, made := p.made - {id})
    case OpSet(id, opt, val) =>
      p.(cfg := if id in p.made then StoringSet(p.cfg, id, opt, val) else PlainSet(p.cfg, id, opt, val))
    case OpGet(_, _) => p
    case OpGetSection(_) => p
    case OpMove(conf, sid1, sid2, after) => p.(cfg := PlainMove(p.cfg, conf, sid1, sid2, after))
  }

  ghost function PlainReply(p: Plain, op: Op): Reply {
    match op
    case OpGet(id, opt) => OneOption(PlainGet(p.cfg, id, opt))
    case OpGetSection(id) => OneSection(PlainSection(p.cfg, id))
    case OpMove(conf, sid1, sid2, _) => Moved(CanMove(OrderOf(p.cfg, conf), sid1, sid2))
    case _ => Nothing
  }

  ghost function PlainRun(p: Plain, ops: seq<Op>): Plain
    decreases |ops|
  {
    if ops == [] then p else PlainRun(PlainStep(p, ops[0]), ops[1..])
  }

  ghost function PlainReplies(p: Plain, ops: seq<Op>): seq<Reply>
    decreases |ops|
  {
    if ops == [] then [] else [PlainReply(p, ops[0])] + PlainReplies(PlainStep(p, ops[0]), ops[1..])
  }

  /**
   Sections are added under names not in use.
   The order of a configuration is moved in when its sections have indices, which all differ.
   */
  ghost predicate Allowed(p: Plain, op: Op) {
    match op
    case OpAdd(id, _, _) => id !in p.cfg
    case OpMove(conf, _, _, _) => Indexed(p.cfg, conf) && Apart(p.cfg, conf)
    case _ => true
  }

  ghost predicate AllAllowed(p: Plain, ops: seq<Op>)
    decreases |ops|
  {
    ops == [] || (Allowed(p, ops[0]) && AllAllowed(PlainStep(p, ops[0]), ops[1..]))
  }

  /** A whole section is read by `get` without an option and, for each of its sections, by `move`. */
  predicate ReadsSections(op: Op) {
    op.OpGetSection? || op.OpMove?
  }

  predicate OptionLevel(ops: seq<Op>) {
    forall i :: 0 <= i < |ops| ==> !ReadsSections(ops[i])
  }

  /** The store and its counter. */
  datatype State = State(st: Store, next: nat)

  function Meaning(s: State): Plain {
    Plain(View(s.st), s.next, s.st.creates.Keys)
  }

  ghost function StoreStep(s: State, op: Op): State {
    match op
    case OpAdd(id, kind, named) => State(AfterAdd(s.st, id, NewSection(id, kind, named, s.next)), s.next + 1)
    case OpRemove(id) => s.(st := AfterRemove(s.st, id))
    case OpSet(id, opt, val) => s.(st := AfterSet(s.st, id, opt, val))
    case OpGet(_, _) => s
    case OpGetSection(id) => s.(st := AfterGetSection(s.st, id))
    case OpMove(conf, sid1, sid2, after) => s.(st := AfterMove(s.st, conf, sid1, sid2, after))
  }

  ghost function StoreRun(s: State, ops: seq<Op>): State
    decreases |ops|
  {
    if ops == [] then s else StoreRun(StoreStep(s, ops[0]), ops[1..])
  }

  /** One operation on the store itself. */
  method Perform(u: Uci, op: Op) returns (reply: Reply)
    requires Consistent(u.Snapshot())
    requires op.OpMove? ==> Indexed(View(u.Snapshot()), op.conf) && Apart(View(u.Snapshot()), op.conf)
    modifies u
    ensures State(u.Snapshot(), u.newidx) == StoreStep(State(old(u.Snapshot()), old(u.newidx)), op)
    ensures reply == PlainReply(Meaning(State(old(u.Snapshot()), old(u.newidx))), op)
  {
    hide View;
    reply := Nothing;
    match op {
      case OpAdd(id, kind, named) =>
        u.Add(id, kind, named);
      case OpRemove(id) =>
        u.Remove(id);
      case OpSet(id, opt, val) =>
        u.Set(id, opt, val);
      case OpGet(id, opt) =>
        assert TidyAt(u.Snapshot(), id);
        var val := u.Get(id, opt);
        reply := OneOption(val);
      case OpGetSection(id) =>
        assert TidyAt(u.Snapshot(), id);
        var section := u.GetSection(id);
        reply := OneSection(section);
      case OpMove(conf, sid1, sid2, after) =>
        var done, _, _ := Move(u, conf, sid1, sid2, after);
        reply := Moved(done);
    }
  }

  /** The store after `op` is consistent, and stands for the plain configuration after `op`. */
  ghost predicate Refines(s: State, loaded: set<Id>, op: Op) {
    var s' := StoreStep(s, op);
    && Consistent(s'.st) && s'.st.values.Keys == loaded
    && Meaning(s') == PlainStep(Meaning(s), op)
    && (!ReadsSections(op) ==> s'.st.values == s.st.values)
  }

  lemma AddStep(s: State, loaded: set<Id>, id: Id, kind: string, named: bool)
    requires Consistent(s.st) && s.st.values.Keys == loaded && Allowed(Meaning(s), OpAdd(id, kind, named))
    ensures Refines(s, loaded, OpAdd(id, kind, named))
  {
    ViewDomain(s.st, id);
    hide View;
    hide Tidy;
    AddRefines(s.st, id, NewSection(id, kind, named, s.next));
  }

  lemma RemoveStep(s: State, loaded: set<Id>, id: Id)
    requires Consistent(s.st) && s.st.values.Keys == loaded
    ensures Refines(s, loaded, OpRemove(id))
  {
    ViewDomain(s.st, id);
    hide View;
    hide Tidy;
    RemoveRefines(s.st, id);
  }

  lemma SetStep(s: State, loaded: set<Id>, id: Id, opt: string, val: Option<Value>)
    requires Consistent(s.st) && s.st.values.Keys == loaded
    ensures Refines(s, loaded, OpSet(id, opt, val))
  {
    hide View;
    hide Tidy;
    hide PlainSet;
    hide StoringSet;
    SetRefines(s.st, id, opt, val);
    if id in s.st.creates {
      SetStores(s.st, id, opt, val);
    }
  }

  lemma ReadStep(s: State, loaded: set<Id>, op: Op)
    requires Consistent(s.st) && s.st.values.Keys == loaded && (op.OpGet? || op.OpGetSection?)
    ensures Refines(s, loaded, op)
  {
    hide View;
    hide Tidy;
    if op.OpGetSection? {
      GetSectionRefines(s.st, op.id);
    }
  }

  lemma MoveStep(s: State, loaded: set<Id>, op: Op)
    requires Consistent(s.st) && s.st.values.Keys == loaded && op.OpMove?
    ensures Refines(s, loaded, op)
  {
    hide View;
    hide Tidy;
    hide AfterMove;
    hide PlainMove;
    MoveRefines(s.st, op.conf, op.sid1, op.sid2, op.after);
  }

  lemma StepRefines(s: State, loaded: set<Id>, op: Op)
    requires Consistent(s.st) && s.st.values.Keys == loaded && Allowed(Meaning(s), op)
    ensures Refines(s, loaded, op)
  {
    hide *;
    match op {
      case OpAdd(id, kind, named) => AddStep(s, loaded, id, kind, named);
      case OpRemove(id) => RemoveStep(s, loaded, id);
      case OpSet(id, opt, val) => SetStep(s, loaded, id, opt, val);
      case OpGet(_, _) => ReadStep(s, loaded, op);
      case OpGetSection(_) => ReadStep(s, loaded, op);
      case OpMove(_, _, _, _) => MoveStep(s, loaded, op);
    }
  }

  /** Over any session the store keeps standing for the plain configuration. */
  lemma {:induction false} RunRefines(s: State, loaded: set<Id>, ops: seq<Op>)
    requires Consistent(s.st) && s.st.values.Keys == loaded && AllAllowed(Meaning(s), ops)
    ensures var s' := StoreRun(s, ops);
            && Consistent(s'.st) && s'.st.values.Keys == loaded
            && Meaning(s') == PlainRun(Meaning(s), ops)
            && (OptionLevel(ops) ==> s'.st.values == s.st.values)
    decreases |ops|
  {
    if ops != [] {
      hide Consistent;
      hide StoreStep;
      hide PlainStep;
      hide Meaning;
      StepRefines(s, loaded, ops[0]);
      assert OptionLevel(ops) ==> OptionLevel(ops[1..]);
      RunRefines(StoreStep(s, ops[0]), loaded, ops[1..]);
    }
  }

  /** A run of the store itself: every read answers as the plain configuration would. */
  method Session(u: Uci, ops: seq<Op>) returns (replies: seq<Reply>)
    requires Consistent(u.Snapshot())
    requires AllAllowed(Meaning(State(u.Snapshot(), u.newidx)), ops)
    modifies u
    ensures State(u.Snapshot(), u.newidx) == StoreRun(State(old(u.Snapshot()), old(u.newidx)), ops)
    ensures replies == PlainReplies(Meaning(State(old(u.Snapshot()), old(u.newidx))), ops)
  {
    hide *;
    replies := [];
    ghost var start := State(u.Snapshot(), u.newidx);
    ghost var loaded := u.values.Keys;
    ghost var s := start;
    FollowsAtStart(start, ops);
    LoadedIs(u);
    for k := 0 to |ops|
      invariant s == State(u.Snapshot(), u.newidx)
      invariant Consistent(u.Snapshot()) && u.values.Keys == loaded
      invariant Follows(start, ops, k, s, replies)
    {
      LoadedIs(u);
      FollowsOn(start, loaded, ops, k, s, replies);
      var reply := Perform(u, ops[k]);
      replies := replies + [reply];
      s := StoreStep(s, ops[k]);
      LoadedIs(u);
    }
    FollowsAtEnd(start, ops, s, replies);
  }

  /** After `k` operations the store is at `s`, has given `replies`, and the rest is still allowed. */
  ghost predicate Follows(start: State, ops: seq<Op>, k: nat, s: State, replies: seq<Reply>)
    requires k <= |ops|
  {
    && AllAllowed(Meaning(s), ops[k..])
    && StoreRun(start, ops) == StoreRun(s, ops[k..])
    && PlainReplies(Meaning(start), ops) == replies + PlainReplies(Meaning(s), ops[k..])
  }

  lemma FollowsAtStart(start: State, ops: seq<Op>)
    requires AllAllowed(Meaning(start), ops)
    ensures Follows(start, ops, 0, start, [])
  {
    assert ops[0..] == ops;
  }

  lemma {:induction false} FollowsOn(start: State, loaded: set<Id>, ops: seq<Op>, k: nat, s: State, replies: seq<Reply>)
    requires k < |ops| && Consistent(s.st) && s.st.values.Keys == loaded && Follows(start, ops, k, s, replies)
    ensures var s' := StoreStep(s, ops[k]);
            && Consistent(s'.st) && s'.st.values.Keys == loaded
            && Follows(start, ops, k + 1, s', replies + [PlainReply(Meaning(s), ops[k])])
    ensures var c := View(s.st); ops[k].OpMove? ==> Indexed(c, ops[k].conf) && Apart(c, ops[k].conf)
  {
    MoveAllowed(s, ops[k]);
    assert ops[k..][0] == ops[k] && ops[k..][1..] == ops[k + 1..];
    hide Consistent;
    hide Meaning;
    hide StoreStep;
    hide PlainStep;
    hide PlainReply;
    hide Allowed;
    hide View;
    hide Indexed;
    hide Apart;
    StepRefines(s, loaded, ops[k]);
    var later := PlainReplies(Meaning(StoreStep(s, ops[k])), ops[k + 1..]);
    var reply := PlainReply(Meaning(s), ops[k]);
    assert replies + ([reply] + later) == replies + [reply] + later;
  }

  lemma LoadedIs(u: Uci)
    ensures u.Snapshot().values == u.values
  {
  }

  lemma MoveAllowed(s: State, op: Op)
    ensures var c := View(s.st); Allowed(Meaning(s), op) && op.OpMove? ==>
              Indexed(c, op.conf) && Apart(c, op.conf)
  {
    hide View;
    hide Indexed;
    hide Apart;
  }

  lemma FollowsAtEnd(start: State, ops: seq<Op>, s: State, replies: seq<Reply>)
    requires Follows(start, ops, |ops|, s, replies)
    ensures StoreRun(start, ops) == s && PlainReplies(Meaning(start), ops) == replies
  {
    assert ops[|ops|..] == [] && replies + [] == replies;
  }
}
