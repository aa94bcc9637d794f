/** Sessions with reads of whole sections, moves included: what `save` then leaves behind. */
module UciLost {
  import opened Common
  import opened UciModel
  import opened UciStore
  import opened UciOrder
  import opened UciRuns
  import opened UciSave

  predicate IsPending(st: Store, id: Id, opt: string) {
    opt in Dropped(st, id) || opt in Changed(st, id)
  }

  /** What is stored and not pending for a loaded section is as it was loaded, or gone; its type stays. */
  ghost predicate KeptAt(st: Store, loaded: Config, id: Id) {
    id in st.values && id in loaded && !Removed(st, id) ==>
      && (forall opt :: opt in st.values[id] && Stored(opt) && !IsPending(st, id, opt) ==>
            opt in loaded[id] && loaded[id][opt] == st.values[id][opt])
      && (".type" in loaded[id] ==> ".type" in st.values[id])
  }

  ghost predicate Kept(st: Store, loaded: Config) {
    forall id :: KeptAt(st, loaded, id)
  }

  lemma SameKept(st: Store, st': Store, loaded: Config, id: Id)
    requires SameAt(st, st', id) && KeptAt(st, loaded, id)
    ensures KeptAt(st', loaded, id)
  {
    assert Dropped(st', id) == Dropped(st, id) && Changed(st', id) == Changed(st, id);
  }

  lemma OthersSame(s: State, op: Op, id: Id)
    requires !op.OpMove? && op.id != id
    ensures SameAt(s.st, StoreStep(s, op).st, id)
  {
    hide SameAt;
    hide AfterAdd;
    hide AfterRemove;
    hide AfterSet;
    hide AfterGetSection;
    hide NewSection;
    match op {
      case OpAdd(other, kind, named) => AddElsewhere(s.st, other, NewSection(other, kind, named, s.next), id);
      case OpRemove(other) => RemoveElsewhere(s.st, other, id);
      case OpSet(other, opt, val) => SetElsewhere(s.st, other, opt, val, id);
      case OpGet(_, _) => Unchanged(s.st, id);
      case OpGetSection(other) => FoldElsewhere(s.st, other, id);
    }
  }

  lemma Unchanged(st: Store, j: Id)
    ensures SameAt(st, st, j)
  {
  }

  lemma AddElsewhere(st: Store, id: Id, section: Section, j: Id)
    requires j != id
    ensures SameAt(st, AfterAdd(st, id, section), j)
  {
  }

  lemma RemoveElsewhere(st: Store, id: Id, j: Id)
    requires j != id
    ensures SameAt(st, AfterRemove(st, id), j)
  {
  }

  lemma SetElsewhere(st: Store, id: Id, opt: string, val: Option<Value>, j: Id)
    requires j != id
    ensures SameAt(st, AfterSet(st, id, opt, val), j)
  {
    hide Dropped;
    hide Changed;
    hide Removed;
  }

  lemma FoldElsewhere(st: Store, id: Id, j: Id)
    requires j != id
    ensures SameAt(st, AfterGetSection(st, id), j)
  {
  }

  lemma FoldKeeps(st: Store, loaded: Config, id: Id)
    requires TidyAt(st, id) && KeptAt(st, loaded, id)
    ensures KeptAt(AfterGetSection(st, id), loaded, id)
  {
    var st' := AfterGetSection(st, id);
    assert Dropped(st', id) == Dropped(st, id) && Changed(st', id) == Changed(st, id);
  }

  lemma SetKeeps(st: Store, loaded: Config, id: Id, opt: string, val: Option<Value>)
    requires TidyAt(st, id) && KeptAt(st, loaded, id)
    ensures KeptAt(AfterSet(st, id, opt, val), loaded, id)
  {
    var st' := AfterSet(st, id, opt, val);
    if id in st.values && !Removed(st, id) && st' != st {
      forall o | IsPending(st, id, o) && o in st.values[id] ensures IsPending(st', id, o) {
        StaysPending(st, id, opt, val, o);
      }
      hide AfterSet;
      hide IsPending;
      hide TidyAt;
      SetLeavesValues(st, id, opt, val);
    }
  }

  lemma SetLeavesValues(st: Store, id: Id, opt: string, val: Option<Value>)
    ensures AfterSet(st, id, opt, val).values == st.values
    ensures Removed(AfterSet(st, id, opt, val), id) == Removed(st, id)
  {
  }

  /** What is pending stays pending as long as the loaded copy has it. */
  lemma StaysPending(st: Store, id: Id, opt: string, val: Option<Value>, o: string)
    requires IsPending(st, id, o) && id in st.values && o in st.values[id] && !Removed(st, id)
    ensures IsPending(AfterSet(st, id, opt, val), id, o)
  {
    var st' := AfterSet(st, id, opt, val);
    if o != opt {
      assert o in Dropped(st, id) ==> o in Dropped(st', id);
      assert o in Changed(st, id) ==> o in Changed(st', id);
    }
  }

  lemma StepKeepsOne(s: State, loaded: Config, op: Op)
    requires !op.OpMove? && TidyAt(s.st, op.id) && KeptAt(s.st, loaded, op.id)
    ensures KeptAt(StoreStep(s, op).st, loaded, op.id)
  {
    hide KeptAt;
    hide TidyAt;
    hide AfterSet;
    hide AfterGetSection;
    hide AfterAdd;
    hide AfterRemove;
    match op {
      case OpAdd(id, kind, named) => AddKeeps(s.st, loaded, id, NewSection(id, kind, named, s.next));
      case OpRemove(id) => RemoveKeeps(s.st, loaded, id);
      case OpSet(id, opt, val) => SetKeeps(s.st, loaded, id, opt, val);
      case OpGet(_, _) =>
      case OpGetSection(id) => FoldKeeps(s.st, loaded, id);
    }
  }

  /** Writing an index changes nothing that is stored. */
  lemma IndexKeeps(st: Store, loaded: Config, id: Id, i: nat, j: Id)
    requires KeptAt(st, loaded, j)
    ensures KeptAt(WithIndex(st, id, i), loaded, j)
  {
    var st' := WithIndex(st, id, i);
    SameMarks(st, st', j);
    assert !Stored(".index");
    hide Dropped;
    hide Changed;
  }

  lemma ReadKeeps(st: Store, loaded: Config, id: Id, i: nat)
    requires Tidy(st) && Kept(st, loaded)
    ensures Kept(WithIndex(AfterGetSection(st, id), id, i), loaded)
  {
    hide KeptAt;
    hide TidyAt;
    hide AfterGetSection;
    hide WithIndex;
    var st' := AfterGetSection(st, id);
    forall j: Id ensures KeptAt(WithIndex(st', id, i), loaded, j) {
      assert TidyAt(st, j) && KeptAt(st, loaded, j);
      if j == id {
        FoldKeeps(st, loaded, id);
      } else {
        FoldElsewhere(st, id, j);
        SameKept(st, st', loaded, j);
      }
      IndexKeeps(st', loaded, id, i, j);
    }
  }

  lemma {:induction false} RenumberKeeps(st: Store, loaded: Config, conf: string, sa: seq<string>, n: nat)
    requires Consistent(st) && Kept(st, loaded) && AllIn(View(st), conf, sa) && n <= |sa|
    ensures Kept(Renumbered(st, conf, sa, n), loaded)
    decreases n
  {
    hide *;
    if n == 0 {
      NotRenumbered(st, conf, sa);
    } else {
      RenumberKeeps(st, loaded, conf, sa, n - 1);
      RenumberedRefines(st, conf, sa, n - 1);
      RenumberedNext(st, conf, sa, n);
      ConsistentTidy(Renumbered(st, conf, sa, n - 1));
      ReadKeeps(Renumbered(st, conf, sa, n - 1), loaded, Id(conf, sa[n - 1]), n - 1);
    }
  }

  lemma ConsistentTidy(st: Store)
    requires Consistent(st)
    ensures Tidy(st)
  {
  }

  /** What a move does to the store: nothing, or a list of its sections is read and numbered. */
  lemma MoveIs(st: Store, conf: string, sid1: string, sid2: Option<string>, after: bool) returns (sa: seq<string>)
    ensures var st' := AfterMove(st, conf, sid1, sid2, after);
            if CanMove(OrderOf(View(st), conf), sid1, sid2) then
              && st' == Renumbered(st, conf, sa, |sa|) && AllIn(View(st), conf, sa)
              && forall sid :: sid in sa <==> Id(conf, sid) in View(st)
            else st' == st
  {
    hide View;
    hide OrderOf;
    hide CanMove;
    hide MovedList;
    hide IsMoved;
    hide Renumbered;
    hide IsOrder;
    hide AllIn;
    var list := OrderOf(View(st), conf);
    OrderLists(View(st), conf, list);
    sa := list;
    if CanMove(list, sid1, sid2) {
      sa := MovedList(list, sid1, sid2, after);
      MovedLists(View(st), conf, list, sid1, sid2, after, sa);
    }
  }

  lemma {:induction false} MoveKeeps(st: Store, loaded: Config, conf: string, sid1: string, sid2: Option<string>,
                                     after: bool)
    requires Consistent(st) && Kept(st, loaded)
    ensures Kept(AfterMove(st, conf, sid1, sid2, after), loaded)
  {
    hide *;
    var sa := MoveIs(st, conf, sid1, sid2, after);
    if CanMove(OrderOf(View(st), conf), sid1, sid2) {
      RenumberKeeps(st, loaded, conf, sa, |sa|);
    }
  }

  lemma StepKeeps(s: State, loaded: Config, op: Op)
    requires Consistent(s.st) && Kept(s.st, loaded)
    ensures Kept(StoreStep(s, op).st, loaded)
  {
    if op.OpMove? {
      MoveKeeps(s.st, loaded, op.conf, op.sid1, op.sid2, op.after);
      hide AfterMove;
    } else {
      hide KeptAt;
      hide TidyAt;
      hide StoreStep;
      hide SameAt;
      hide Unshadowed;
      var st' := StoreStep(s, op).st;
      forall id: Id ensures KeptAt(st', loaded, id) {
        assert TidyAt(s.st, id) && KeptAt(s.st, loaded, id);
        if id == op.id {
          StepKeepsOne(s, loaded, op);
        } else {
          OthersSame(s, op, id);
          SameKept(s.st, st', loaded, id);
        }
      }
    }
  }

  lemma AddKeeps(st: Store, loaded: Config, id: Id, section: Section)
    requires KeptAt(st, loaded, id)
    ensures KeptAt(AfterAdd(st, id, section), loaded, id)
  {
    var st' := AfterAdd(st, id, section);
    assert Dropped(st', id) == Dropped(st, id) && Changed(st', id) == Changed(st, id);
  }

  lemma RemoveKeeps(st: Store, loaded: Config, id: Id)
    requires KeptAt(st, loaded, id)
    ensures KeptAt(AfterRemove(st, id), loaded, id)
  {
    var st' := AfterRemove(st, id);
    if id in st.creates {
      assert Dropped(st', id) == Dropped(st, id) && Changed(st', id) == Changed(st, id);
    }
  }

  lemma {:induction false} RunKeeps(s: State, loaded: Config, ops: seq<Op>)
    requires Consistent(s.st) && s.st.values.Keys == loaded.Keys && AllAllowed(Meaning(s), ops)
    requires Kept(s.st, loaded)
    ensures Kept(StoreRun(s, ops).st, loaded)
    decreases |ops|
  {
    if ops != [] {
      StepKeeps(s, loaded, ops[0]);
      hide Tidy;
      hide Unshadowed;
      hide StoreStep;
      hide PlainStep;
      hide Meaning;
      hide Kept;
      StepRefines(s, loaded.Keys, ops[0]);
      RunKeeps(StoreStep(s, ops[0]), loaded, ops[1..]);
    }
  }

  /** The option was loaded, is gone from the loaded copy, and nothing is pending for it; metadata apart. */
  predicate Lost(st: Store, loaded: Config, id: Id, opt: string) {
    && id in loaded && id in st.values && !Removed(st, id)
    && opt in loaded[id] && Stored(opt) && opt !in st.values[id] && !IsPending(st, id, opt)
  }

  lemma RecordedUnlessLost(st: Store, loaded: Config, id: Id)
    requires TidyAt(st, id) && KeptAt(st, loaded, id) && id in loaded && id in st.values && !Removed(st, id)
    ensures Recorded(st, Contents(loaded), id) <==> forall opt :: !Lost(st, loaded, id, opt)
  {
    var d, c := Dropped(st, id), Changed(st, id);
    var x, y := Content(loaded[id]) - (d + c.Keys), Content(st.values[id]) - (d + c.Keys);
    assert Contents(loaded)[id] == Content(loaded[id]);
    forall opt: string ensures Lookup(x, opt) == Lookup(y, opt) <==> !Lost(st, loaded, id, opt) {
      assert opt in d + c.Keys <==> IsPending(st, id, opt);
    }
    SectionEqual(x, y);
  }

  /** Saving is exact if and only if the store has lost no option. */
  lemma {:induction false} SavesUnlessLost(loaded: Config, ops: seq<Op>, names: map<Id, Id>, dels: seq<Id>,
                                           adds: seq<Id>, sets: seq<Id>)
    requires AllAllowed(Plain(loaded, 0, {}), ops)
    requires var st := StoreRun(State(Store(loaded, map[], map[], map[]), 0), ops).st;
             && Naming(st, names)
             && UciSave.Lists(dels, st.deletes.Keys)
             && UciSave.Lists(adds, st.creates.Keys) && UciSave.Lists(sets, st.changes.Keys)
    ensures var st := StoreRun(State(Store(loaded, map[], map[], map[]), 0), ops).st;
            && View(st) == PlainRun(Plain(loaded, 0, {}), ops).cfg
            && (Shows(st, names, Saved(st, Contents(loaded), names, dels, adds, sets)) <==>
                  forall id, opt :: !Lost(st, loaded, id, opt))
  {
    hide *;
    var start := State(Store(loaded, map[], map[], map[]), 0);
    FreshMeaning(loaded);
    FreshKept(loaded);
    RunRefines(start, loaded.Keys, ops);
    RunKeeps(start, loaded, ops);
    var st := StoreRun(start, ops).st;
    MeaningIs(StoreRun(start, ops));
    ContentsStored(loaded);
    SaveIsExact(st, Contents(loaded), names, dels, adds, sets);
    AllRecordedUnlessLost(st, loaded);
  }

  lemma MeaningIs(s: State)
    ensures Meaning(s).cfg == View(s.st)
  {
  }

  lemma FreshKept(loaded: Config)
    ensures Kept(Store(loaded, map[], map[], map[]), loaded)
  {
  }

  lemma ContentsStored(loaded: Config)
    ensures Contents(loaded).Keys == loaded.Keys
    ensures forall id, k :: id in Contents(loaded) && k in Contents(loaded)[id] ==> Stored(k)
  {
  }

  lemma AllRecordedUnlessLost(st: Store, loaded: Config)
    requires Consistent(st) && Kept(st, loaded) && st.values.Keys == loaded.Keys && Contents(loaded).Keys == loaded.Keys
    ensures AllRecorded(st, Contents(loaded)) <==> forall id, opt :: !Lost(st, loaded, id, opt)
  {
    forall id | id in st.values && !Removed(st, id)
      ensures Recorded(st, Contents(loaded), id) <==> forall opt :: !Lost(st, loaded, id, opt)
    {
      assert TidyAt(st, id) && KeptAt(st, loaded, id);
      RecordedUnlessLost(st, loaded, id);
    }
    hide Recorded;
    hide Consistent;
    hide Kept;
    if AllRecorded(st, Contents(loaded)) {
      forall id, opt ensures !Lost(st, loaded, id, opt) {
        assert id in st.values && !Removed(st, id) ==> Recorded(st, Contents(loaded), id);
      }
    }
  }

  // ----- told from the session alone -----

  /**
   Where an option of a loaded section stands: whether a new section hides it, whether its own was
   removed, whether the loaded copy has it, and what is pending for it.
   */
  datatype Mark = Mark(made: bool, gone: bool, inCopy: bool, dropped: bool, changed: bool)

  function MarkOf(st: Store, id: Id, opt: string): Mark {
    Mark(id in st.creates, Removed(st, id), id in st.values && opt in st.values[id],
         opt in Dropped(st, id), opt in Changed(st, id))
  }

  /** The section is read as a whole. */
  function MarkRead(m: Mark): Mark {
    if m.made || m.gone then m else m.(inCopy := (m.inCopy || m.changed) && !m.dropped)
  }

  function MarkSet(m: Mark, val: Option<Value>): Mark {
    if m.made || m.gone then m
    else if val.Some? && val.value != Str("") then m.(changed := true, dropped := false)
    else m.(changed := false, dropped := m.dropped || m.inCopy)
  }

  function MarkRemove(m: Mark): Mark {
    if m.made then m.(made := false) else m.(gone := true, dropped := false, changed := false)
  }

  /** One operation of a session that has come to `p`. */
  ghost function MarkStep(m: Mark, p: Plain, op: Op, id: Id, opt: string): Mark {
    match op
    case OpAdd(other, _, _) => if other == id then m.(made := true) else m
    case OpRemove(other) => if other == id then MarkRemove(m) else m
    case OpSet(other, o, val) => if other == id && o == opt then MarkSet(m, val) else m
    case OpGet(_, _) => m
    case OpGetSection(other) => if other == id then MarkRead(m) else m
    case OpMove(conf, sid1, sid2, _) =>
      if conf == id.conf && CanMove(OrderOf(p.cfg, conf), sid1, sid2) then MarkRead(m) else m
  }

  ghost function MarkRun(m: Mark, p: Plain, ops: seq<Op>, id: Id, opt: string): Mark
    decreases |ops|
  {
    if ops == [] then m else MarkRun(MarkStep(m, p, ops[0], id, opt), PlainStep(p, ops[0]), ops[1..], id, opt)
  }

  /** The session leaves the option gone with nothing on record. */
  ghost predicate Loses(loaded: Config, ops: seq<Op>, id: Id, opt: string) {
    && id in loaded && opt in loaded[id] && !Dotted(opt)
    && var m := MarkRun(Mark(false, false, true, false, false), Plain(loaded, 0, {}), ops, id, opt);
       !m.gone && !m.inCopy && !m.dropped && !m.changed
  }

  lemma MarkFolds(st: Store, id: Id, opt: string)
    requires TidyAt(st, id) && id in st.values
    ensures MarkOf(AfterGetSection(st, id), id, opt) == MarkRead(MarkOf(st, id, opt))
  {
    var st' := AfterGetSection(st, id);
    assert st'.changes == st.changes && st'.deletes == st.deletes && st'.creates == st.creates;
    SameMarks(st, st', id);
    hide Dropped;
    hide Changed;
    hide TidyAt;
    hide Removed;
  }

  lemma MarkSame(st: Store, st': Store, id: Id, opt: string)
    requires SameAt(st, st', id)
    ensures MarkOf(st', id, opt) == MarkOf(st, id, opt)
  {
    assert Dropped(st', id) == Dropped(st, id) && Changed(st', id) == Changed(st, id);
  }

  lemma MarkIndexed(st: Store, j: Id, i: nat, id: Id, opt: string)
    requires opt != ".index"
    ensures MarkOf(WithIndex(st, j, i), id, opt) == MarkOf(st, id, opt)
  {
    var st' := WithIndex(st, j, i);
    SameMarks(st, st', id);
    hide Dropped;
    hide Changed;
  }

  lemma ReadTwice(m: Mark)
    ensures MarkRead(MarkRead(m)) == MarkRead(m)
  {
  }

  /** Once the section was among those read it is marked as read. */
  lemma {:induction false} MarkRenumbered(st: Store, conf: string, sa: seq<string>, n: nat, id: Id, opt: string)
    requires Consistent(st) && AllIn(View(st), conf, sa) && n <= |sa| && id in st.values && !Dotted(opt)
    ensures MarkOf(Renumbered(st, conf, sa, n), id, opt) ==
            if id.conf == conf && id.sid in sa[..n] then MarkRead(MarkOf(st, id, opt)) else MarkOf(st, id, opt)
    decreases n
  {
    hide *;
    var m := MarkOf(st, id, opt);
    if n == 0 {
      NotRenumbered(st, conf, sa);
    } else {
      var before, j := Renumbered(st, conf, sa, n - 1), Id(conf, sa[n - 1]);
      MarkRenumbered(st, conf, sa, n - 1, id, opt);
      RenumberedRefines(st, conf, sa, n - 1);
      RenumberedNext(st, conf, sa, n);
      NotIndex(opt);
      MarkIndexed(AfterGetSection(before, j), j, n - 1, id, opt);
      assert sa[..n] == sa[..n - 1] + [sa[n - 1]];
      assert id == Id(id.conf, id.sid);
      if j == id {
        AtOne(before, id);
        MarkFolds(before, id, opt);
        ReadTwice(m);
      } else {
        FoldElsewhere(before, j, id);
        MarkSame(before, AfterGetSection(before, j), id, opt);
      }
    }
  }

  lemma NotIndex(opt: string)
    requires !Dotted(opt)
    ensures opt != ".index"
  {
  }

  lemma MarkMoves(s: State, op: Op, id: Id, opt: string)
    requires Consistent(s.st) && op.OpMove? && id in s.st.values && !Dotted(opt)
    ensures MarkOf(StoreStep(s, op).st, id, opt) == MarkStep(MarkOf(s.st, id, opt), Meaning(s), op, id, opt)
  {
    hide *;
    var m := MarkOf(s.st, id, opt);
    MoveStepIs(s, op, m, id, opt);
    var sa := MoveIs(s.st, op.conf, op.sid1, op.sid2, op.after);
    if CanMove(OrderOf(View(s.st), op.conf), op.sid1, op.sid2) {
      MarkRenumbered(s.st, op.conf, sa, |sa|, id, opt);
      assert sa[..|sa|] == sa && id == Id(id.conf, id.sid);
      if id !in View(s.st) {
        GoneUnread(s.st, id, opt);
      }
    }
  }

  lemma MoveStepIs(s: State, op: Op, m: Mark, id: Id, opt: string)
    requires op.OpMove?
    ensures StoreStep(s, op).st == AfterMove(s.st, op.conf, op.sid1, op.sid2, op.after)
    ensures MarkStep(m, Meaning(s), op, id, opt) ==
            if op.conf == id.conf && CanMove(OrderOf(View(s.st), op.conf), op.sid1, op.sid2) then MarkRead(m) else m
  {
    hide View;
    hide AfterMove;
    hide CanMove;
    hide OrderOf;
    hide MarkRead;
  }

  /** A loaded section that is not listed was removed, so that reading it would change nothing. */
  lemma GoneUnread(st: Store, id: Id, opt: string)
    requires id in st.values && id !in View(st)
    ensures MarkRead(MarkOf(st, id, opt)) == MarkOf(st, id, opt)
  {
    ViewDomain(st, id);
    hide View;
  }

  lemma MarkSets(st: Store, id: Id, o: string, val: Option<Value>, opt: string)
    requires TidyAt(st, id) && id in st.values && !Dotted(opt)
    ensures MarkOf(AfterSet(st, id, o, val), id, opt) ==
            if o == opt then MarkSet(MarkOf(st, id, opt), val) else MarkOf(st, id, opt)
  {
    var st' := AfterSet(st, id, o, val);
    SetLeavesValues(st, id, o, val);
    SetPending(st, id, o, val, opt);
    hide AfterSet;
    hide Dropped;
    hide Changed;
  }

  /** What is pending for an option after it, or another one, was set. */
  lemma SetPending(st: Store, id: Id, o: string, val: Option<Value>, opt: string)
    requires TidyAt(st, id) && id in st.values && !Dotted(opt)
    ensures var st' := AfterSet(st, id, o, val);
            && (id in st'.creates <==> id in st.creates)
            && if o != opt || id in st.creates || Removed(st, id) then
                 && (opt in Dropped(st', id) <==> opt in Dropped(st, id))
                 && (opt in Changed(st', id) <==> opt in Changed(st, id))
               else if val.Some? && val.value != Str("") then
                 opt in Changed(st', id) && opt !in Dropped(st', id)
               else
                 && opt !in Changed(st', id)
                 && (opt in Dropped(st', id) <==> opt in Dropped(st, id) || opt in st.values[id])
  {
    if Dotted(o) || id in st.creates {
      SameMarks(st, AfterSet(st, id, o, val), id);
    } else if val.Some? && val.value != Str("") {
      PutPending(st, id, o, val.value, opt);
    } else {
      UnsetPending(st, id, o, val, opt);
    }
  }

  lemma PutPending(st: Store, id: Id, o: string, v: Value, opt: string)
    requires TidyAt(st, id) && id in st.values && id !in st.creates && !Dotted(o) && v != Str("")
    ensures var st' := AfterSet(st, id, o, Some(v));
            if Removed(st, id) then st' == st
            else
              && (opt in Dropped(st', id) <==> opt in Dropped(st, id) && opt != o)
              && (opt in Changed(st', id) <==> opt in Changed(st, id) || opt == o)
  {
  }

  lemma UnsetPending(st: Store, id: Id, o: string, val: Option<Value>, opt: string)
    requires TidyAt(st, id) && id in st.values && id !in st.creates && !Dotted(o) && (val.None? || val.value == Str(""))
    ensures var st' := AfterSet(st, id, o, val);
            && (opt in Dropped(st', id) <==>
                  opt in Dropped(st, id) || (opt == o && opt in st.values[id] && !Removed(st, id)))
            && (opt in Changed(st', id) <==> opt in Changed(st, id) && opt != o)
  {
  }

  lemma MarkAdds(st: Store, id: Id, section: Section, opt: string)
    ensures MarkOf(AfterAdd(st, id, section), id, opt) == MarkOf(st, id, opt).(made := true)
  {
    var st' := AfterAdd(st, id, section);
    SameMarks(st, st', id);
  }

  lemma MarkRemoves(st: Store, id: Id, opt: string)
    requires id in st.values
    ensures MarkOf(AfterRemove(st, id), id, opt) == MarkRemove(MarkOf(st, id, opt))
  {
    if id in st.creates {
      SameMarks(st, AfterRemove(st, id), id);
    }
  }

  lemma MarkOne(s: State, op: Op, opt: string)
    requires !op.OpMove? && TidyAt(s.st, op.id) && op.id in s.st.values && !Dotted(opt)
    ensures MarkOf(StoreStep(s, op).st, op.id, opt) == MarkStep(MarkOf(s.st, op.id, opt), Meaning(s), op, op.id, opt)
  {
    hide TidyAt;
    hide AfterSet;
    hide AfterGetSection;
    hide AfterAdd;
    hide AfterRemove;
    hide MarkOf;
    match op {
      case OpAdd(id, kind, named) => MarkAdds(s.st, id, NewSection(id, kind, named, s.next), opt);
      case OpRemove(id) => MarkRemoves(s.st, id, opt);
      case OpSet(id, o, val) => MarkSets(s.st, id, o, val, opt);
      case OpGet(_, _) =>
      case OpGetSection(id) => MarkFolds(s.st, id, opt);
    }
  }

  lemma MarkOthers(m: Mark, p: Plain, op: Op, id: Id, opt: string)
    requires !op.OpMove? && op.id != id
    ensures MarkStep(m, p, op, id, opt) == m
  {
  }

  lemma MarkStepped(s: State, op: Op, id: Id, opt: string)
    requires Consistent(s.st) && id in s.st.values && !Dotted(opt)
    ensures MarkOf(StoreStep(s, op).st, id, opt) == MarkStep(MarkOf(s.st, id, opt), Meaning(s), op, id, opt)
  {
    hide *;
    if op.OpMove? {
      MarkMoves(s, op, id, opt);
    } else if op.id == id {
      AtOne(s.st, id);
      MarkOne(s, op, opt);
    } else {
      OthersSame(s, op, id);
      MarkSame(s.st, StoreStep(s, op).st, id, opt);
      MarkOthers(MarkOf(s.st, id, opt), Meaning(s), op, id, opt);
    }
  }

  lemma {:induction false} MarksRun(s: State, loaded: set<Id>, ops: seq<Op>, id: Id, opt: string)
    requires Consistent(s.st) && s.st.values.Keys == loaded && AllAllowed(Meaning(s), ops)
    requires id in loaded && !Dotted(opt)
    ensures MarkOf(StoreRun(s, ops).st, id, opt) == MarkRun(MarkOf(s.st, id, opt), Meaning(s), ops, id, opt)
    decreases |ops|
  {
    if ops != [] {
      hide Consistent;
      hide StoreStep;
      hide PlainStep;
      hide Meaning;
      hide MarkStep;
      hide MarkOf;
      hide Dotted;
      MarkStepped(s, ops[0], id, opt);
      StepRefines(s, loaded, ops[0]);
      MarksRun(StoreStep(s, ops[0]), loaded, ops[1..], id, opt);
    }
  }

  lemma FreshMark(loaded: Config, id: Id, opt: string)
    requires id in loaded && opt in loaded[id]
    ensures MarkOf(Store(loaded, map[], map[], map[]), id, opt) == Mark(false, false, true, false, false)
  {
  }

  lemma LostMark(st: Store, loaded: Config, id: Id, opt: string)
    requires id in loaded && opt in loaded[id] && st.values.Keys == loaded.Keys && Stored(opt)
    ensures var m := MarkOf(st, id, opt);
            Lost(st, loaded, id, opt) <==> !m.gone && !m.inCopy && !m.dropped && !m.changed
  {
  }

  /** Metadata is never lost. */
  lemma TypeStays(st: Store, loaded: Config, id: Id, opt: string)
    requires KeptAt(st, loaded, id) && Stored(opt) && Dotted(opt)
    ensures !Lost(st, loaded, id, opt)
  {
  }

  lemma LosesExactly(loaded: Config, ops: seq<Op>, id: Id, opt: string)
    requires AllAllowed(Plain(loaded, 0, {}), ops)
    ensures var st := StoreRun(State(Store(loaded, map[], map[], map[]), 0), ops).st;
            Lost(st, loaded, id, opt) <==> Loses(loaded, ops, id, opt)
  {
    var start := State(Store(loaded, map[], map[], map[]), 0);
    var st := StoreRun(start, ops).st;
    FreshMeaning(loaded);
    FreshKept(loaded);
    hide Meaning;
    hide StoreRun;
    hide MarkRun;
    hide Consistent;
    hide MarkOf;
    hide AllAllowed;
    RunRefines(start, loaded.Keys, ops);
    RunKeeps(start, loaded, ops);
    assert KeptAt(st, loaded, id);
    if id in loaded && opt in loaded[id] {
      if Dotted(opt) && Stored(opt) {
        TypeStays(st, loaded, id, opt);
      } else if !Dotted(opt) {
        FreshMark(loaded, id, opt);
        MarksRun(start, loaded.Keys, ops, id, opt);
        LostMark(st, loaded, id, opt);
      }
    }
    hide Kept;
    hide KeptAt;
  }

  /**
   After any session, reads of whole sections and moves included, saving makes remote exactly the
   plain configuration of that session if and only if the session loses no option of a loaded section.
   */
  lemma {:induction false} SessionSavesExactly(loaded: Config, ops: seq<Op>, names: map<Id, Id>, dels: seq<Id>,
                                               adds: seq<Id>, sets: seq<Id>)
    requires AllAllowed(Plain(loaded, 0, {}), ops)
    requires var st := StoreRun(State(Store(loaded, map[], map[], map[]), 0), ops).st;
             && Naming(st, names) && UciSave.Lists(dels, st.deletes.Keys)
             && UciSave.Lists(adds, st.creates.Keys) && UciSave.Lists(sets, st.changes.Keys)
    ensures var st := StoreRun(State(Store(loaded, map[], map[], map[]), 0), ops).st;
            && View(st) == PlainRun(Plain(loaded, 0, {}), ops).cfg
            && (Shows(st, names, Saved(st, Contents(loaded), names, dels, adds, sets)) <==>
                  forall id, opt :: !Loses(loaded, ops, id, opt))
  {
    hide *;
    SavesUnlessLost(loaded, ops, names, dels, adds, sets);
    var st := StoreRun(State(Store(loaded, map[], map[], map[]), 0), ops).st;
    forall id: Id, opt: string ensures Loses(loaded, ops, id, opt) <==> Lost(st, loaded, id, opt) {
      LosesExactly(loaded, ops, id, opt);
    }
  }
}
