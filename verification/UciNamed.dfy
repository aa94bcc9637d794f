/** Names of new sections: what readers are shown of them, and where `save` puts them. */
module UciNamed {
  import opened Common
  import opened UciModel
  import opened UciStore
  import opened UciOrder
  import opened UciRuns
  import opened UciSave
  import opened UciLost

  /** What readers get of a section that was just added. */
  lemma AddShows(st: Store, id: Id, kind: string, named: bool, next: nat)
    ensures var c := View(AfterAdd(st, id, NewSection(id, kind, named, next)));
            && PlainGet(c, id, ".type") == Some(Str(kind))
            && PlainGet(c, id, ".name") == Some(Str(id.sid))
            && PlainGet(c, id, ".anonymous") == Some(Flag(!named))
            && PlainGet(c, id, ".index") == Some(Number(1000 + next))
            && PlainGet(c, id, ".create") == (if named then Some(Str(id.sid)) else None)
            && forall opt :: opt !in {".type", ".name", ".anonymous", ".index", ".create"} ==>
              PlainGet(c, id, opt) == None
  {
    ViewDomain(AfterAdd(st, id, NewSection(id, kind, named, next)), id);
    hide View;
  }

  // ----- which new sections have no name -----

  function UnnamedStep(unnamed: set<Id>, op: Op): set<Id> {
    match op
    case OpAdd(id, _, named) => if named then unnamed - {id} else unnamed + {id}
    case OpRemove(id) => unnamed - {id}
    case _ => unnamed
  }

  /** The sections that a session leaves which were added without a name, told from its operations. */
  function Unnamed(unnamed: set<Id>, ops: seq<Op>): set<Id>
    decreases |ops|
  {
    if ops == [] then unnamed else Unnamed(UnnamedStep(unnamed, ops[0]), ops[1..])
  }

  /** A new section knows its name exactly if it was given one. */
  ghost predicate KnowsNames(st: Store, unnamed: set<Id>) {
    && unnamed <= st.creates.Keys
    && forall id :: id in st.creates ==>
         Lookup(st.creates[id], ".create") == if id in unnamed then None else Some(Str(id.sid))
  }

  /** The same new sections, with the same names. */
  ghost predicate SameNames(st: Store, st': Store) {
    && st'.creates.Keys == st.creates.Keys
    && forall id :: id in st.creates ==> Lookup(st'.creates[id], ".create") == Lookup(st.creates[id], ".create")
  }

  lemma {:induction false} RenumberNames(st: Store, conf: string, sa: seq<string>, n: nat)
    requires n <= |sa|
    ensures SameNames(st, Renumbered(st, conf, sa, n))
    decreases n
  {
    hide WithIndex;
    hide AfterGetSection;
    if n > 0 {
      hide SameNames;
      RenumberNames(st, conf, sa, n - 1);
      var before := Renumbered(st, conf, sa, n - 1);
      IndexNames(before, Id(conf, sa[n - 1]), n - 1);
      NamesStay(st, before, Renumbered(st, conf, sa, n));
    }
  }

  lemma NamesStay(st: Store, st': Store, st'': Store)
    requires SameNames(st, st') && SameNames(st', st'')
    ensures SameNames(st, st'')
  {
  }

  lemma IndexNames(st: Store, id: Id, i: nat)
    ensures SameNames(st, WithIndex(AfterGetSection(st, id), id, i))
  {
  }

  lemma SetNames(st: Store, id: Id, opt: string, val: Option<Value>)
    ensures SameNames(st, AfterSet(st, id, opt, val))
  {
    hide Removed;
    assert Dotted(".create");
  }

  lemma StepNames(s: State, op: Op, unnamed: set<Id>)
    requires KnowsNames(s.st, unnamed)
    ensures KnowsNames(StoreStep(s, op).st, UnnamedStep(unnamed, op))
  {
    hide *;
    match op {
      case OpAdd(id, kind, named) => AddNames(s, id, kind, named, unnamed);
      case OpRemove(id) => RemoveNames(s, id, unnamed);
      case OpSet(id, opt, val) =>
        SetNames(s.st, id, opt, val);
        OthersName(s, op, unnamed);
      case OpGet(_, _) => OthersName(s, op, unnamed);
      case OpGetSection(_) => OthersName(s, op, unnamed);
      case OpMove(conf, sid1, sid2, after) =>
        var sa := MoveIs(s.st, conf, sid1, sid2, after);
        if CanMove(OrderOf(View(s.st), conf), sid1, sid2) {
          RenumberNames(s.st, conf, sa, |sa|);
        }
        OthersName(s, op, unnamed);
    }
  }

  lemma AddNames(s: State, id: Id, kind: string, named: bool, unnamed: set<Id>)
    requires KnowsNames(s.st, unnamed)
    ensures var op := OpAdd(id, kind, named); KnowsNames(StoreStep(s, op).st, UnnamedStep(unnamed, op))
  {
  }

  lemma RemoveNames(s: State, id: Id, unnamed: set<Id>)
    requires KnowsNames(s.st, unnamed)
    ensures var op := OpRemove(id); KnowsNames(StoreStep(s, op).st, UnnamedStep(unnamed, op))
  {
    hide Removed;
  }

  lemma OthersName(s: State, op: Op, unnamed: set<Id>)
    requires KnowsNames(s.st, unnamed) && !op.OpAdd? && !op.OpRemove?
    requires match op
             case OpSet(id, opt, val) => SameNames(s.st, AfterSet(s.st, id, opt, val))
             case OpMove(conf, sid1, sid2, after) =>
               var st' := AfterMove(s.st, conf, sid1, sid2, after); SameNames(s.st, st') || st' == s.st
             case _ => true
    ensures KnowsNames(StoreStep(s, op).st, UnnamedStep(unnamed, op))
  {
    hide AfterMove;
    hide AfterSet;
  }

  lemma {:induction false} RunNames(s: State, ops: seq<Op>, unnamed: set<Id>)
    requires KnowsNames(s.st, unnamed)
    ensures KnowsNames(StoreRun(s, ops).st, Unnamed(unnamed, ops))
    decreases |ops|
  {
    if ops != [] {
      hide KnowsNames;
      hide StoreStep;
      hide UnnamedStep;
      StepNames(s, ops[0], unnamed);
      RunNames(StoreStep(s, ops[0]), ops[1..], UnnamedStep(unnamed, ops[0]));
    }
  }

  // ----- where they end up -----

  /** The remote end calls unnamed sections apart from each other and from all others, loaded and new. */
  ghost predicate NamesApart(unnamed: set<Id>, taken: set<Id>, names: map<Id, Id>) {
    && (forall id :: id in unnamed ==> id in names && names[id] !in taken)
    && (forall i, j :: i in names && j in names && i != j ==> names[i] != names[j])
  }

  /** A section added without a name is found under the name the remote end gave it, any other under its own. */
  function Called(unnamed: set<Id>, names: map<Id, Id>, id: Id): Id {
    if id in unnamed && id in names then names[id] else id
  }

  ghost predicate Holds(r: Config, c: Config, unnamed: set<Id>, names: map<Id, Id>) {
    && (forall id :: id in c ==> At(r, Called(unnamed, names, id)) == Some(Content(c[id])))
    && (forall t :: t in r ==> exists id :: id in c && t == Called(unnamed, names, id))
  }

  lemma PlaceIsCalled(st: Store, unnamed: set<Id>, names: map<Id, Id>, id: Id)
    requires KnowsNames(st, unnamed) && (forall i :: i in unnamed ==> i in names)
    ensures Place(st, names, id) == Called(unnamed, names, id)
  {
    assert Id(id.conf, id.sid) == id;
  }

  lemma ApartIsNaming(st: Store, unnamed: set<Id>, names: map<Id, Id>)
    requires KnowsNames(st, unnamed) && NamesApart(unnamed, st.values.Keys + st.creates.Keys, names)
    ensures Naming(st, names)
  {
    forall id | id in st.creates && ".create" !in st.creates[id]
      ensures id in names && names[id] !in st.values && names[id] !in st.creates
    {
      assert Lookup(st.creates[id], ".create") == None;
      assert names[id] !in st.values.Keys + st.creates.Keys;
    }
  }

  lemma ShowsIsHolds(st: Store, unnamed: set<Id>, names: map<Id, Id>, r: Config)
    requires KnowsNames(st, unnamed) && (forall i :: i in unnamed ==> i in names)
    ensures Shows(st, names, r) <==> Holds(r, View(st), unnamed, names)
  {
    forall id: Id ensures Place(st, names, id) == Called(unnamed, names, id) {
      PlaceIsCalled(st, unnamed, names, id);
    }
    hide View;
    hide Place;
    hide Called;
    hide Content;
    hide KnowsNames;
    hide UciSave.At;
  }

  /** A session and its save on freshly loaded configurations. */
  ghost predicate Saves(loaded: Config, ops: seq<Op>, names: map<Id, Id>, dels: seq<Id>, adds: seq<Id>, sets: seq<Id>) {
    var p, st := PlainRun(Plain(loaded, 0, {}), ops), StoreRun(State(Store(loaded, map[], map[], map[]), 0), ops).st;
    && AllAllowed(Plain(loaded, 0, {}), ops)
    && NamesApart(Unnamed({}, ops), loaded.Keys + p.made, names)
    && UciSave.Lists(dels, st.deletes.Keys) && UciSave.Lists(adds, st.creates.Keys)
      && UciSave.Lists(sets, st.changes.Keys)
  }

  /** What the remote end holds after that. */
  ghost function After(loaded: Config, ops: seq<Op>, names: map<Id, Id>, dels: seq<Id>, adds: seq<Id>,
                       sets: seq<Id>): Config {
    Saved(StoreRun(State(Store(loaded, map[], map[], map[]), 0), ops).st, Contents(loaded), names, dels, adds, sets)
  }

  lemma RunFacts(loaded: Config, ops: seq<Op>, names: map<Id, Id>, dels: seq<Id>, adds: seq<Id>, sets: seq<Id>)
    requires Saves(loaded, ops, names, dels, adds, sets)
    ensures var p, st := PlainRun(Plain(loaded, 0, {}), ops),
            StoreRun(State(Store(loaded, map[], map[], map[]), 0), ops).st;
            && Consistent(st) && View(st) == p.cfg && st.creates.Keys == p.made && st.values.Keys == loaded.Keys
            && KnowsNames(st, Unnamed({}, ops)) && Naming(st, names)
            && UciSave.Lists(dels, st.deletes.Keys) && UciSave.Lists(adds, st.creates.Keys)
            && UciSave.Lists(sets, st.changes.Keys)
            && AllAllowed(Plain(loaded, 0, {}), ops)
            && forall i :: i in Unnamed({}, ops) ==> i in names
  {
    var start := State(Store(loaded, map[], map[], map[]), 0);
    assert KnowsNames(start.st, {});
    hide *;
    SavesMeans(loaded, ops, names, dels, adds, sets);
    FreshMeaning(loaded);
    RunRefines(start, loaded.Keys, ops);
    RunNames(start, ops, {});
    MeaningParts(StoreRun(start, ops));
    ApartIsNaming(StoreRun(start, ops).st, Unnamed({}, ops), names);
  }

  lemma SavesMeans(loaded: Config, ops: seq<Op>, names: map<Id, Id>, dels: seq<Id>, adds: seq<Id>, sets: seq<Id>)
    requires Saves(loaded, ops, names, dels, adds, sets)
    ensures var p, st := PlainRun(Plain(loaded, 0, {}), ops),
            StoreRun(State(Store(loaded, map[], map[], map[]), 0), ops).st;
            && AllAllowed(Plain(loaded, 0, {}), ops)
            && NamesApart(Unnamed({}, ops), loaded.Keys + p.made, names)
            && (forall i :: i in Unnamed({}, ops) ==> i in names)
            && UciSave.Lists(dels, st.deletes.Keys) && UciSave.Lists(adds, st.creates.Keys)
            && UciSave.Lists(sets, st.changes.Keys)
  {
    hide PlainRun;
    hide StoreRun;
    hide AllAllowed;
    hide Unnamed;
    hide UciSave.Lists;
  }

  lemma MeaningParts(s: State)
    ensures Meaning(s).cfg == View(s.st) && Meaning(s).made == s.st.creates.Keys
  {
  }

  /** Every section a session leaves that it added, named or not, is saved as it reads. */
  lemma {:induction false} NewSectionsSaved(loaded: Config, ops: seq<Op>, names: map<Id, Id>, dels: seq<Id>,
                                            adds: seq<Id>, sets: seq<Id>, id: Id)
    requires Saves(loaded, ops, names, dels, adds, sets) && id in PlainRun(Plain(loaded, 0, {}), ops).made
    ensures var p := PlainRun(Plain(loaded, 0, {}), ops);
            && id in p.cfg
            && At(After(loaded, ops, names, dels, adds, sets), Called(Unnamed({}, ops), names, id)) ==
               Some(Content(p.cfg[id]))
  {
    hide *;
    RunFacts(loaded, ops, names, dels, adds, sets);
    var st := StoreRun(State(Store(loaded, map[], map[], map[]), 0), ops).st;
    ContentsStored(loaded);
    SavedNew(st, Contents(loaded), names, dels, adds, sets, id);
    NewReads(st, id);
    PlaceIsCalled(st, Unnamed({}, ops), names, id);
    AfterIs(loaded, ops, names, dels, adds, sets);
  }

  lemma AfterIs(loaded: Config, ops: seq<Op>, names: map<Id, Id>, dels: seq<Id>, adds: seq<Id>, sets: seq<Id>)
    ensures After(loaded, ops, names, dels, adds, sets) ==
            Saved(StoreRun(State(Store(loaded, map[], map[], map[]), 0), ops).st, Contents(loaded), names, dels, adds,
                  sets)
  {
    hide StoreRun;
    hide Saved;
    hide Contents;
  }

  lemma NewReads(st: Store, id: Id)
    requires id in st.creates
    ensures id in View(st) && View(st)[id] == st.creates[id]
  {
    ViewDomain(st, id);
  }

  /**
   The remote end holds exactly the plain configuration of the session, named sections under their
   names, if and only if the session loses no deletion.
   */
  lemma {:induction false} NamedSessionSaves(loaded: Config, ops: seq<Op>, names: map<Id, Id>, dels: seq<Id>,
                                             adds: seq<Id>, sets: seq<Id>)
    requires Saves(loaded, ops, names, dels, adds, sets)
    ensures Holds(After(loaded, ops, names, dels, adds, sets), PlainRun(Plain(loaded, 0, {}), ops).cfg,
                  Unnamed({}, ops), names) <==>
            forall id, opt :: !Loses(loaded, ops, id, opt)
  {
    hide *;
    RunFacts(loaded, ops, names, dels, adds, sets);
    var st := StoreRun(State(Store(loaded, map[], map[], map[]), 0), ops).st;
    SessionSavesExactly(loaded, ops, names, dels, adds, sets);
    ShowsIsHolds(st, Unnamed({}, ops), names, Saved(st, Contents(loaded), names, dels, adds, sets));
    AfterIs(loaded, ops, names, dels, adds, sets);
  }
}
