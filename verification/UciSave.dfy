/** `save`: the remote calls that make the staged changes real. */
module UciSave {
  import opened Common
  import opened UciModel
  import opened UciStore
  import opened UciRuns

  /** `slot` is the local name of the section an add call is for; the call itself carries only its configuration. */
  datatype Call =
    | CallDelete(id: Id, what: Deletion)
    | CallAdd(slot: Id, kind: Option<Value>, name: Option<Value>, options: Section)
    | CallSet(id: Id, options: Section)

  /** What a remote section consists of: its type and its options. */
  predicate Stored(k: string) {
    k == ".type" || !Dotted(k)
  }

  function Content(s: Section): Section {
    map k | k in s && Stored(k) :: s[k]
  }

  function Contents(c: Config): Config {
    map id | id in c :: Content(c[id])
  }

  function OptionsOf(s: Section): Section {
    map k | k in s && !Dotted(k) :: s[k]
  }

  /** The loop of `save` over the keys of a new section. */
  method SplitSection(s: Section) returns (kind: Option<Value>, name: Option<Value>, options: Section)
    ensures kind == Lookup(s, ".type") && name == Lookup(s, ".create") && options == OptionsOf(s)
  {
    kind, name, options := None, None, map[];
    var rest := s.Keys;
    ghost var seen: set<string> := {};
    while rest != {}
      invariant rest <= s.Keys && seen == s.Keys - rest
      invariant kind == if ".type" in seen then Some(s[".type"]) else None
      invariant name == if ".create" in seen then Some(s[".create"]) else None
      invariant options == map k | k in s && k in seen && !Dotted(k) :: s[k]
      decreases rest
    {
      var k :| k in rest;
      if k == ".type" {
        kind := Some(s[k]);
      } else if k == ".create" {
        name := Some(s[k]);
      } else if !Dotted(k) {
        options := options[k := s[k]];
      }
      rest, seen := rest - {k}, seen + {k};
    }
  }

  function DeleteCall(st: Store, id: Id): Call {
    CallDelete(id, if id in st.deletes then st.deletes[id] else Options({}))
  }

  function AddCall(st: Store, id: Id): Call {
    var s := if id in st.creates then st.creates[id] else map[];
    CallAdd(id, Lookup(s, ".type"), Lookup(s, ".create"), OptionsOf(s))
  }

  function SetCall(st: Store, id: Id): Call {
    CallSet(id, Changed(st, id))
  }

  /** The calls for the sections of each list, in order. */
  function DeleteCalls(st: Store, ids: seq<Id>): seq<Call> {
    if ids == [] then [] else [DeleteCall(st, ids[0])] + DeleteCalls(st, ids[1..])
  }

  function AddCalls(st: Store, ids: seq<Id>): seq<Call> {
    if ids == [] then [] else [AddCall(st, ids[0])] + AddCalls(st, ids[1..])
  }

  function SetCalls(st: Store, ids: seq<Id>): seq<Call> {
    if ids == [] then [] else [SetCall(st, ids[0])] + SetCalls(st, ids[1..])
  }

  /** `ids` lists the keys of a map, each once, in whatever order the map yields them. */
  ghost predicate Lists(ids: seq<Id>, keys: set<Id>) {
    Distinct(ids) && (forall id :: id in ids ==> id in keys) && (forall id :: id in keys ==> id in ids)
  }

  method Keys(keys: set<Id>) returns (ids: seq<Id>)
    ensures Lists(ids, keys)
  {
    ids := [];
    var rest := keys;
    while rest != {}
      invariant rest <= keys && Lists(ids, keys - rest)
      decreases rest
    {
      var id :| id in rest;
      ids, rest := [id] + ids, rest - {id};
    }
  }

  /** The tasks of `save`: deletions, then additions, then changes, each over one of the maps. */
  method Save(u: Uci) returns (calls: seq<Call>, dels: seq<Id>, adds: seq<Id>, sets: seq<Id>)
    ensures Lists(dels, u.deletes.Keys) && Lists(adds, u.creates.Keys) && Lists(sets, u.changes.Keys)
    ensures var st := u.Snapshot(); calls == DeleteCalls(st, dels) + AddCalls(st, adds) + SetCalls(st, sets)
  {
    dels := Keys(u.deletes.Keys);
    adds := Keys(u.creates.Keys);
    sets := Keys(u.changes.Keys);
    ghost var st := u.Snapshot();
    calls := [];
    for k := 0 to |dels|
      invariant calls + DeleteCalls(st, dels[k..]) == DeleteCalls(st, dels)
    {
      assert dels[k..][0] == dels[k] && dels[k..][1..] == dels[k + 1..];
      assert dels[k] in dels;
      Shift(calls, DeleteCall(st, dels[k]), DeleteCalls(st, dels[k + 1..]));
      calls := calls + [CallDelete(dels[k], u.deletes[dels[k]])];
    }
    assert dels[|dels|..] == [] && calls + [] == calls;
    ghost var first := calls;
    for k := 0 to |adds|
      invariant calls + AddCalls(st, adds[k..]) == first + AddCalls(st, adds)
    {
      assert adds[k..][0] == adds[k] && adds[k..][1..] == adds[k + 1..];
      assert adds[k] in adds;
      Shift(calls, AddCall(st, adds[k]), AddCalls(st, adds[k + 1..]));
      var kind, name, options := SplitSection(u.creates[adds[k]]);
      calls := calls + [CallAdd(adds[k], kind, name, options)];
    }
    assert adds[|adds|..] == [] && calls + [] == calls;
    ghost var second := calls;
    for k := 0 to |sets|
      invariant calls + SetCalls(st, sets[k..]) == second + SetCalls(st, sets)
    {
      assert sets[k..][0] == sets[k] && sets[k..][1..] == sets[k + 1..];
      assert sets[k] in sets;
      Shift(calls, SetCall(st, sets[k]), SetCalls(st, sets[k + 1..]));
      calls := calls + [CallSet(sets[k], u.changes[sets[k]])];
    }
    assert sets[|sets|..] == [] && calls + [] == calls;
  }

  lemma Shift(done: seq<Call>, c: Call, rest: seq<Call>)
    ensures done + ([c] + rest) == done + [c] + rest
  {
  }

  // ---- what the remote end makes of them ----------------------------------

  /** An add call makes a section if it gives a name, or if it is known what the remote end calls it. */
  predicate Makes(slot: Id, name: Option<Value>, names: map<Id, Id>) {
    (name.Some? && name.value.Str?) || slot in names
  }

  /** `names` is what the remote end calls the sections it is asked to add without a name. */
  function Target(slot: Id, name: Option<Value>, names: map<Id, Id>): Id {
    if name.Some? && name.value.Str? then Id(slot.conf, name.value.text)
    else if slot in names then names[slot]
    else slot
  }

  function Typed(kind: Option<Value>, options: Section): Section {
    if kind.Some? then options[".type" := kind.value] else options
  }

  function ApplyCall(r: Config, c: Call, names: map<Id, Id>): Config {
    match c
    case CallDelete(id, what) =>
      if id !in r then r
      else if what.Whole? then r - {id}
      else r[id := r[id] - what.opts]
    case CallAdd(slot, kind, name, options) =>
      var id := Target(slot, name, names);
      if !Makes(slot, name, names) then r
      else r[id := (if id in r then r[id] else map[]) + Typed(kind, options)]
    case CallSet(id, options) =>
      if id in r then r[id := r[id] + options] else r
  }

  function Apply(r: Config, calls: seq<Call>, names: map<Id, Id>): Config
    decreases |calls|
  {
    if calls == [] then r else Apply(ApplyCall(r, calls[0], names), calls[1..], names)
  }

  lemma {:induction false} ApplyConcat(r: Config, a: seq<Call>, b: seq<Call>, names: map<Id, Id>)
    ensures Apply(r, a + b, names) == Apply(Apply(r, a, names), b, names)
    decreases |a|
  {
    if a == [] {
      assert a + b == b;
    } else {
      assert (a + b)[0] == a[0] && (a + b)[1..] == a[1..] + b;
      ApplyConcat(ApplyCall(r, a[0], names), a[1..], b, names);
    }
  }

  function At(r: Config, id: Id): Option<Section> {
    if id in r then Some(r[id]) else None
  }

  /** Each call concerns one section. */
  lemma {:induction false} DeletesAt(r: Config, st: Store, ids: seq<Id>, names: map<Id, Id>, id: Id)
    requires Distinct(ids)
    ensures At(Apply(r, DeleteCalls(st, ids), names), id) ==
            if id in ids && Removed(st, id) then None
            else if id in ids && id in r then Some(r[id] - Dropped(st, id))
            else At(r, id)
    decreases |ids|
  {
    if ids != [] {
      var c, rest := DeleteCall(st, ids[0]), DeleteCalls(st, ids[1..]);
      assert DeleteCalls(st, ids)[0] == c && DeleteCalls(st, ids)[1..] == rest;
      DeletesAt(ApplyCall(r, c, names), st, ids[1..], names, id);
    }
  }

  lemma {:induction false} SetsAt(r: Config, st: Store, ids: seq<Id>, names: map<Id, Id>, id: Id)
    requires Distinct(ids)
    ensures At(Apply(r, SetCalls(st, ids), names), id) ==
            if id in ids && id in r then Some(r[id] + Changed(st, id)) else At(r, id)
    decreases |ids|
  {
    if ids != [] {
      var c, rest := SetCall(st, ids[0]), SetCalls(st, ids[1..]);
      assert SetCalls(st, ids)[0] == c && SetCalls(st, ids)[1..] == rest;
      SetsAt(ApplyCall(r, c, names), st, ids[1..], names, id);
    }
  }

  /** Where the section created locally as `id` ends up. */
  function Place(st: Store, names: map<Id, Id>, id: Id): Id {
    if id in st.creates then Target(id, Lookup(st.creates[id], ".create"), names) else id
  }

  function NewContent(st: Store, id: Id): Section {
    var s := if id in st.creates then st.creates[id] else map[];
    Typed(Lookup(s, ".type"), OptionsOf(s))
  }

  lemma {:induction false} AddsElsewhere(r: Config, st: Store, ids: seq<Id>, names: map<Id, Id>, t: Id)
    requires forall id :: id in ids ==> id in st.creates && Place(st, names, id) != t
    ensures At(Apply(r, AddCalls(st, ids), names), t) == At(r, t)
    decreases |ids|
  {
    if ids != [] {
      var c, rest := AddCall(st, ids[0]), AddCalls(st, ids[1..]);
      assert AddCalls(st, ids)[0] == c && AddCalls(st, ids)[1..] == rest;
      assert ids[0] in ids;
      AddsElsewhere(ApplyCall(r, c, names), st, ids[1..], names, t);
    }
  }

  lemma {:induction false} AddsAt(r: Config, st: Store, ids: seq<Id>, names: map<Id, Id>, id: Id)
    requires Distinct(ids) && id in ids && forall j :: j in ids ==> j in st.creates
    requires forall j :: j in ids && j != id ==> Place(st, names, j) != Place(st, names, id)
    requires Place(st, names, id) !in r && Makes(id, Lookup(st.creates[id], ".create"), names)
    ensures At(Apply(r, AddCalls(st, ids), names), Place(st, names, id)) == Some(NewContent(st, id))
    decreases |ids|
  {
    var t := Place(st, names, id);
    var c, rest := AddCall(st, ids[0]), AddCalls(st, ids[1..]);
    assert AddCalls(st, ids)[0] == c && AddCalls(st, ids)[1..] == rest;
    var r1 := ApplyCall(r, c, names);
    assert ids[0] in ids;
    if ids[0] == id {
      assert map[] + NewContent(st, id) == NewContent(st, id);
      AddsElsewhere(r1, st, ids[1..], names, t);
    } else {
      AddsAt(r1, st, ids[1..], names, id);
    }
  }

  // ---- the main results ----------------------------------------------------

  /** The remote end names unnamed sections apart from each other and from everything else. */
  ghost predicate Naming(st: Store, names: map<Id, Id>) {
    && (forall id :: id in st.creates && ".create" !in st.creates[id] ==>
          id in names && names[id] !in st.values && names[id] !in st.creates)
    && (forall i, j :: i in names && j in names && i != j ==> names[i] != names[j])
  }

  /** Wherever the local copy of a loaded section departs from the remote one, a change or deletion is pending. */
  predicate Recorded(st: Store, base: Config, id: Id)
    requires id in base && id in st.values
  {
    var pending := Dropped(st, id) + Changed(st, id).Keys;
    base[id] - pending == Content(st.values[id]) - pending
  }

  /** The configuration a remote end holding `base` is left with. */
  function Saved(st: Store, base: Config, names: map<Id, Id>, dels: seq<Id>, adds: seq<Id>, sets: seq<Id>): Config {
    Apply(base, DeleteCalls(st, dels) + AddCalls(st, adds) + SetCalls(st, sets), names)
  }

  lemma PlacesDiffer(st: Store, names: map<Id, Id>, i: Id, j: Id)
    requires Consistent(st) && Naming(st, names) && Live(st, i) && Live(st, j) && i != j
    ensures Place(st, names, i) != Place(st, names, j)
  {
    assert TidyAt(st, i) && TidyAt(st, j);
  }

  lemma {:induction false} Stages(st: Store, base: Config, names: map<Id, Id>, dels: seq<Id>, adds: seq<Id>,
                                  sets: seq<Id>)
    ensures Saved(st, base, names, dels, adds, sets) ==
            Apply(Apply(Apply(base, DeleteCalls(st, dels), names), AddCalls(st, adds), names), SetCalls(st, sets),
                  names)
  {
    ApplyConcat(base, DeleteCalls(st, dels) + AddCalls(st, adds), SetCalls(st, sets), names);
    ApplyConcat(base, DeleteCalls(st, dels), AddCalls(st, adds), names);
  }

  lemma SplitContent(s: Section)
    ensures Typed(Lookup(s, ".type"), OptionsOf(s)) == Content(s)
  {
  }

  /** A section created locally is saved as it reads. */
  lemma {:induction false} SavedNew(st: Store, base: Config, names: map<Id, Id>, dels: seq<Id>, adds: seq<Id>,
                                    sets: seq<Id>, id: Id)
    requires Consistent(st) && Naming(st, names) && base.Keys == st.values.Keys && id in st.creates
    requires Lists(dels, st.deletes.Keys) && Lists(adds, st.creates.Keys) && Lists(sets, st.changes.Keys)
    ensures At(Saved(st, base, names, dels, adds, sets), Place(st, names, id)) == Some(Content(st.creates[id]))
  {
    var t := Place(st, names, id);
    var r1 := Apply(base, DeleteCalls(st, dels), names);
    DeletesAt(base, st, dels, names, t);
    assert TidyAt(st, id) && TidyAt(st, t);
    assert t in st.values ==> t == id && Removed(st, t) && t in dels;
    forall j | j in adds && j != id ensures Place(st, names, j) != t {
      PlacesDiffer(st, names, j, id);
    }
    AddsAt(r1, st, adds, names, id);
    SetsAt(Apply(r1, AddCalls(st, adds), names), st, sets, names, t);
    Stages(st, base, names, dels, adds, sets);
    SplitContent(st.creates[id]);
  }

  lemma NotAPlace(st: Store, names: map<Id, Id>, adds: seq<Id>, id: Id)
    requires Consistent(st) && Naming(st, names) && id in st.values && !Removed(st, id) && Lists(adds, st.creates.Keys)
    ensures forall j :: j in adds ==> j in st.creates && Place(st, names, j) != id
  {
    forall j | j in adds ensures j in st.creates && Place(st, names, j) != id {
      PlacesDiffer(st, names, j, id);
    }
  }

  /** What becomes of a section that was there before. */
  lemma {:induction false} SavedOverlay(st: Store, base: Config, names: map<Id, Id>, dels: seq<Id>, adds: seq<Id>,
                                        sets: seq<Id>, id: Id)
    requires Consistent(st) && Naming(st, names) && base.Keys == st.values.Keys
    requires id in st.values && !Removed(st, id)
    requires Lists(dels, st.deletes.Keys) && Lists(adds, st.creates.Keys) && Lists(sets, st.changes.Keys)
    ensures At(Saved(st, base, names, dels, adds, sets), id) == Some(base[id] - Dropped(st, id) + Changed(st, id))
  {
    assert At(Apply(base, DeleteCalls(st, dels), names), id) == Some(base[id] - Dropped(st, id)) by {
      hide Apply;
      DeletesAt(base, st, dels, names, id);
      assert base[id] - {} == base[id];
    }
    hide Saved;
    hide Place;
    var r1 := Apply(base, DeleteCalls(st, dels), names);
    var r2 := Apply(r1, AddCalls(st, adds), names);
    Stages(st, base, names, dels, adds, sets);
    NotAPlace(st, names, adds, id);
    hide Naming;
    hide Apply;
    AddsElsewhere(r1, st, adds, names, id);
    AfterSets(st, r2, names, sets, id);
  }

  lemma AfterSets(st: Store, r: Config, names: map<Id, Id>, sets: seq<Id>, id: Id)
    requires id in r && Lists(sets, st.changes.Keys)
    ensures At(Apply(r, SetCalls(st, sets), names), id) == Some(r[id] + Changed(st, id))
  {
    hide Apply;
    SetsAt(r, st, sets, names, id);
    assert r[id] + map[] == r[id];
  }

  /** A loaded section is saved as it reads exactly when its differences are recorded. */
  lemma {:induction false} SavedLoaded(st: Store, base: Config, names: map<Id, Id>, dels: seq<Id>, adds: seq<Id>,
                                       sets: seq<Id>, id: Id)
    requires Consistent(st) && Naming(st, names) && base.Keys == st.values.Keys
    requires id in st.values && !Removed(st, id) && forall k :: k in base[id] ==> Stored(k)
    requires Lists(dels, st.deletes.Keys) && Lists(adds, st.creates.Keys) && Lists(sets, st.changes.Keys)
    ensures At(Saved(st, base, names, dels, adds, sets), id) == Some(Content(Overlay(st, id))) <==>
              Recorded(st, base, id)
  {
    hide Saved;
    SavedOverlay(st, base, names, dels, adds, sets, id);
    assert TidyAt(st, id);
    RecordedExactly(base[id], st.values[id], Dropped(st, id), Changed(st, id));
  }

  lemma RecordedExactly(b: Section, v: Section, d: set<string>, c: Section)
    requires (forall k :: k in d || k in c ==> !Dotted(k)) && (forall k :: k in b ==> Stored(k))
    ensures b - d + c == Content(v - d + c) <==> b - (d + c.Keys) == Content(v) - (d + c.Keys)
  {
    var l, r, x, y := b - d + c, Content(v - d + c), b - (d + c.Keys), Content(v) - (d + c.Keys);
    forall k: string
      ensures Lookup(l, k) == Lookup(r, k) <==> Lookup(x, k) == Lookup(y, k)
    {
    }
    SectionEqual(l, r);
    SectionEqual(x, y);
  }

  lemma SectionEqual(m: Section, n: Section)
    ensures m == n <==> forall k :: Lookup(m, k) == Lookup(n, k)
  {
    if forall k :: Lookup(m, k) == Lookup(n, k) {
      forall k: string ensures (k in m <==> k in n) && (k in m ==> m[k] == n[k]) {
        assert Lookup(m, k) == Lookup(n, k);
      }
    }
  }

  /** Sections that are not in the view, and names that stand for none, are not there afterwards. */
  lemma {:induction false} SavedGone(st: Store, base: Config, names: map<Id, Id>, dels: seq<Id>, adds: seq<Id>,
                                     sets: seq<Id>, t: Id)
    requires Consistent(st) && Naming(st, names) && base.Keys == st.values.Keys
    requires forall id :: Place(st, names, id) == t ==> !Live(st, id)
    requires Lists(dels, st.deletes.Keys) && Lists(adds, st.creates.Keys) && Lists(sets, st.changes.Keys)
    ensures t !in Saved(st, base, names, dels, adds, sets)
  {
    var r1 := Apply(base, DeleteCalls(st, dels), names);
    DeletesAt(base, st, dels, names, t);
    if t !in st.creates {
      assert Place(st, names, t) == t;
    }
    forall j | j in adds ensures j in st.creates && Place(st, names, j) != t {
      assert Live(st, j);
    }
    AddsElsewhere(r1, st, adds, names, t);
    SetsAt(Apply(r1, AddCalls(st, adds), names), st, sets, names, t);
    Stages(st, base, names, dels, adds, sets);
  }

  /** The remote configuration `r` is what readers of the store see, with new unnamed sections renamed. */
  ghost predicate Shows(st: Store, names: map<Id, Id>, r: Config) {
    && (forall id :: id in View(st) ==> At(r, Place(st, names, id)) == Some(Content(View(st)[id])))
    && (forall t :: t in r ==> exists id :: id in View(st) && t == Place(st, names, id))
  }

  ghost predicate AllRecorded(st: Store, base: Config)
    requires base.Keys == st.values.Keys
  {
    forall id :: id in st.values && !Removed(st, id) ==> Recorded(st, base, id)
  }

  /**
   Saving makes remote exactly what readers see, in whatever order each map was
   walked, if and only if every local difference is on record.
   */
  lemma {:induction false} SaveIsExact(st: Store, base: Config, names: map<Id, Id>, dels: seq<Id>, adds: seq<Id>,
                                       sets: seq<Id>)
    requires Consistent(st) && Naming(st, names) && base.Keys == st.values.Keys
    requires forall id, k :: id in base && k in base[id] ==> Stored(k)
    requires Lists(dels, st.deletes.Keys) && Lists(adds, st.creates.Keys) && Lists(sets, st.changes.Keys)
    ensures Shows(st, names, Saved(st, base, names, dels, adds, sets)) <==> AllRecorded(st, base)
  {
    var r := Saved(st, base, names, dels, adds, sets);
    hide Saved;
    hide Lists;
    hide Naming;
    forall id: Id ensures id in View(st) <==> Live(st, id) {
      ViewDomain(st, id);
    }
    forall id | id in View(st)
      ensures View(st)[id] == Effective(st, id)
      ensures (At(r, Place(st, names, id)) == Some(Content(View(st)[id]))) <==>
              (id in st.creates || Recorded(st, base, id))
    {
      ViewDomain(st, id);
      if id in st.creates {
        SavedNew(st, base, names, dels, adds, sets, id);
      } else {
        SavedLoaded(st, base, names, dels, adds, sets, id);
      }
    }
    forall t | t in r
      ensures exists id :: id in View(st) && t == Place(st, names, id)
    {
      if forall id :: Place(st, names, id) == t ==> !Live(st, id) {
        SavedGone(st, base, names, dels, adds, sets, t);
      }
    }
    hide View;
    forall id | id in st.values && !Removed(st, id)
      ensures id in View(st) && id !in st.creates
    {
      assert Live(st, id);
    }
  }

  /** An editing session on freshly loaded configurations, with reads of single options only, and its save. */
  lemma {:induction false} SessionSaves(loaded: Config, ops: seq<Op>, names: map<Id, Id>, dels: seq<Id>,
                                        adds: seq<Id>, sets: seq<Id>)
    requires AllAllowed(Plain(loaded, 0, {}), ops) && OptionLevel(ops)
    requires var st := StoreRun(State(Store(loaded, map[], map[], map[]), 0), ops).st;
             && Naming(st, names)
             && Lists(dels, st.deletes.Keys) && Lists(adds, st.creates.Keys) && Lists(sets, st.changes.Keys)
    ensures var st := StoreRun(State(Store(loaded, map[], map[], map[]), 0), ops).st;
            && View(st) == PlainRun(Plain(loaded, 0, {}), ops).cfg
            && Shows(st, names, Saved(st, Contents(loaded), names, dels, adds, sets))
  {
    var first := Store(loaded, map[], map[], map[]);
    FreshMeaning(loaded);
    hide Consistent;
    RunRefines(State(first, 0), loaded.Keys, ops);
    var st := StoreRun(State(first, 0), ops).st;
    hide StoreRun;
    hide Lists;
    hide Shows;
    hide Naming;
    assert forall id :: id in st.values ==> Recorded(st, Contents(loaded), id);
    SaveIsExact(st, Contents(loaded), names, dels, adds, sets);
  }

  lemma FreshMeaning(loaded: Config)
    ensures var first := Store(loaded, map[], map[], map[]);
            Consistent(first) && View(first) == loaded && Meaning(State(first, 0)) == Plain(loaded, 0, {})
  {
    var first := Store(loaded, map[], map[], map[]);
    forall id: Id ensures TidyAt(first, id) && Agree(View(first), loaded, id) {
      ViewDomain(first, id);
      if id in loaded {
        assert loaded[id] - {} + map[] == loaded[id];
      }
    }
    MapEqual(View(first), loaded);
  }

  /** Unset, read the whole section, set, unset: the marks the four steps leave. */
  lemma LosingSteps(id: Id, x: Value, y: Value, opt: string)
    requires !Dotted(opt) && y != Str("")
    ensures var s0 := Store(map[id := map[opt := x]], map[], map[], map[]);
            var s1 := AfterSet(s0, id, opt, None);
            var s2 := AfterGetSection(s1, id);
            var s3 := AfterSet(s2, id, opt, Some(y));
            AfterSet(s3, id, opt, None) == Store(map[id := map[]], map[], map[id := map[]], map[])
  {
    var s0 := Store(map[id := map[opt := x]], map[], map[], map[]);
    var s1 := Store(s0.values, map[], map[], map[id := Options({opt})]);
    var s2 := Store(map[id := map[]], map[], map[], map[id := Options({opt})]);
    var s3 := Store(map[id := map[]], map[], map[id := map[opt := y]], map[]);
    assert {} + {opt} == {opt} && {opt} - {opt} == {};
    assert AfterSet(s0, id, opt, None) == s1;
    assert map[opt := x] + map[] - {opt} == map[];
    assert AfterGetSection(s1, id) == s2;
    assert Unmarked(s2, id, opt) == map[];
    assert AfterSet(s2, id, opt, Some(y)) == s3;
    assert map[opt := y] - {opt} == map[];
    assert Marked(s3, id, opt) == map[];
  }

  /**
   Reading a whole section in between loses a deletion: the option is gone for
   readers, but nothing that `save` sends removes it.
   */
  lemma MergedDeletionIsLost(id: Id, x: Value, y: Value, opt: string)
    requires !Dotted(opt) && y != Str("")
    ensures var ops := [OpSet(id, opt, None), OpGetSection(id), OpSet(id, opt, Some(y)), OpSet(id, opt, None)];
            var st := StoreRun(State(Store(map[id := map[opt := x]], map[], map[], map[]), 0), ops).st;
            && st.values.Keys == {id}
            && Consistent(st) && PlainGet(View(st), id, opt) == None
            && !AllRecorded(st, map[id := map[opt := x]])
  {
    var ops := [OpSet(id, opt, None), OpGetSection(id), OpSet(id, opt, Some(y)), OpSet(id, opt, None)];
    var s0 := Store(map[id := map[opt := x]], map[], map[], map[]);
    LosingSteps(id, x, y, opt);
    FourSteps(State(s0, 0), ops[0], ops[1], ops[2], ops[3]);
    var st := Store(map[id := map[]], map[], map[id := map[]], map[]);
    assert StoreRun(State(s0, 0), ops).st == st;
    hide StoreRun;
    hide AfterSet;
    hide AfterGetSection;
    ViewDomain(st, id);
    forall j: Id ensures TidyAt(st, j) {
    }
    assert opt in map[opt := x] && opt !in Content(st.values[id]);
    assert !Recorded(st, map[id := map[opt := x]], id) by {
      var pending := Dropped(st, id) + Changed(st, id).Keys;
      assert pending == {};
      assert opt in map[opt := x] - pending;
    }
  }

  lemma FourSteps(s: State, a: Op, b: Op, c: Op, d: Op)
    ensures StoreRun(s, [a, b, c, d]) == StoreStep(StoreStep(StoreStep(StoreStep(s, a), b), c), d)
  {
    hide StoreStep;
    assert [a, b, c, d][1..] == [b, c, d] && [b, c, d][1..] == [c, d] && [c, d][1..] == [d] && [d][1..] == [];
    var s1 := StoreStep(s, a);
    var s2 := StoreStep(s1, b);
    var s3 := StoreStep(s2, c);
    assert StoreRun(s3, [d]) == StoreStep(s3, d);
    assert StoreRun(s2, [c, d]) == StoreRun(s3, [d]);
    assert StoreRun(s1, [b, c, d]) == StoreRun(s2, [c, d]);
  }
}
