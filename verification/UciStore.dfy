/** The local caching and data manipulation layer of uci.js. */
module UciStore {
  import opened Common
  import opened UciModel

  // ---- the effect of each operation on the four maps -----------------------

  function AfterAdd(st: Store, id: Id, section: Section): Store {
    st.(creates := st.creates[id := section])
  }

  function AfterRemove(st: Store, id: Id): Store {
    if id in st.creates then st.(creates := st.creates - {id})
    else if id in st.values then st.(changes := st.changes - {id}, deletes := st.deletes[id := Whole])
    else st
  }

  /** The deletion marks after `opt` has been set. */
  function Unmarked(st: Store, id: Id, opt: string): map<Id, Deletion> {
    var left := Dropped(st, id) - {opt};
    if left == {} then st.deletes - {id} else st.deletes[id := Options(left)]
  }

  /** The deletion marks after `opt` has been unset. */
  function Marked(st: Store, id: Id, opt: string): map<Id, Deletion> {
    if id in st.values && opt in st.values[id] && !Removed(st, id) then
      st.deletes[id := Options(Dropped(st, id) + {opt})]
    else
      st.deletes
  }

  function AfterSet(st: Store, id: Id, opt: string, val: Option<Value>): Store {
    if Dotted(opt) then st
    else if id in st.creates then
      st.(creates := st.creates[id := if val.Some? then st.creates[id][opt := val.value] else st.creates[id] - {opt}])
    else if val.Some? && val.value != Str("") then
      if Removed(st, id) || id !in st.values then st
      else st.(changes := st.changes[id := Changed(st, id)[opt := val.value]], deletes := Unmarked(st, id, opt))
    else
      st.(changes := if id in st.changes then st.changes[id := st.changes[id] - {opt}] else st.changes,
          deletes := Marked(st, id, opt))
  }

  /** Reading a whole section folds what is pending for it into the loaded copy. */
  function AfterGetSection(st: Store, id: Id): Store {
    if id in st.creates || Removed(st, id) || id !in st.values then st
    else st.(values := st.values[id := st.values[id] + Changed(st, id) - Dropped(st, id)])
  }

  class Uci {
    var newidx: nat
    var values: Config
    var creates: Config
    var changes: Config
    var deletes: map<Id, Deletion>
    /** The configurations whose sections were moved. */
    var reorder: set<string>

    function Snapshot(): Store
      reads this`values, this`creates, this`changes, this`deletes
    {
      Store(values, creates, changes, deletes)
    }

    /** Freshly loaded configurations. */
    constructor (loaded: Config)
      ensures Snapshot() == Store(loaded, map[], map[], map[]) && newidx == 0 && reorder == {}
    {
      newidx, values, creates, changes, deletes, reorder := 0, loaded, map[], map[], map[], {};
    }

    /** Adds a section; for an unnamed one `id` is what `createSID` came up with. */
    method Add(id: Id, kind: string, named: bool)
      modifies this`creates, this`newidx
      ensures newidx == old(newidx) + 1
      ensures Snapshot() == AfterAdd(old(Snapshot()), id, NewSection(id, kind, named, old(newidx)))
    {
      var section: Section :=
        map[".type" := Str(kind), ".name" := Str(id.sid), ".anonymous" := Flag(!named),
            ".index" := Number(1000 + newidx)];
      if named {
        section := section[".create" := Str(id.sid)];
      }
      assert section == NewSection(id, kind, named, newidx);
      creates := creates[id := section];
      newidx := newidx + 1;
    }

    method Remove(id: Id)
      modifies this`creates, this`changes, this`deletes
      ensures Snapshot() == AfterRemove(old(Snapshot()), id)
    {
      if id in creates {
        creates := creates - {id};
      } else if id in values {
        changes := changes - {id};
        deletes := deletes[id := Whole];
      }
    }

    /** `get` of one option. */
    method Get(id: Id, opt: string) returns (val: Option<Value>)
      requires TidyAt(Snapshot(), id)
      ensures val == PlainGet(View(Snapshot()), id, opt)
    {
      ViewDomain(Snapshot(), id);
      if id in creates {
        return if opt in creates[id] then Some(creates[id][opt]) else None;
      }
      if id in deletes && (deletes[id].Whole? || opt in deletes[id].opts) {
        return None;
      }
      if id in changes && opt in changes[id] {
        return Some(changes[id][opt]);
      }
      if id in values && opt in values[id] {
        return Some(values[id][opt]);
      }
      return None;
    }

    /** `get` without an option: merges pending changes and deletions into the loaded section before returning it. */
    method GetSection(id: Id) returns (section: Option<Section>)
      requires TidyAt(Snapshot(), id)
      modifies this`values
      ensures section == PlainSection(View(old(Snapshot())), id)
      ensures section.Some? <==> Live(old(Snapshot()), id)
      ensures forall opt ::
        (if section.Some? then Lookup(section.value, opt) else None) == PlainGet(View(old(Snapshot())), id, opt)
      ensures Snapshot() == AfterGetSection(old(Snapshot()), id)
    {
      ViewDomain(Snapshot(), id);
      hide View;
      if id in creates {
        return Some(creates[id]);
      }
      if (id in deletes && deletes[id].Whole?) || id !in values {
        return None;
      }
      var merged := values[id];
      if id in changes {
        merged := merged + changes[id];
      }
      if id in deletes {
        merged := merged - deletes[id].opts;
      }
      MergedParts(Snapshot(), id);
      OverlayMerge(values[id], Dropped(Snapshot(), id), Changed(Snapshot(), id));
      values := values[id := merged];
      return Some(merged);
    }

    /** `set`, and with no value `unset`. */
    method Set(id: Id, opt: string, val: Option<Value>)
      modifies this`creates, this`changes, this`deletes
      ensures Snapshot() == AfterSet(old(Snapshot()), id, opt, val)
    {
      ghost var st := Snapshot();
      if Dotted(opt) {
        return;
      }
      if id in creates {
        creates := creates[id := if val.Some? then creates[id][opt := val.value] else creates[id] - {opt}];
      } else if val.Some? && val.value != Str("") {
        if id in deletes && deletes[id].Whole? {
          return;
        }
        if id !in values {
          return;
        }
        var pending := if id in changes then changes[id] else map[];
        if id in deletes {
          var empty := OnlyOption(deletes[id].opts, opt);
          deletes := if empty then deletes - {id} else deletes[id := Options(deletes[id].opts - {opt})];
        } else {
          NotMarked(st, id, opt);
        }
        changes := changes[id := pending[opt := val.value]];
      } else {
        if id in changes {
          changes := changes[id := changes[id] - {opt}];
        }
        if id in values && opt in values[id] {
          var marks := if id in deletes then deletes[id] else Options({});
          if !marks.Whole? {
            deletes := deletes[id := Options(marks.opts + {opt})];
          }
        }
      }
    }
  }

  /** Whether no option but `opt` is marked. */
  method OnlyOption(opts: set<string>, opt: string) returns (empty: bool)
    ensures empty <==> opts - {opt} == {}
  {
    empty := true;
    var rest := opts;
    while rest != {}
      invariant rest <= opts
      invariant empty <==> opts - rest - {opt} == {}
      decreases rest
    {
      var key :| key in rest;
      if key != opt {
        empty := false;
        assert key in opts - {opt};
        break;
      }
      rest := rest - {key};
    }
  }

  /** An operation on one section leaves everything about the others alone. */
  lemma Local(st: Store, st': Store, id: Id)
    requires Tidy(st) && forall j :: j != id ==> SameAt(st, st', j)
    ensures View(st') == if Live(st', id) then View(st)[id := Effective(st', id)] else View(st) - {id}
    ensures TidyAt(st', id) ==> Tidy(st')
    ensures Unshadowed(st) ==> (Unshadowed(st') <==> (id in st'.creates && id in st'.values ==> Removed(st', id)))
    ensures id in View(st) <==> Live(st, id)
    ensures Live(st, id) ==> View(st)[id] == Effective(st, id)
  {
    ViewUpdate(st, st', id);
    ViewDomain(st, id);
    if TidyAt(st', id) {
      TidyUpdate(st, st', id);
    }
    forall j: Id | j != id ensures Removed(st, j) == Removed(st', j) {
      assert SameAt(st, st', j);
    }
    if Unshadowed(st) && (id in st'.creates && id in st'.values ==> Removed(st', id)) {
      forall j: Id | j in st'.creates && j in st'.values ensures Removed(st', j) {
        assert j != id ==> SameAt(st, st', j);
      }
    }
  }

  lemma Created(st: Store, id: Id, section: Section)
    requires Tidy(st) && (".create" in section ==> section[".create"] == Str(id.sid))
    ensures var st' := st.(creates := st.creates[id := section]);
            && Tidy(st') && View(st') == View(st)[id := section]
            && (Unshadowed(st) ==> (Unshadowed(st') <==> !Shadows(st, id)))
  {
    var st' := st.(creates := st.creates[id := section]);
    assert TidyAt(st, id);
    assert Dropped(st', id) == Dropped(st, id) && Changed(st', id) == Changed(st, id);
    forall j: Id | j != id ensures SameAt(st, st', j) {
    }
    Local(st, st', id);
    hide View;
    hide Unshadowed;
    hide Tidy;
  }

  lemma Uncreated(st: Store, id: Id)
    requires Tidy(st) && id in st.creates
    ensures var st' := st.(creates := st.creates - {id});
            && Tidy(st') && (Unshadowed(st) ==> Unshadowed(st'))
            && (View(st') == View(st) - {id} <==> !Shadows(st, id))
  {
    var st' := st.(creates := st.creates - {id});
    assert TidyAt(st, id);
    assert Dropped(st', id) == Dropped(st, id) && Changed(st', id) == Changed(st, id);
    forall j: Id | j != id ensures SameAt(st, st', j) {
    }
    Local(st, st', id);
    hide View;
    hide Unshadowed;
    hide Tidy;
  }

  lemma Deleted(st: Store, id: Id)
    requires Tidy(st) && id !in st.creates && id in st.values
    ensures var st' := st.(changes := st.changes - {id}, deletes := st.deletes[id := Whole]);
            && Tidy(st') && (Unshadowed(st) ==> Unshadowed(st')) && View(st') == View(st) - {id}
  {
    var st' := st.(changes := st.changes - {id}, deletes := st.deletes[id := Whole]);
    assert Dropped(st', id) == {} && Changed(st', id) == map[];
    forall j: Id | j != id ensures SameAt(st, st', j) {
    }
    Local(st, st', id);
    hide View;
    hide Unshadowed;
    hide Tidy;
  }

  lemma SetCreated(st: Store, id: Id, opt: string, val: Option<Value>)
    requires Tidy(st) && id in st.creates && !Dotted(opt)
    ensures var st' := st.(creates := st.creates[id :=
                         if val.Some? then st.creates[id][opt := val.value] else st.creates[id] - {opt}]);
            && Tidy(st') && (Unshadowed(st) ==> Unshadowed(st'))
            && (View(st') == PlainSet(View(st), id, opt, val) <==> val != Some(Str("")))
            && View(st') == StoringSet(View(st), id, opt, val)
  {
    var section := if val.Some? then st.creates[id][opt := val.value] else st.creates[id] - {opt};
    var st' := st.(creates := st.creates[id := section]);
    forall j: Id | j != id ensures SameAt(st, st', j) {
    }
    assert TidyAt(st, id);
    assert Dropped(st', id) == Dropped(st, id) && Changed(st', id) == Changed(st, id);
    Local(st, st', id);
    hide View;
    hide Unshadowed;
    hide Tidy;
    var was := View(st);
    assert View(st') == was[id := section];
    if val == Some(Str("")) {
      assert opt in View(st')[id] && opt !in PlainSet(was, id, opt, val)[id];
    }
  }

  lemma NotMarked(st: Store, id: Id, opt: string)
    requires id !in st.deletes
    ensures Unmarked(st, id, opt) == st.deletes
  {
    assert Dropped(st, id) == {};
  }

  lemma SetLoaded(st: Store, id: Id, opt: string, v: Value)
    requires Tidy(st) && id !in st.creates && id in st.values && !Removed(st, id) && !Dotted(opt) && v != Str("")
    ensures var st' := st.(changes := st.changes[id := Changed(st, id)[opt := v]], deletes := Unmarked(st, id, opt));
            && Tidy(st') && (Unshadowed(st) ==> Unshadowed(st')) && View(st') == PlainSet(View(st), id, opt, Some(v))
  {
    var left := Dropped(st, id) - {opt};
    var st' := st.(changes := st.changes[id := Changed(st, id)[opt := v]], deletes := Unmarked(st, id, opt));
    assert TidyAt(st, id);
    assert Dropped(st', id) == left && Changed(st', id) == Changed(st, id)[opt := v];
    assert TidyAt(st', id);
    forall j: Id | j != id ensures SameAt(st, st', j) {
    }
    Local(st, st', id);
    OverlaySet(st.values[id], Dropped(st, id), Changed(st, id), opt, v);
    hide View;
    hide Unshadowed;
    hide Tidy;
  }

  lemma OverlaySet(v: Section, d: set<string>, c: Section, opt: string, x: Value)
    ensures v - (d - {opt}) + c[opt := x] == (v - d + c)[opt := x]
  {
  }

  lemma UnsetLoaded(st: Store, id: Id, opt: string, val: Option<Value>)
    requires Tidy(st) && id !in st.creates && !Dotted(opt) && (val.None? || val.value == Str(""))
    ensures var st' := st.(changes := if id in st.changes then st.changes[id := st.changes[id] - {opt}] else st.changes,
                           deletes := Marked(st, id, opt));
            && Tidy(st') && (Unshadowed(st) ==> Unshadowed(st')) && View(st') == PlainSet(View(st), id, opt, val)
  {
    var st' := st.(changes := if id in st.changes then st.changes[id := st.changes[id] - {opt}] else st.changes,
                   deletes := Marked(st, id, opt));
    assert TidyAt(st, id);
    assert Changed(st', id) == Changed(st, id) - {opt};
    assert TidyAt(st', id);
    forall j: Id | j != id ensures SameAt(st, st', j) {
    }
    Local(st, st', id);
    if Live(st, id) {
      OverlayUnset(st.values[id], Dropped(st, id), Changed(st, id), opt);
      assert Effective(st', id) == Effective(st, id) - {opt};
    }
    hide View;
    hide Unshadowed;
    hide Tidy;
    hide Effective;
  }

  lemma OverlayUnset(v: Section, d: set<string>, c: Section, opt: string)
    ensures v - (d + {opt}) + (c - {opt}) == v - d + c - {opt}
    ensures opt !in v ==> v - d + (c - {opt}) == v - d + c - {opt}
  {
  }

  lemma Merged(st: Store, id: Id)
    requires Tidy(st) && id !in st.creates && id in st.values && !Removed(st, id)
    ensures var now := st.values[id] + Changed(st, id) - Dropped(st, id);
            var st' := st.(values := st.values[id := now]);
            && Tidy(st') && (Unshadowed(st) ==> Unshadowed(st')) && View(st') == View(st)
            && now == Overlay(st, id)
  {
    var now := st.values[id] + Changed(st, id) - Dropped(st, id);
    var st' := st.(values := st.values[id := now]);
    assert TidyAt(st, id);
    OverlayMerge(st.values[id], Dropped(st, id), Changed(st, id));
    hide View;
    hide Tidy;
    hide Unshadowed;
    MergedElsewhere(st, id, now);
    Local(st, st', id);
  }

  lemma MergedElsewhere(st: Store, id: Id, now: Section)
    requires id !in st.creates && id in st.values && !Removed(st, id) && TidyAt(st, id)
    requires now - Dropped(st, id) + Changed(st, id) == Overlay(st, id)
    ensures var st' := st.(values := st.values[id := now]);
            && TidyAt(st', id) && Live(st', id) && Effective(st', id) == Effective(st, id)
            && forall j :: j != id ==> SameAt(st, st', j)
  {
    var st' := st.(values := st.values[id := now]);
    assert Dropped(st', id) == Dropped(st, id) && Changed(st', id) == Changed(st, id);
  }

  lemma MergedParts(st: Store, id: Id)
    requires id in st.values && !Removed(st, id)
    ensures var merged := if id in st.changes then st.values[id] + st.changes[id] else st.values[id];
            (if id in st.deletes then merged - st.deletes[id].opts else merged)
            == st.values[id] + Changed(st, id) - Dropped(st, id)
  {
  }

  lemma OverlayMerge(v: Section, d: set<string>, c: Section)
    requires d !! c.Keys
    ensures v + c - d == v - d + c
    ensures (v + c - d) - d + c == v - d + c
  {
  }

  // ---- each operation against the plain configuration ----------------------

  /** Adding a section under a name not in use by a live loaded section. */
  lemma AddRefines(st: Store, id: Id, section: Section)
    requires Tidy(st) && (".create" in section ==> section[".create"] == Str(id.sid))
    ensures var st' := AfterAdd(st, id, section);
            && Tidy(st') && View(st') == View(st)[id := section]
            && (Unshadowed(st) ==> (Unshadowed(st') <==> !Shadows(st, id)))
  {
    Created(st, id, section);
  }

  /** Removal works unless a new section hides a loaded one of the same name, which then comes back. */
  lemma RemoveRefines(st: Store, id: Id)
    requires Tidy(st)
    ensures var st' := AfterRemove(st, id);
            && Tidy(st') && (Unshadowed(st) ==> Unshadowed(st'))
            && (View(st') == View(st) - {id} <==> !(id in st.creates && Shadows(st, id)))
  {
    if id in st.creates {
      Uncreated(st, id);
    } else if id in st.values {
      Deleted(st, id);
    } else {
      assert View(st) == View(st) - {id} by {
        ViewDomain(st, id);
        hide View;
      }
    }
  }

  /**
   `set` does what its documentation says, except that an empty string is stored
   rather than removed in a section that has just been created.
   */
  lemma SetRefines(st: Store, id: Id, opt: string, val: Option<Value>)
    requires Tidy(st)
    ensures var st' := AfterSet(st, id, opt, val);
            && Tidy(st') && (Unshadowed(st) ==> Unshadowed(st'))
            && (View(st') == PlainSet(View(st), id, opt, val) <==>
                  !(id in st.creates && !Dotted(opt) && val == Some(Str(""))))
  {
    hide View;
    hide Tidy;
    hide Unshadowed;
    // The cases in which `set` returns early.
    assert Dotted(opt) || !Live(st, id) ==> PlainSet(View(st), id, opt, val) == View(st) by {
      ViewDomain(st, id);
      hide View;
    }
    if Dotted(opt) {
    } else if id in st.creates {
      SetCreated(st, id, opt, val);
    } else if val.Some? && val.value != Str("") {
      if !Removed(st, id) && id in st.values {
        SetLoaded(st, id, opt, val.value);
      }
    } else {
      UnsetLoaded(st, id, opt, val);
    }
  }

  /** In a created section `set` removes an option for null only. */
  lemma SetStores(st: Store, id: Id, opt: string, val: Option<Value>)
    requires Tidy(st) && id in st.creates
    ensures View(AfterSet(st, id, opt, val)) == StoringSet(View(st), id, opt, val)
  {
    hide View;
    hide Tidy;
    if !Dotted(opt) {
      SetCreated(st, id, opt, val);
    }
  }

  /** Folding pending edits into the loaded copy changes nothing a reader can see. */
  lemma GetSectionRefines(st: Store, id: Id)
    requires Tidy(st)
    ensures var st' := AfterGetSection(st, id);
            Tidy(st') && (Unshadowed(st) ==> Unshadowed(st')) && View(st') == View(st)
  {
    if !(id in st.creates || Removed(st, id) || id !in st.values) {
      Merged(st, id);
    }
  }
}
