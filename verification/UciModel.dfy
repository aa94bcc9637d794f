/**
 What the UCI staging store means: a plain configuration, and the overlay of
 four maps that stands for one. A section is addressed by its configuration
 and its own name; a section holds its options and, under names that start
 with a dot, its metadata.
 */
module UciModel {
  import opened Common

  datatype Value = Str(text: string) | List(items: seq<string>) | Number(n: int) | Flag(b: bool)

  datatype Id = Id(conf: string, sid: string)

  type Section = map<string, Value>
  type Config = map<Id, Section>

  predicate Dotted(opt: string) {
    opt != "" && opt[0] == '.'
  }

  // ---- the plain configuration -------------------------------------------

  function NewSection(id: Id, kind: string, named: bool, index: nat): Section {
    map[".type" := Str(kind), ".name" := Str(id.sid), ".anonymous" := Flag(!named), ".index" := Number(1000 + index)]
    + if named then map[".create" := Str(id.sid)] else map[]
  }

  /** What the documentation of `set` promises: null and the empty string remove the option. */
  function PlainSet(c: Config, id: Id, opt: string, val: Option<Value>): Config {
    if Dotted(opt) || id !in c then c
    else if val.None? || val.value == Str("") then c[id := c[id] - {opt}]
    else c[id := c[id][opt := val.value]]
  }

  /** `set` in a new section: only null removes the option, the empty string is stored. */
  function StoringSet(c: Config, id: Id, opt: string, val: Option<Value>): Config {
    if Dotted(opt) || id !in c then c
    else if val.None? then c[id := c[id] - {opt}]
    else c[id := c[id][opt := val.value]]
  }

  function Lookup(s: Section, k: string): Option<Value> {
    if k in s then Some(s[k]) else None
  }

  function PlainGet(c: Config, id: Id, opt: string): Option<Value> {
    if id in c && opt in c[id] then Some(c[id][opt]) else None
  }

  function PlainSection(c: Config, id: Id): Option<Section> {
    if id in c then Some(c[id]) else None
  }

  // ---- the overlay --------------------------------------------------------

  datatype Deletion = Whole | Options(opts: set<string>)

  datatype Store = Store(values: Config, creates: Config, changes: Config, deletes: map<Id, Deletion>)

  predicate Removed(st: Store, id: Id) {
    id in st.deletes && st.deletes[id].Whole?
  }

  /** The options of a loaded section that are marked for deletion. */
  function Dropped(st: Store, id: Id): set<string> {
    if id in st.deletes && st.deletes[id].Options? then st.deletes[id].opts else {}
  }

  function Changed(st: Store, id: Id): Section {
    if id in st.changes then st.changes[id] else map[]
  }

  predicate Live(st: Store, id: Id) {
    id in st.creates || (id in st.values && !Removed(st, id))
  }

  function Overlay(st: Store, id: Id): Section
    requires id in st.values
  {
    st.values[id] - Dropped(st, id) + Changed(st, id)
  }

  function Effective(st: Store, id: Id): Section
    requires Live(st, id)
  {
    if id in st.creates then st.creates[id] else Overlay(st, id)
  }

  /** The configuration the overlay stands for. */
  function View(st: Store): Config {
    map id | id in st.creates.Keys + st.values.Keys && Live(st, id) :: Effective(st, id)
  }

  /**
   Changes and deletions concern a loaded section, never the same option, and are never empty marks;
   a named new section knows its name.
   */
  ghost predicate TidyAt(st: Store, id: Id) {
    && (id in st.changes ==> id in st.values && !Removed(st, id))
    && (id in st.deletes ==> id in st.values && st.deletes[id] != Options({}))
    && (forall opt :: opt in Dropped(st, id) ==> opt !in Changed(st, id) && !Dotted(opt))
    && (forall opt :: opt in Changed(st, id) ==> !Dotted(opt) && Changed(st, id)[opt] != Str(""))
    && (id in st.creates && ".create" in st.creates[id] ==> st.creates[id][".create"] == Str(id.sid))
  }

  ghost predicate Tidy(st: Store) {
    forall id :: TidyAt(st, id)
  }

  /** A created section hides no live loaded one. */
  ghost predicate Unshadowed(st: Store) {
    forall id :: id in st.creates && id in st.values ==> Removed(st, id)
  }

  ghost predicate Consistent(st: Store) {
    Tidy(st) && Unshadowed(st)
  }

  predicate Shadows(st: Store, id: Id) {
    id in st.values && !Removed(st, id)
  }

  // ---- updates of the overlay, one section at a time ----------------------

  predicate Agree<V(==)>(m: map<Id, V>, m': map<Id, V>, id: Id) {
    (id in m <==> id in m') && (id in m ==> m[id] == m'[id])
  }

  predicate SameAt(st: Store, st': Store, id: Id) {
    && Agree(st.values, st'.values, id) && Agree(st.creates, st'.creates, id)
    && Agree(st.changes, st'.changes, id) && Agree(st.deletes, st'.deletes, id)
  }

  lemma SameView(st: Store, st': Store, id: Id)
    requires SameAt(st, st', id)
    ensures Live(st, id) <==> Live(st', id)
    ensures Live(st, id) ==> Effective(st, id) == Effective(st', id)
  {
  }

  /** Replacing what concerns one section changes the view at that section only. */
  lemma ViewUpdate(st: Store, st': Store, id: Id)
    requires forall j :: j != id ==> SameAt(st, st', j)
    ensures View(st') == if Live(st', id) then View(st)[id := Effective(st', id)] else View(st) - {id}
  {
    hide Live;
    hide Effective;
    hide SameAt;
    ViewDomain(st, id);
    ViewDomain(st', id);
    hide View;
    forall j: Id | j != id
      ensures Agree(View(st), View(st'), j)
    {
      assert SameAt(st, st', j);
      SameView(st, st', j);
      ViewDomain(st, j);
      ViewDomain(st', j);
    }
    MapUpdate(View(st), View(st'), id);
  }

  lemma TidyUpdate(st: Store, st': Store, id: Id)
    requires Tidy(st) && TidyAt(st', id) && forall j :: j != id ==> SameAt(st, st', j)
    ensures Tidy(st')
  {
    forall j: Id ensures TidyAt(st', j) {
      if j != id {
        assert SameAt(st, st', j);
        SameTidy(st, st', j);
      }
    }
  }

  lemma SameTidy(st: Store, st': Store, id: Id)
    requires SameAt(st, st', id) && TidyAt(st, id)
    ensures TidyAt(st', id)
  {
  }

  lemma MapUpdate<V>(m: map<Id, V>, m': map<Id, V>, id: Id)
    requires forall j :: j != id ==> Agree(m, m', j)
    ensures m' == if id in m' then m[id := m'[id]] else m - {id}
  {
    var t := if id in m' then m[id := m'[id]] else m - {id};
    forall j ensures Agree(m', t, j) {
      assert j != id ==> Agree(m, m', j);
    }
    MapEqual(m', t);
  }

  lemma MapEqual<V>(m: map<Id, V>, m': map<Id, V>)
    requires forall j :: Agree(m, m', j)
    ensures m == m'
  {
    assert forall j :: Agree(m, m', j) ==> (j in m <==> j in m');
  }

  lemma ViewDomain(st: Store, id: Id)
    ensures id in View(st) <==> Live(st, id)
    ensures Live(st, id) ==> View(st)[id] == Effective(st, id)
  {
    if Live(st, id) {
      assert id in st.creates.Keys + st.values.Keys;
    }
  }
}
