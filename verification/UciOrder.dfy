/** The order of sections in uci.js: `sections`, and what `move` makes of it. */
module UciOrder {
  import opened Common
  import opened UciModel
  import opened UciStore

  /** Every section of the configuration has a number as index. */
  ghost predicate Indexed(c: Config, conf: string) {
    forall sid :: Id(conf, sid) in c ==> ".index" in c[Id(conf, sid)] && c[Id(conf, sid)][".index"].Number?
  }

  /** The index of a section, 0 standing for one that is no number. */
  function IndexOf(c: Config, conf: string, sid: string): int {
    var id := Id(conf, sid);
    if id in c && ".index" in c[id] && c[id][".index"].Number? then c[id][".index"].n else 0
  }

  /** All the sections of the configuration, once each. */
  ghost predicate Lists(c: Config, conf: string, sa: seq<string>) {
    Distinct(sa) && forall sid :: sid in sa <==> Id(conf, sid) in c
  }

  /** `sa` lists the sections by ascending index. */
  ghost predicate IsOrder(c: Config, conf: string, sa: seq<string>) {
    && Lists(c, conf, sa)
    && forall i, j :: 0 <= i < j < |sa| ==> IndexOf(c, conf, sa[i]) <= IndexOf(c, conf, sa[j])
  }

  ghost predicate Apart(c: Config, conf: string) {
    forall x, y :: Id(conf, x) in c && Id(conf, y) in c && x != y ==> IndexOf(c, conf, x) != IndexOf(c, conf, y)
  }

  /** If all indices differ, only one list is in that order. */
  lemma {:induction false} OrderIsUnique(c: Config, conf: string, sa: seq<string>, sb: seq<string>)
    requires Apart(c, conf) && IsOrder(c, conf, sa) && IsOrder(c, conf, sb)
    ensures sa == sb
    decreases |sa|
  {
    assert sa == [] <==> sb == [] by {
      assert IsOrder(c, conf, sa) && IsOrder(c, conf, sb);
      assert sa != [] ==> sa[0] in sb;
      assert sb != [] ==> sb[0] in sa;
    }
    hide *;
    if sa != [] {
      var n, m := |sa| - 1, |sb| - 1;
      assert sa[|sa| - 1] == sb[|sb| - 1] by {
        var a, b := sa[|sa| - 1], sb[|sb| - 1];
        assert a in sb && b in sa;
      }
      OrderOfRest(c, conf, sa);
      OrderOfRest(c, conf, sb);
      OrderIsUnique(c - {Id(conf, sa[n])}, conf, sa[..n], sb[..m]);
      assert sa == sa[..n] + [sa[n]] && sb == sb[..m] + [sb[m]];
    }
  }

  lemma OrderOfRest(c: Config, conf: string, sa: seq<string>)
    requires Apart(c, conf) && IsOrder(c, conf, sa) && sa != []
    ensures var c' := c - {Id(conf, sa[|sa| - 1])};
            Apart(c', conf) && IsOrder(c', conf, sa[..|sa| - 1])
  {
    var n := |sa| - 1;
    var c', front := c - {Id(conf, sa[n])}, sa[..n];
    WithoutLast(sa);
    assert forall sid :: Id(conf, sid) in c' <==> Id(conf, sid) in c && sid != sa[n];
    assert forall sid :: sid != sa[n] ==> IndexOf(c', conf, sid) == IndexOf(c, conf, sid);
    hide IndexOf;
    hide Distinct;
    assert forall k :: 0 <= k < n ==> front[k] == sa[k] && front[k] in front;
  }

  lemma WithoutLast(sa: seq<string>)
    requires Distinct(sa) && sa != []
    ensures var n := |sa| - 1; Distinct(sa[..n]) && forall sid :: sid in sa[..n] <==> sid in sa && sid != sa[n]
  {
    var n := |sa| - 1;
    assert sa == sa[..n] + [sa[n]];
  }

  // ----- moving -----

  ghost predicate TakenOut(sa: seq<string>, sid: string, rest: seq<string>) {
    exists a, b :: sa == a + [sid] + b && rest == a + b
  }

  ghost predicate PutBeside(rest: seq<string>, sid: string, other: string, after: bool, r: seq<string>) {
    exists a, b :: rest == a + [other] + b && r == a + (if after then [other, sid] else [sid, other]) + b
  }

  /** `sid` is taken out of its place and put before or after another section, or at the end. */
  ghost predicate IsMoved(sa: seq<string>, sid: string, at: Option<string>, after: bool, r: seq<string>) {
    exists rest :: TakenOut(sa, sid, rest) &&
      match at
      case None => r == rest + [sid]
      case Some(other) => PutBeside(rest, sid, other, after, r)
  }

  predicate CanMove(sa: seq<string>, sid: string, at: Option<string>) {
    sid in sa && (at.Some? ==> at.value in sa && at.value != sid)
  }

  lemma {:induction false} IsMovedBy(sa: seq<string>, sid: string, at: Option<string>, after: bool, r: seq<string>,
                                     rest: seq<string>)
    requires TakenOut(sa, sid, rest)
    requires match at case None => r == rest + [sid] case Some(other) => PutBeside(rest, sid, other, after, r)
    ensures IsMoved(sa, sid, at, after, r)
  {
  }

  ghost predicate OnceEach(m: multiset<string>) {
    forall x :: m[x] <= 1
  }

  lemma OnceLast(m: multiset<string>, x: string)
    ensures OnceEach(m + multiset{x}) <==> OnceEach(m) && m[x] == 0
  {
    var n := m + multiset{x};
    assert n[x] == m[x] + 1;
    assert forall y :: m[y] <= n[y] && (y != x ==> n[y] == m[y]);
  }

  lemma {:induction false} CountsOnce(s: seq<string>)
    ensures Distinct(s) <==> OnceEach(multiset(s))
    decreases |s|
  {
    if s != [] {
      var n := |s| - 1;
      assert s == s[..n] + [s[n]];
      CountsOnce(s[..n]);
      assert var n := |s| - 1; Distinct(s) <==> Distinct(s[..n]) && s[n] !in s[..n] by {
        var n := |s| - 1;
        assert Distinct(s) ==> Distinct(s[..n]) && s[n] !in s[..n];
      }
      OnceLast(multiset(s[..n]), s[n]);
      hide OnceEach;
      hide Distinct;
      assert s[n] in s[..n] <==> s[n] in multiset(s[..n]);
    }
  }

  lemma CountsThree(a: seq<string>, m: seq<string>, b: seq<string>)
    ensures multiset(a + m + b) == multiset(a) + multiset(m) + multiset(b)
  {
  }

  lemma CountsPair(x: string, y: string)
    ensures multiset([x, y]) == multiset{x, y}
  {
  }

  lemma OneMore(a: multiset<string>, b: multiset<string>, x: string, y: string)
    ensures a + multiset{x, y} + b == a + multiset{y, x} + b == a + multiset{x} + b + multiset{y}
  {
  }

  lemma TakenOutCounts(sa: seq<string>, sid: string, rest: seq<string>)
    requires TakenOut(sa, sid, rest)
    ensures multiset(sa) == multiset(rest) + multiset{sid} && |sa| == |rest| + 1
  {
    var a, b :| sa == a + [sid] + b && rest == a + b;
    CountsThree(a, [sid], b);
  }

  lemma PutBesideCounts(rest: seq<string>, sid: string, other: string, after: bool, r: seq<string>)
    requires PutBeside(rest, sid, other, after, r)
    ensures multiset(r) == multiset(rest) + multiset{sid} && |r| == |rest| + 1
  {
    var a, b :| rest == a + [other] + b && r == a + (if after then [other, sid] else [sid, other]) + b;
    hide PutBeside;
    var pair := if after then [other, sid] else [sid, other];
    CountsPair(other, sid);
    CountsPair(sid, other);
    CountsThree(a, pair, b);
    CountsThree(a, [other], b);
    OneMore(multiset(a), multiset(b), other, sid);
  }

  /** Moving permutes: every section is there once, as before. */
  lemma MovePermutes(sa: seq<string>, sid: string, at: Option<string>, after: bool, r: seq<string>)
    requires IsMoved(sa, sid, at, after, r)
    ensures multiset(r) == multiset(sa) && |r| == |sa|
    ensures Distinct(sa) ==> Distinct(r)
    ensures forall x :: x in r <==> x in sa
  {
    hide TakenOut;
    hide PutBeside;
    hide Distinct;
    hide OnceEach;
    var rest :| TakenOut(sa, sid, rest) &&
      match at
      case None => r == rest + [sid]
      case Some(other) => PutBeside(rest, sid, other, after, r);
    TakenOutCounts(sa, sid, rest);
    match at {
      case None =>
        assert multiset(rest + [sid]) == multiset(rest) + multiset{sid};
      case Some(other) =>
        PutBesideCounts(rest, sid, other, after, r);
    }
    CountsOnce(sa);
    CountsOnce(r);
    forall x ensures x in r <==> x in sa {
      assert x in multiset(r) <==> x in r;
      assert x in multiset(sa) <==> x in sa;
    }
  }

  // ----- `sections` -----

  /** The position of a section among those sorted so far: behind all that do not come after it. */
  function Insert(sa: seq<string>, sid: string, key: map<string, int>): seq<string>
    requires sid in key && forall s :: s in sa ==> s in key
  {
    if sa == [] || key[sa[|sa| - 1]] <= key[sid] then sa + [sid]
    else Insert(sa[..|sa| - 1], sid, key) + [sa[|sa| - 1]]
  }

  /** `sort`, which keeps sections of the same index in their order. */
  function SortBy(sa: seq<string>, key: map<string, int>): seq<string>
    requires forall s :: s in sa ==> s in key
    ensures multiset(SortBy(sa, key)) == multiset(sa)
  {
    if sa == [] then []
    else
      var front, last := sa[..|sa| - 1], sa[|sa| - 1];
      assert sa == front + [last];
      var sorted := SortBy(front, key);
      assert forall s :: s in sorted ==> s in multiset(sorted);
      InsertCounts(sorted, last, key);
      Insert(sorted, last, key)
  }

  lemma {:induction false} InsertCounts(sa: seq<string>, sid: string, key: map<string, int>)
    requires sid in key && forall s :: s in sa ==> s in key
    ensures multiset(Insert(sa, sid, key)) == multiset(sa) + multiset{sid}
    decreases |sa|
  {
    if !(sa == [] || key[sa[|sa| - 1]] <= key[sid]) {
      assert sa == sa[..|sa| - 1] + [sa[|sa| - 1]];
      InsertCounts(sa[..|sa| - 1], sid, key);
    }
  }

  ghost predicate Ascending(sa: seq<string>, key: map<string, int>)
    requires forall s :: s in sa ==> s in key
  {
    forall i, j :: 0 <= i < j < |sa| ==> key[sa[i]] <= key[sa[j]]
  }

  lemma {:induction false} InsertAscends(sa: seq<string>, sid: string, key: map<string, int>)
    requires sid in key && forall s :: s in sa ==> s in key
    requires Ascending(sa, key)
    ensures var r := Insert(sa, sid, key);
            && (forall s :: s in r ==> s in key) && Ascending(r, key)
            && forall s :: s in r ==> s in sa || s == sid
    decreases |sa|
  {
    if !(sa == [] || key[sa[|sa| - 1]] <= key[sid]) {
      var front := sa[..|sa| - 1];
      InsertAscends(front, sid, key);
      var r := Insert(front, sid, key);
      forall i | 0 <= i < |r| ensures key[r[i]] <= key[sa[|sa| - 1]] {
        assert r[i] in front || r[i] == sid;
      }
    }
  }

  lemma {:induction false} SortAscends(sa: seq<string>, key: map<string, int>)
    requires forall s :: s in sa ==> s in key
    ensures var r := SortBy(sa, key); (forall s :: s in r <==> s in sa) && Ascending(r, key)
    ensures Distinct(sa) ==> Distinct(SortBy(sa, key))
    decreases |sa|
  {
    var r := SortBy(sa, key);
    forall s ensures s in r <==> s in sa {
      assert s in multiset(r) <==> s in r;
      assert s in multiset(sa) <==> s in sa;
    }
    CountsOnce(sa);
    CountsOnce(r);
    if sa != [] {
      var front := sa[..|sa| - 1];
      SortAscends(front, key);
      InsertAscends(SortBy(front, key), sa[|sa| - 1], key);
    }
  }

  /** The sections gathered so far: those of `conf` among `done`, with their indices. */
  ghost predicate Gathered(c: Config, conf: string, done: set<Id>, sa: seq<string>, key: map<string, int>) {
    && Distinct(sa)
    && (forall sid :: sid in sa <==> Id(conf, sid) in done && Id(conf, sid) in c)
    && forall sid :: sid in sa ==> sid in key && key[sid] == IndexOf(c, conf, sid)
  }

  lemma {:induction false} GatherNext(c: Config, conf: string, done: set<Id>, sa: seq<string>, key: map<string, int>,
                                      id: Id, n: int)
    requires Indexed(c, conf) && Gathered(c, conf, done, sa, key) && id !in done
    ensures id.conf == conf && id in c && n == IndexOf(c, conf, id.sid) ==>
              Gathered(c, conf, done + {id}, sa + [id.sid], key[id.sid := n])
    ensures !(id.conf == conf && id in c) ==> Gathered(c, conf, done + {id}, sa, key)
  {
    assert id == Id(id.conf, id.sid);
  }

  lemma GatheredAll(c: Config, conf: string, done: set<Id>, sa: seq<string>, key: map<string, int>)
    requires Gathered(c, conf, done, sa, key) && forall id :: id in c ==> id in done
    ensures (forall s :: s in sa ==> s in key) && IsOrder(c, conf, SortBy(sa, key))
  {
    SortAscends(sa, key);
    hide SortBy;
  }

  ghost function Sids(c: Config, conf: string): set<string> {
    set id | id in c && id.conf == conf :: id.sid
  }

  ghost function Listing(names: set<string>): (sa: seq<string>)
    ensures Distinct(sa) && forall sid :: sid in sa <==> sid in names
  {
    if names == {} then []
    else
      var sid :| sid in names;
      var rest := Listing(names - {sid});
      assert forall x :: x in [sid] + rest <==> x == sid || x in rest;
      [sid] + rest
  }

  /** The sections of the configuration in the order of their indices. */
  ghost function OrderOf(c: Config, conf: string): (sa: seq<string>)
    ensures IsOrder(c, conf, sa)
  {
    var listing := Listing(Sids(c, conf));
    var key := map sid | sid in Sids(c, conf) :: IndexOf(c, conf, sid);
    ListingGathered(c, conf, listing, key);
    GatheredAll(c, conf, c.Keys, listing, key);
    SortBy(listing, key)
  }

  lemma ListingGathered(c: Config, conf: string, sa: seq<string>, key: map<string, int>)
    requires Distinct(sa) && forall sid :: sid in sa <==> sid in Sids(c, conf)
    requires forall sid :: sid in Sids(c, conf) ==> sid in key && key[sid] == IndexOf(c, conf, sid)
    ensures Gathered(c, conf, c.Keys, sa, key)
  {
    forall sid ensures sid in Sids(c, conf) <==> Id(conf, sid) in c {
      if Id(conf, sid) in c {
        assert Id(conf, sid).sid == sid;
      }
    }
  }

  /** What `sections` shows of a section: what is pending is merged in, but not the deletions. */
  function CopyAt(st: Store, id: Id): Section {
    if id in st.creates then st.creates[id]
    else if id in st.values then st.values[id] + Changed(st, id)
    else map[]
  }

  /** It is what readers of the section itself get if and only if no option still there is marked for deletion. */
  lemma CopyExactly(st: Store, id: Id)
    requires Live(st, id) && TidyAt(st, id)
    ensures CopyAt(st, id) == View(st)[id] <==> id in st.creates || Dropped(st, id) !! st.values[id].Keys
  {
    ViewDomain(st, id);
    hide View;
    if id !in st.creates {
      var v, d, c := st.values[id], Dropped(st, id), Changed(st, id);
      assert forall opt :: opt in d ==> opt !in c;
      assert forall opt :: opt in v - d + c <==> (opt in v && opt !in d) || opt in c;
      hide Dropped;
      hide Changed;
      if d !! v.Keys {
        assert v - d == v;
      } else {
        var opt :| opt in d && opt in v;
        assert opt in v + c && opt !in v - d + c;
      }
    }
  }

  /** What `sections` sees of a loaded section. */
  lemma LoadedIndex(st: Store, conf: string, id: Id)
    requires Consistent(st) && Indexed(View(st), conf) && id.conf == conf && id in st.values && !Removed(st, id)
    ensures id in View(st) && id !in st.creates
    ensures var copy := CopyAt(st, id);
            ".index" in copy && copy[".index"] == Number(IndexOf(View(st), conf, id.sid))
  {
    ViewDomain(st, id);
    assert TidyAt(st, id);
    assert id == Id(conf, id.sid);
    hide View;
    assert ".index" in View(st)[id];
  }

  lemma NotListed(st: Store, id: Id)
    requires Unshadowed(st)
    ensures id in st.values && Removed(st, id) && id !in st.creates ==> id !in View(st)
    ensures id !in st.values && id !in st.creates ==> id !in View(st)
  {
    ViewDomain(st, id);
    hide View;
  }

  /** The loaded sections looked at so far, and not hidden by new ones. */
  ghost function LoadedDone(st: Store, todo: set<Id>): set<Id> {
    st.values.Keys - todo - st.creates.Keys
  }

  ghost function CreatedDone(st: Store, todo: set<Id>): set<Id> {
    st.values.Keys - st.creates.Keys + (st.creates.Keys - todo)
  }

  lemma {:induction false} LoadedNext(st: Store, conf: string, todo: set<Id>, id: Id, sa: seq<string>,
                                      key: map<string, int>)
    requires Consistent(st) && Indexed(View(st), conf) && id in todo && todo <= st.values.Keys
    requires Gathered(View(st), conf, LoadedDone(st, todo), sa, key)
    ensures var rest := LoadedDone(st, todo - {id});
            if id.conf == conf && !Removed(st, id) then
              var copy := CopyAt(st, id);
              && ".index" in copy && copy[".index"].Number?
              && Gathered(View(st), conf, rest, sa + [id.sid], key[id.sid := copy[".index"].n])
            else Gathered(View(st), conf, rest, sa, key)
  {
    var done, rest := LoadedDone(st, todo), LoadedDone(st, todo - {id});
    if id.conf == conf && !Removed(st, id) {
      LoadedIndex(st, conf, id);
      assert rest == done + {id};
      GatherNext(View(st), conf, done, sa, key, id, CopyAt(st, id)[".index"].n);
    } else if id in st.creates {
      assert rest == done;
    } else {
      assert rest == done + {id};
      if id.conf == conf {
        NotListed(st, id);
      }
      GatherNext(View(st), conf, done, sa, key, id, 0);
    }
    hide View;
    hide Gathered;
  }

  lemma {:induction false} CreatedNext(st: Store, conf: string, todo: set<Id>, id: Id, sa: seq<string>,
                                       key: map<string, int>)
    requires Indexed(View(st), conf) && id in todo && todo <= st.creates.Keys
    requires Gathered(View(st), conf, CreatedDone(st, todo), sa, key)
    ensures var rest := CreatedDone(st, todo - {id});
            if id.conf == conf then
              var copy := CopyAt(st, id);
              && ".index" in copy && copy[".index"].Number?
              && Gathered(View(st), conf, rest, sa + [id.sid], key[id.sid := copy[".index"].n])
            else Gathered(View(st), conf, rest, sa, key)
  {
    var done, rest := CreatedDone(st, todo), CreatedDone(st, todo - {id});
    assert rest == done + {id};
    if id.conf == conf {
      assert id in View(st) && ".index" in st.creates[id]
             && st.creates[id][".index"] == Number(IndexOf(View(st), conf, id.sid)) by {
        ViewDomain(st, id);
        assert id == Id(conf, id.sid);
        hide View;
      }
      GatherNext(View(st), conf, done, sa, key, id, st.creates[id][".index"].n);
    } else {
      GatherNext(View(st), conf, done, sa, key, id, 0);
    }
    hide View;
    hide Gathered;
  }

  lemma GatherStarts(st: Store, conf: string)
    requires Indexed(View(st), conf)
    ensures Gathered(View(st), conf, LoadedDone(st, st.values.Keys), [], map[])
  {
    assert LoadedDone(st, st.values.Keys) == {};
    hide View;
  }

  lemma GatherGoesOn(st: Store)
    ensures LoadedDone(st, {}) == CreatedDone(st, st.creates.Keys)
  {
  }

  lemma GatherEnds(st: Store, conf: string, sa: seq<string>, key: map<string, int>)
    requires Indexed(View(st), conf) && Gathered(View(st), conf, CreatedDone(st, {}), sa, key)
    ensures (forall s :: s in sa ==> s in key) && IsOrder(View(st), conf, SortBy(sa, key))
  {
    forall id | id in View(st) ensures id in CreatedDone(st, {}) {
      ViewDomain(st, id);
    }
    hide View;
    GatheredAll(View(st), conf, CreatedDone(st, {}), sa, key);
  }

  /** The copies gathered so far, under the names they are listed by. */
  ghost predicate Copied(st: Store, conf: string, sa: seq<string>, copies: map<string, Section>) {
    forall sid :: sid in sa ==> sid in copies && copies[sid] == CopyAt(st, Id(conf, sid))
  }

  lemma CopiedNext(st: Store, conf: string, sa: seq<string>, copies: map<string, Section>, id: Id)
    requires id.conf == conf && Copied(st, conf, sa, copies)
    ensures Copied(st, conf, sa + [id.sid], copies[id.sid := CopyAt(st, id)])
  {
    hide CopyAt;
    assert id == Id(conf, id.sid);
    assert forall sid :: sid in sa + [id.sid] <==> sid in sa || sid == id.sid;
  }

  lemma CopiedSorted(st: Store, conf: string, sa: seq<string>, copies: map<string, Section>, sb: seq<string>)
    requires Copied(st, conf, sa, copies) && forall sid :: sid in sb <==> sid in sa
    ensures Copied(st, conf, sb, copies)
  {
  }

  lemma LoadedCopy(st: Store, id: Id)
    requires Consistent(st) && id in st.values
    ensures Removed(st, id) <==> id in st.deletes && st.deletes[id].Whole?
    ensures !Removed(st, id) ==>
              (if id in st.changes then st.values[id] + st.changes[id] else st.values[id]) == CopyAt(st, id)
  {
  }

  lemma SortedSame(sa: seq<string>, key: map<string, int>)
    requires forall s :: s in sa ==> s in key
    ensures forall s :: s in SortBy(sa, key) <==> s in sa
  {
    SortAscends(sa, key);
  }

  /** `sections` of a loaded configuration, without a type: the loaded sections, then the new ones, sorted. */
  method SectionsOf(u: Uci, conf: string) returns (sa: seq<string>, shown: seq<Section>)
    requires Consistent(u.Snapshot()) && Indexed(View(u.Snapshot()), conf)
    ensures IsOrder(View(u.Snapshot()), conf, sa)
    ensures |shown| == |sa|
    ensures forall i :: 0 <= i < |sa| ==> shown[i] == CopyAt(u.Snapshot(), Id(conf, sa[i]))[".index" := Number(i)]
  {
    hide View;
    hide Consistent;
    hide Indexed;
    hide Gathered;
    hide LoadedDone;
    hide CreatedDone;
    hide Copied;
    hide IsOrder;
    hide SortBy;
    hide Removed;
    ghost var st := u.Snapshot();
    sa := [];
    var key: map<string, int> := map[];
    var copies: map<string, Section> := map[];
    var todo := u.values.Keys;
    GatherStarts(st, conf);
    NoneCopied(st, conf);
    while todo != {}
      invariant todo <= st.values.Keys && Gathered(View(st), conf, LoadedDone(st, todo), sa, key)
      invariant Copied(st, conf, sa, copies)
      decreases todo
    {
      var id :| id in todo;
      LoadedNext(st, conf, todo, id, sa, key);
      LoadedCopy(st, id);
      hide CopyAt;
      if id.conf == conf && !(id in u.deletes && u.deletes[id].Whole?) {
        var copy := if id in u.changes then u.values[id] + u.changes[id] else u.values[id];
        CopiedNext(st, conf, sa, copies, id);
        sa, key, copies := sa + [id.sid], key[id.sid := copy[".index"].n], copies[id.sid := copy];
      }
      todo := todo - {id};
    }
    GatherGoesOn(st);
    todo := u.creates.Keys;
    while todo != {}
      invariant todo <= st.creates.Keys && Gathered(View(st), conf, CreatedDone(st, todo), sa, key)
      invariant Copied(st, conf, sa, copies)
      decreases todo
    {
      var id :| id in todo;
      CreatedNext(st, conf, todo, id, sa, key);
      if id.conf == conf {
        CopiedNext(st, conf, sa, copies, id);
        sa, key, copies := sa + [id.sid], key[id.sid := u.creates[id][".index"].n], copies[id.sid := u.creates[id]];
      }
      todo := todo - {id};
    }
    GatherEnds(st, conf, sa, key);
    SortedSame(sa, key);
    CopiedSorted(st, conf, sa, copies, SortBy(sa, key));
    sa := SortBy(sa, key);
    shown := Numbered(st, conf, sa, copies);
  }

  lemma NoneCopied(st: Store, conf: string)
    ensures Copied(st, conf, [], map[])
  {
  }

  /** The sorted copies get their positions as indices. */
  method Numbered(ghost st: Store, ghost conf: string, sa: seq<string>, copies: map<string, Section>)
    returns (shown: seq<Section>)
    requires Copied(st, conf, sa, copies)
    ensures |shown| == |sa|
    ensures forall i :: 0 <= i < |sa| ==> shown[i] == CopyAt(st, Id(conf, sa[i]))[".index" := Number(i)]
  {
    hide CopyAt;
    shown := [];
    for i := 0 to |sa|
      invariant |shown| == i
      invariant forall k :: 0 <= k < i ==> shown[k] == CopyAt(st, Id(conf, sa[k]))[".index" := Number(k)]
    {
      shown := shown + [copies[sa[i]][".index" := Number(i)]];
    }
  }

  // ----- `move` -----

  /** The section's index is written where the section is kept, which for a loaded one is its copy. */
  function WithIndex(st: Store, id: Id, i: nat): Store {
    if id in st.creates then st.(creates := st.creates[id := st.creates[id][".index" := Number(i)]])
    else if id in st.values then st.(values := st.values[id := st.values[id][".index" := Number(i)]])
    else st
  }

  /** The first `n` sections of the list are read as a whole and numbered. */
  function Renumbered(st: Store, conf: string, sa: seq<string>, n: nat): Store
    requires n <= |sa|
  {
    if n == 0 then st
    else
      var id := Id(conf, sa[n - 1]);
      WithIndex(AfterGetSection(Renumbered(st, conf, sa, n - 1), id), id, n - 1)
  }

  ghost predicate AllIn(c: Config, conf: string, sa: seq<string>) {
    forall k :: 0 <= k < |sa| ==> Id(conf, sa[k]) in c
  }

  /** Numbers the first `n` sections of the list. */
  ghost function Reindexed(c: Config, conf: string, sa: seq<string>, n: nat): Config
    requires n <= |sa| && AllIn(c, conf, sa)
    ensures Reindexed(c, conf, sa, n).Keys == c.Keys
  {
    if n == 0 then c
    else
      var id, before := Id(conf, sa[n - 1]), Reindexed(c, conf, sa, n - 1);
      before[id := before[id][".index" := Number(n - 1)]]
  }

  predicate SameOptions(s: Section, s': Section) {
    && s'.Keys + {".index"} == s.Keys + {".index"}
    && forall opt :: opt in s && opt != ".index" ==> opt in s' && s'[opt] == s[opt]
  }

  /** Numbering changes no option, and no other configuration. */
  lemma {:induction false} OnlyIndices(c: Config, conf: string, sa: seq<string>, n: nat, id: Id)
    requires n <= |sa| && AllIn(c, conf, sa) && id in c
    ensures var c' := Reindexed(c, conf, sa, n);
            id in c' && SameOptions(c[id], c'[id]) && (id.conf != conf ==> c'[id] == c[id])
    decreases n
  {
    hide *;
    if n == 0 {
      NotReindexed(c, conf, sa);
      SameSection(c[id]);
    } else {
      OnlyIndices(c, conf, sa, n - 1, id);
      ReindexedAt(c, conf, sa, n, id);
      if id == Id(conf, sa[n - 1]) {
        OtherOptions(c[id], Reindexed(c, conf, sa, n - 1)[id], n - 1);
      }
    }
  }

  lemma NotReindexed(c: Config, conf: string, sa: seq<string>)
    requires AllIn(c, conf, sa)
    ensures Reindexed(c, conf, sa, 0) == c
  {
  }

  lemma SameSection(s: Section)
    ensures SameOptions(s, s)
  {
  }

  lemma ReindexedAt(c: Config, conf: string, sa: seq<string>, n: nat, id: Id)
    requires 0 < n <= |sa| && AllIn(c, conf, sa) && id in c
    ensures var before, c' := Reindexed(c, conf, sa, n - 1), Reindexed(c, conf, sa, n);
            && id in before && id in c'
            && c'[id] == if id == Id(conf, sa[n - 1]) then before[id][".index" := Number(n - 1)] else before[id]
  {
  }

  lemma OtherOptions(s: Section, s': Section, i: nat)
    requires SameOptions(s, s')
    ensures SameOptions(s, s'[".index" := Number(i)])
  {
  }

  lemma {:induction false} IndexIsPosition(c: Config, conf: string, sa: seq<string>, n: nat, k: nat)
    requires k < n <= |sa| && Distinct(sa) && AllIn(c, conf, sa)
    ensures var id, c' := Id(conf, sa[k]), Reindexed(c, conf, sa, n);
            id in c' && ".index" in c'[id] && c'[id][".index"] == Number(k)
    decreases n
  {
    if k < n - 1 {
      IndexIsPosition(c, conf, sa, n - 1, k);
      assert sa[n - 1] != sa[k];
    }
  }

  /** A numbered list is the order of the configuration, and the only one. */
  lemma ReindexedOrder(c: Config, conf: string, sa: seq<string>)
    requires Lists(c, conf, sa)
    ensures var c' := Reindexed(c, conf, sa, |sa|);
            && Indexed(c', conf) && IsOrder(c', conf, sa) && Apart(c', conf)
            && forall sid :: sid in sa ==> 0 <= IndexOf(c', conf, sid) < |sa|
  {
    var c' := Reindexed(c, conf, sa, |sa|);
    forall k | 0 <= k < |sa|
      ensures Id(conf, sa[k]) in c' && ".index" in c'[Id(conf, sa[k])] && c'[Id(conf, sa[k])][".index"] == Number(k)
    {
      IndexIsPosition(c, conf, sa, |sa|, k);
    }
    hide Reindexed;
    forall sid | Id(conf, sid) in c' ensures ".index" in c'[Id(conf, sid)] && c'[Id(conf, sid)][".index"].Number? {
      var k :| 0 <= k < |sa| && sa[k] == sid;
    }
    assert Indexed(c', conf);
    forall x, y | Id(conf, x) in c' && Id(conf, y) in c' && x != y
      ensures IndexOf(c', conf, x) != IndexOf(c', conf, y)
    {
      var k :| 0 <= k < |sa| && sa[k] == x;
      var l :| 0 <= l < |sa| && sa[l] == y;
    }
  }

  /** Folding what is pending into a section and numbering it changes its index only. */
  lemma IndexRefines(st: Store, id: Id, i: nat)
    requires Consistent(st) && Live(st, id)
    ensures var merged := AfterGetSection(st, id);
            && Live(merged, id) && id in View(st)
            && var st' := WithIndex(merged, id, i);
               Consistent(st') && View(st') == View(st)[id := View(st)[id][".index" := Number(i)]]
  {
    GetSectionRefines(st, id);
    ViewDomain(st, id);
    ViewDomain(AfterGetSection(st, id), id);
    hide View;
    hide Tidy;
    hide Unshadowed;
    NumberRefines(AfterGetSection(st, id), id, i);
  }

  lemma NumberRefines(st: Store, id: Id, i: nat)
    requires Consistent(st) && Live(st, id)
    ensures var st' := WithIndex(st, id, i);
            && id in View(st) && Consistent(st') && View(st') == View(st)[id := View(st)[id][".index" := Number(i)]]
  {
    var st' := WithIndex(st, id, i);
    assert TidyAt(st, id);
    NumberAt(st, id, i);
    Local(st, st', id);
    hide View;
    hide Tidy;
    hide WithIndex;
  }

  lemma NumberAt(st: Store, id: Id, i: nat)
    requires TidyAt(st, id) && Live(st, id)
    ensures var st' := WithIndex(st, id, i);
            && TidyAt(st', id) && Live(st', id) && Effective(st', id) == Effective(st, id)[".index" := Number(i)]
            && (forall j :: j != id ==> SameAt(st, st', j))
            && (id in st'.creates <==> id in st.creates) && (id in st'.values <==> id in st.values)
            && (Removed(st', id) <==> Removed(st, id))
  {
    var st' := WithIndex(st, id, i);
    SameMarks(st, st', id);
    hide Dropped;
    hide Changed;
    if id in st.creates {
      NumberCreated(st, id, i);
    } else {
      NumberLoaded(st, id, i);
    }
    hide TidyAt;
  }

  lemma NumberLoaded(st: Store, id: Id, i: nat)
    requires TidyAt(st, id) && id in st.values && !Removed(st, id) && id !in st.creates
    ensures var st' := WithIndex(st, id, i);
            TidyAt(st', id) && Overlay(st', id) == Overlay(st, id)[".index" := Number(i)]
  {
    SameMarks(st, WithIndex(st, id, i), id);
    hide Dropped;
    hide Changed;
    assert Dotted(".index");
    OverlayNumber(st.values[id], Dropped(st, id), Changed(st, id), Number(i));
  }

  lemma SameMarks(st: Store, st': Store, id: Id)
    requires st'.changes == st.changes && st'.deletes == st.deletes
    ensures Dropped(st', id) == Dropped(st, id) && Changed(st', id) == Changed(st, id)
            && Removed(st', id) == Removed(st, id)
  {
  }

  lemma NumberCreated(st: Store, id: Id, i: nat)
    requires TidyAt(st, id) && id in st.creates
    ensures TidyAt(WithIndex(st, id, i), id)
  {
    SameMarks(st, WithIndex(st, id, i), id);
    hide Dropped;
    hide Changed;
    hide Dotted;
  }

  lemma OverlayNumber(v: Section, d: set<string>, c: Section, x: Value)
    requires ".index" !in d && ".index" !in c
    ensures v[".index" := x] - d + c == (v - d + c)[".index" := x]
  {
  }

  /** One pass of the last loop: the index goes where `get` found the section. */
  method NumberSection(u: Uci, id: Id, i: nat)
    requires TidyAt(u.Snapshot(), id) && Live(AfterGetSection(u.Snapshot(), id), id)
    modifies u`values, u`creates
    ensures u.Snapshot() == WithIndex(AfterGetSection(old(u.Snapshot()), id), id, i)
  {
    hide TidyAt;
    hide View;
    hide AfterGetSection;
    var section := u.GetSection(id);
    if id in u.creates {
      u.creates := u.creates[id := u.creates[id][".index" := Number(i)]];
    } else {
      u.values := u.values[id := u.values[id][".index" := Number(i)]];
    }
  }

  /** The last loop of `move`. */
  method Renumber(u: Uci, conf: string, sa: seq<string>)
    requires Consistent(u.Snapshot()) && AllIn(View(u.Snapshot()), conf, sa)
    modifies u`values, u`creates
    ensures u.Snapshot() == Renumbered(old(u.Snapshot()), conf, sa, |sa|)
  {
    hide View;
    hide Tidy;
    hide Unshadowed;
    hide AfterGetSection;
    hide WithIndex;
    hide AllIn;
    ghost var st := u.Snapshot();
    for i := 0 to |sa|
      invariant u.Snapshot() == Renumbered(st, conf, sa, i)
    {
      RenumberedRefines(st, conf, sa, i);
      RenumberedLive(st, conf, sa, i);
      AtOne(u.Snapshot(), Id(conf, sa[i]));
      NumberSection(u, Id(conf, sa[i]), i);
    }
  }

  lemma RenumberedLive(st: Store, conf: string, sa: seq<string>, n: nat)
    requires Consistent(st) && AllIn(View(st), conf, sa) && n < |sa|
    requires Consistent(Renumbered(st, conf, sa, n)) && View(Renumbered(st, conf, sa, n)).Keys == View(st).Keys
    ensures Live(AfterGetSection(Renumbered(st, conf, sa, n), Id(conf, sa[n])), Id(conf, sa[n]))
  {
    var st' := Renumbered(st, conf, sa, n);
    hide Renumbered;
    ViewDomain(st', Id(conf, sa[n]));
    hide View;
    hide Tidy;
    IndexRefines(st', Id(conf, sa[n]), n);
  }

  /** Numbering a list of sections changes their indices and nothing else readers see. */
  lemma {:induction false} RenumberedRefines(st: Store, conf: string, sa: seq<string>, n: nat)
    requires Consistent(st) && AllIn(View(st), conf, sa) && n <= |sa|
    ensures var st' := Renumbered(st, conf, sa, n);
            && Consistent(st') && View(st') == Reindexed(View(st), conf, sa, n) && View(st').Keys == View(st).Keys
            && st'.values.Keys == st.values.Keys && st'.creates.Keys == st.creates.Keys
            && st'.changes == st.changes && st'.deletes == st.deletes
    decreases n
  {
    hide *;
    if n == 0 {
      NotRenumbered(st, conf, sa);
    } else {
      RenumberedRefines(st, conf, sa, n - 1);
      RenumberedNext(st, conf, sa, n);
      var k := n - 1;
      assert Live(st, Id(conf, sa[k])) by {
        ViewDomain(st, Id(conf, sa[k]));
        hide View;
      }
      var st' := Renumbered(st, conf, sa, n - 1);
      var id := Id(conf, sa[n - 1]);
      assert Live(st', id) by {
        ViewDomain(st, id);
        ViewDomain(st', id);
        hide View;
      }
      IndexRefines(Renumbered(st, conf, sa, n - 1), Id(conf, sa[n - 1]), n - 1);
      KeepsKeys(Renumbered(st, conf, sa, n - 1), Id(conf, sa[n - 1]), n - 1);
    }
  }

  lemma NotRenumbered(st: Store, conf: string, sa: seq<string>)
    requires AllIn(View(st), conf, sa)
    ensures Renumbered(st, conf, sa, 0) == st && Reindexed(View(st), conf, sa, 0) == View(st)
  {
    hide View;
  }

  lemma RenumberedNext(st: Store, conf: string, sa: seq<string>, n: nat)
    requires 0 < n <= |sa| && AllIn(View(st), conf, sa)
    ensures var id, before := Id(conf, sa[n - 1]), Reindexed(View(st), conf, sa, n - 1);
            && Renumbered(st, conf, sa, n) == WithIndex(AfterGetSection(Renumbered(st, conf, sa, n - 1), id), id, n - 1)
            && id in before && Reindexed(View(st), conf, sa, n) == before[id := before[id][".index" := Number(n - 1)]]
  {
    hide View;
    hide WithIndex;
    hide AfterGetSection;
  }

  lemma KeepsKeys(st: Store, id: Id, i: nat)
    ensures var st' := WithIndex(AfterGetSection(st, id), id, i);
            && st'.values.Keys == st.values.Keys && st'.creates.Keys == st.creates.Keys
            && st'.changes == st.changes && st'.deletes == st.deletes
  {
    hide *;
    FoldKeepsKeys(st, id);
    IndexKeepsKeys(AfterGetSection(st, id), id, i);
  }

  lemma FoldKeepsKeys(st: Store, id: Id)
    ensures var st' := AfterGetSection(st, id);
            && st'.values.Keys == st.values.Keys && st'.creates == st.creates
            && st'.changes == st.changes && st'.deletes == st.deletes
  {
    hide Changed;
    hide Dropped;
    hide Removed;
  }

  lemma IndexKeepsKeys(st: Store, id: Id, i: nat)
    ensures var st' := WithIndex(st, id, i);
            && st'.values.Keys == st.values.Keys && st'.creates.Keys == st.creates.Keys
            && st'.changes == st.changes && st'.deletes == st.deletes
  {
    hide Live;
    hide Removed;
    assert id in st.creates ==> st.creates.Keys + {id} == st.creates.Keys;
    assert id in st.values ==> st.values.Keys + {id} == st.values.Keys;
  }

  lemma AtOne(st: Store, id: Id)
    requires Consistent(st)
    ensures TidyAt(st, id)
  {
  }

  /** Where the section is first in the list, or its length. */
  function Position(sa: seq<string>, sid: string): (i: nat)
    ensures i <= |sa| && sid !in sa[..i] && (i < |sa| ==> sa[i] == sid) && (i == |sa| <==> sid !in sa)
  {
    if sa == [] || sa[0] == sid then 0
    else
      var i := Position(sa[1..], sid);
      assert sa[..i + 1] == [sa[0]] + sa[1..][..i];
      assert sid in sa <==> sid in sa[1..];
      i + 1
  }

  method PositionOf(sa: seq<string>, sid: string) returns (i: nat)
    ensures i == Position(sa, sid)
  {
    i := 0;
    while i < |sa| && sa[i] != sid
      invariant i <= |sa| && sid !in sa[..i]
    {
      assert sa[..i + 1] == sa[..i] + [sa[i]];
      i := i + 1;
    }
    PositionIs(sa, sid, i);
  }

  lemma PositionIs(sa: seq<string>, sid: string, i: nat)
    requires i <= |sa| && sid !in sa[..i] && (i < |sa| ==> sa[i] == sid)
    ensures i == Position(sa, sid)
  {
    var j := Position(sa, sid);
    if i < j {
      NotBefore(sa, sid, j, i);
    } else if j < i {
      NotBefore(sa, sid, i, j);
    }
  }

  lemma NotBefore(sa: seq<string>, sid: string, n: nat, k: nat)
    requires k < n <= |sa| && sid !in sa[..n]
    ensures sa[k] != sid
  {
    assert sa[..n][k] == sa[k];
  }

  /** The list after a move. */
  ghost function MovedList(list: seq<string>, sid1: string, sid2: Option<string>, after: bool): (sa: seq<string>)
    requires Distinct(list) && CanMove(list, sid1, sid2)
    ensures IsMoved(list, sid1, sid2, after, sa)
  {
    var i := Position(list, sid1);
    var rest := list[..i] + list[i + 1..];
    RestIs(list, sid1, i);
    match sid2
    case None =>
      IsMovedBy(list, sid1, sid2, after, rest + [sid1], rest);
      rest + [sid1]
    case Some(other) =>
      var j := Position(rest, other);
      var k := if after then j + 1 else j;
      PutsIn(rest, sid1, other, after, j);
      IsMovedBy(list, sid1, sid2, after, rest[..k] + [sid1] + rest[k..], rest);
      rest[..k] + [sid1] + rest[k..]
  }

  lemma RestIs(sa: seq<string>, sid: string, i: nat)
    requires i < |sa| && sa[i] == sid && Distinct(sa)
    ensures var rest := sa[..i] + sa[i + 1..];
            TakenOut(sa, sid, rest) && forall x :: x in rest <==> x in sa && x != sid
  {
    var rest := sa[..i] + sa[i + 1..];
    assert sa == sa[..i] + [sid] + sa[i + 1..];
    forall x | x in sa && x != sid ensures x in rest {
      assert x in sa[..i] || x in sa[i + 1..];
    }
  }

  lemma PutsIn(rest: seq<string>, sid: string, other: string, after: bool, i: nat)
    requires i < |rest| && rest[i] == other
    ensures var k := if after then i + 1 else i; PutBeside(rest, sid, other, after, rest[..k] + [sid] + rest[k..])
  {
    var k, a, b := if after then i + 1 else i, rest[..i], rest[i + 1..];
    assert rest == a + [other] + b;
    assert rest[..k] + [sid] + rest[k..] == a + (if after then [other, sid] else [sid, other]) + b;
  }

  /** The first part of `move`, on the list that `sections` returned. */
  method MoveInList(list: seq<string>, sid1: string, sid2: Option<string>, after: bool)
    returns (moved: bool, sa: seq<string>)
    requires Distinct(list)
    ensures moved == CanMove(list, sid1, sid2)
    ensures moved ==> sa == MovedList(list, sid1, sid2, after)
  {
    hide Distinct;
    hide Position;
    hide IsMoved;
    hide TakenOut;
    hide PutBeside;
    var i := PositionOf(list, sid1);
    if i == |list| {
      return false, list;
    }
    RestIs(list, sid1, i);
    sa := list[..i] + list[i + 1..];
    if sid2.None? {
      sa := sa + [sid1];
    } else {
      i := PositionOf(sa, sid2.value);
      if i == |sa| {
        return false, list;
      }
      var k := if after then i + 1 else i;
      sa := sa[..k] + [sid1] + sa[k..];
    }
    moved := true;
  }

  lemma OrderLists(c: Config, conf: string, sa: seq<string>)
    requires IsOrder(c, conf, sa)
    ensures Lists(c, conf, sa) && Distinct(sa)
  {
  }

  lemma {:induction false} MovedLists(c: Config, conf: string, list: seq<string>, sid1: string, sid2: Option<string>,
                                      after: bool,
                   sa: seq<string>)
    requires Lists(c, conf, list) && IsMoved(list, sid1, sid2, after, sa)
    ensures Lists(c, conf, sa) && AllIn(c, conf, sa)
  {
    MovePermutes(list, sid1, sid2, after, sa);
    hide IsMoved;
  }

  /** The plain configuration after a move. */
  ghost function PlainMove(c: Config, conf: string, sid1: string, sid2: Option<string>, after: bool): (c': Config)
    ensures c'.Keys == c.Keys
  {
    var list := OrderOf(c, conf);
    if CanMove(list, sid1, sid2) then
      var sa := MovedList(list, sid1, sid2, after);
      MovedLists(c, conf, list, sid1, sid2, after, sa);
      Reindexed(c, conf, sa, |sa|)
    else c
  }

  /** The store after a move, its sections being listed by their indices. */
  ghost function AfterMove(st: Store, conf: string, sid1: string, sid2: Option<string>, after: bool): Store {
    var list := OrderOf(View(st), conf);
    if CanMove(list, sid1, sid2) then
      var sa := MovedList(list, sid1, sid2, after);
      Renumbered(st, conf, sa, |sa|)
    else st
  }

  /** A move of the store is a move of the plain configuration. */
  lemma MoveRefines(st: Store, conf: string, sid1: string, sid2: Option<string>, after: bool)
    requires Consistent(st)
    ensures var st' := AfterMove(st, conf, sid1, sid2, after);
            && Consistent(st') && View(st') == PlainMove(View(st), conf, sid1, sid2, after)
            && st'.values.Keys == st.values.Keys && st'.creates.Keys == st.creates.Keys
            && st'.changes == st.changes && st'.deletes == st.deletes
  {
    hide View;
    hide Tidy;
    hide Unshadowed;
    hide OrderOf;
    hide CanMove;
    hide MovedList;
    hide IsMoved;
    hide Reindexed;
    hide Renumbered;
    hide IsOrder;
    var list := OrderOf(View(st), conf);
    OrderLists(View(st), conf, list);
    hide Lists;
    hide Distinct;
    if CanMove(list, sid1, sid2) {
      var sa := MovedList(list, sid1, sid2, after);
      MovedLists(View(st), conf, list, sid1, sid2, after, sa);
      RenumberedRefines(st, conf, sa, |sa|);
    }
  }

  method Move(u: Uci, conf: string, sid1: string, sid2: Option<string>, after: bool)
    returns (moved: bool, ghost list: seq<string>, ghost sa: seq<string>)
    requires Consistent(u.Snapshot()) && Indexed(View(u.Snapshot()), conf)
    modifies u`values, u`creates, u`reorder
    ensures Consistent(u.Snapshot()) && IsOrder(old(View(u.Snapshot())), conf, list)
    ensures moved == CanMove(list, sid1, sid2)
    ensures !moved ==> u.Snapshot() == old(u.Snapshot()) && u.reorder == old(u.reorder)
    ensures moved ==>
              && IsMoved(list, sid1, sid2, after, sa) && Lists(old(View(u.Snapshot())), conf, sa)
              && View(u.Snapshot()) == Reindexed(old(View(u.Snapshot())), conf, sa, |sa|)
              && u.reorder == old(u.reorder) + {conf}
    ensures u.changes == old(u.changes) && u.deletes == old(u.deletes)
    ensures Apart(old(View(u.Snapshot())), conf) ==>
              list == OrderOf(old(View(u.Snapshot())), conf)
              && u.Snapshot() == AfterMove(old(u.Snapshot()), conf, sid1, sid2, after)
  {
    hide *;
    ghost var st := u.Snapshot();
    var result, _ := SectionsOf(u, conf);
    list := result;
    OrderLists(View(st), conf, list);
    moved, result := MoveInList(result, sid1, sid2, after);
    sa := result;
    if moved {
      MovedLists(View(st), conf, list, sid1, sid2, after, sa);
      RenumberedRefines(st, conf, sa, |sa|);
      Renumber(u, conf, result);
      u.reorder := u.reorder + {conf};
      SameMarksOf(u, st, Renumbered(st, conf, sa, |sa|));
    }
    if Apart(View(st), conf) {
      OrderIsUnique(View(st), conf, list, OrderOf(View(st), conf));
      AfterMoveIs(st, conf, list, sid1, sid2, after);
    }
  }

  lemma SameMarksOf(u: Uci, st: Store, st': Store)
    requires u.Snapshot() == st' && st'.changes == st.changes && st'.deletes == st.deletes
    ensures u.changes == st.changes && u.deletes == st.deletes
  {
  }

  lemma {:induction false} AfterMoveIs(st: Store, conf: string, list: seq<string>, sid1: string, sid2: Option<string>,
                                       after: bool)
    requires Distinct(list) && list == OrderOf(View(st), conf)
    ensures AfterMove(st, conf, sid1, sid2, after) ==
            if CanMove(list, sid1, sid2) then
              var sa := MovedList(list, sid1, sid2, after); Renumbered(st, conf, sa, |sa|)
            else st
  {
  }
}
