/** The order of sections over whole sessions: every section that is added comes last, moves included. */
module UciSessions {
  import opened Common
  import opened UciModel
  import opened UciOrder
  import opened UciRuns

  /** Every index is below the next one `add` gives out. */
  ghost predicate Below(c: Config, conf: string, next: nat) {
    forall sid :: Id(conf, sid) in c ==> IndexOf(c, conf, sid) < 1000 + next
  }

  /**
   The sections of the configuration have indices, all different and below the next one, and are no
   more than that: as loaded, if they are 1000 at most and numbered from 0.
   */
  ghost predicate Roomy(c: Config, conf: string, next: nat) {
    Indexed(c, conf) && Apart(c, conf) && Below(c, conf, next) && |OrderOf(c, conf)| <= 1000 + next
  }

  lemma OrderIs(c: Config, conf: string, sa: seq<string>)
    requires Apart(c, conf) && IsOrder(c, conf, sa)
    ensures OrderOf(c, conf) == sa
  {
    OrderIsUnique(c, conf, OrderOf(c, conf), sa);
  }

  // ----- adding -----

  /** The index of a new section, and those of the others. */
  lemma IndicesAfterAdd(c: Config, id: Id, kind: string, named: bool, next: nat)
    requires id !in c
    ensures var c' := c[id := NewSection(id, kind, named, next)];
            && ".index" in c'[id] && c'[id][".index"] == Number(1000 + next)
            && IndexOf(c', id.conf, id.sid) == 1000 + next
            && (forall conf, sid :: Id(conf, sid) in c' <==> Id(conf, sid) in c || Id(conf, sid) == id)
            && forall conf, sid :: Id(conf, sid) != id ==> IndexOf(c', conf, sid) == IndexOf(c, conf, sid)
  {
    var section := NewSection(id, kind, named, next);
    assert ".index" in section && section[".index"] == Number(1000 + next);
    assert Id(id.conf, id.sid) == id;
    hide NewSection;
  }

  /** A section that is added comes last if and only if no index is above the one it gets. */
  lemma {:induction false} AddedLast(c: Config, sa: seq<string>, id: Id, kind: string, named: bool, next: nat)
    requires IsOrder(c, id.conf, sa) && id !in c
    ensures IsOrder(c[id := NewSection(id, kind, named, next)], id.conf, sa + [id.sid]) <==>
            forall sid :: sid in sa ==> IndexOf(c, id.conf, sid) <= 1000 + next
  {
    var c', sb := c[id := NewSection(id, kind, named, next)], sa + [id.sid];
    IndicesAfterAdd(c, id, kind, named, next);
    assert Id(id.conf, id.sid) == id;
    hide IndexOf;
    hide NewSection;
    assert Lists(c', id.conf, sa + [id.sid]) && id.sid !in sa by {
      assert Id(id.conf, id.sid) == id;
      var sb := sa + [id.sid];
      assert forall sid :: sid in sb <==> sid in sa || sid == id.sid;
      assert forall i :: 0 <= i < |sa| ==> sa[i] in sa;
    }
    hide Lists;
    SnocAscends(c, c', sa, id, 1000 + next);
  }

  lemma SnocAscends(c: Config, c': Config, sa: seq<string>, id: Id, n: int)
    requires IsOrder(c, id.conf, sa) && id.sid !in sa && IndexOf(c', id.conf, id.sid) == n
    requires forall sid :: Id(id.conf, sid) != id ==> IndexOf(c', id.conf, sid) == IndexOf(c, id.conf, sid)
    ensures var sb := sa + [id.sid];
            (forall i, j :: 0 <= i < j < |sb| ==> IndexOf(c', id.conf, sb[i]) <= IndexOf(c', id.conf, sb[j])) <==>
            forall sid :: sid in sa ==> IndexOf(c, id.conf, sid) <= n
  {
    hide IndexOf;
    hide Lists;
    var sb, m := sa + [id.sid], |sa|;
    assert forall i :: 0 <= i < m ==>
             sb[i] == sa[i] && sa[i] in sa && IndexOf(c', id.conf, sb[i]) == IndexOf(c, id.conf, sa[i]);
    assert sb[m] == id.sid;
    if forall i, j :: 0 <= i < j < |sb| ==> IndexOf(c', id.conf, sb[i]) <= IndexOf(c', id.conf, sb[j]) {
      forall sid | sid in sa ensures IndexOf(c, id.conf, sid) <= n {
        var i :| 0 <= i < m && sa[i] == sid;
        assert IndexOf(c', id.conf, sb[i]) <= IndexOf(c', id.conf, sb[m]);
      }
    }
  }

  lemma AddIndices(c: Config, id: Id, kind: string, named: bool, next: nat)
    requires Indexed(c, id.conf) && Apart(c, id.conf) && Below(c, id.conf, next) && id !in c
    ensures var c' := c[id := NewSection(id, kind, named, next)];
            Indexed(c', id.conf) && Apart(c', id.conf) && Below(c', id.conf, next + 1)
  {
    var c': Config := c[id := NewSection(id, kind, named, next)];
    IndicesAfterAdd(c, id, kind, named, next);
    hide NewSection;
    forall sid: string | Id(id.conf, sid) in c'
      ensures ".index" in c'[Id(id.conf, sid)] && c'[Id(id.conf, sid)][".index"].Number?
    {
      if Id(id.conf, sid) != id {
        assert c'[Id(id.conf, sid)] == c[Id(id.conf, sid)];
      }
    }
    hide Indexed;
    hide IndexOf;
  }

  lemma RoomyMeans(c: Config, conf: string, next: nat)
    ensures Roomy(c, conf, next) <==>
            Indexed(c, conf) && Apart(c, conf) && Below(c, conf, next) && |OrderOf(c, conf)| <= 1000 + next
  {
  }

  lemma AddRoomy(c: Config, id: Id, kind: string, named: bool, next: nat)
    requires Roomy(c, id.conf, next) && id !in c
    ensures var c' := c[id := NewSection(id, kind, named, next)];
            Roomy(c', id.conf, next + 1) && OrderOf(c', id.conf) == OrderOf(c, id.conf) + [id.sid]
  {
    var c', sa := c[id := NewSection(id, kind, named, next)], OrderOf(c, id.conf);
    RoomyMeans(c, id.conf, next);
    RoomyMeans(c', id.conf, next + 1);
    AddIndices(c, id, kind, named, next);
    assert forall sid :: sid in sa ==> IndexOf(c, id.conf, sid) <= 1000 + next by {
      hide IndexOf;
      hide Distinct;
    }
    hide *;
    AddedLast(c, sa, id, kind, named, next);
    OrderIs(c', id.conf, sa + [id.sid]);
  }

  // ----- everything else -----

  /** The same sections with the same indices. */
  ghost predicate SameIndices(c: Config, c': Config, conf: string) {
    forall sid :: (Id(conf, sid) in c' <==> Id(conf, sid) in c) && IndexOf(c', conf, sid) == IndexOf(c, conf, sid)
  }

  lemma SameRoomy(c: Config, c': Config, conf: string, next: nat, next': nat)
    requires Roomy(c, conf, next) && SameIndices(c, c', conf) && Indexed(c', conf) && next <= next'
    ensures Roomy(c', conf, next') && OrderOf(c', conf) == OrderOf(c, conf)
  {
    hide OrderOf;
    hide IndexOf;
    hide Indexed;
    var sa := OrderOf(c, conf);
    assert IsOrder(c', conf, sa);
    OrderIs(c', conf, sa);
  }

  lemma FewerListed(a: seq<string>, b: seq<string>)
    requires Distinct(a) && forall x :: x in a ==> x in b
    ensures |a| <= |b|
  {
    CountsOnce(a);
    hide Distinct;
    var m, n := multiset(a), multiset(b);
    forall x ensures m[x] <= n[x] {
      if x in m {
        assert x in a && x in b && x in n;
      }
    }
    assert m <= n && |m| == |a| && |n| == |b|;
    assert n == m + (n - m);
  }

  lemma RemoveRoomy(c: Config, id: Id, conf: string, next: nat)
    requires Roomy(c, conf, next)
    ensures Roomy(c - {id}, conf, next)
  {
    var c' := c - {id};
    hide OrderOf;
    assert forall sid :: Id(conf, sid) in c' ==> Id(conf, sid) in c && IndexOf(c', conf, sid) == IndexOf(c, conf, sid);
    hide IndexOf;
    FewerListed(OrderOf(c', conf), OrderOf(c, conf));
  }

  /** Setting an option touches no index. */
  lemma SetSame(p: Plain, op: Op, conf: string)
    requires op.OpSet?
    ensures SameIndices(p.cfg, PlainStep(p, op).cfg, conf)
    ensures Indexed(p.cfg, conf) ==> Indexed(PlainStep(p, op).cfg, conf)
  {
    assert Dotted(".index");
  }

  /** After a move the order is the list the move makes. */
  lemma {:induction false} MoveRoomy(c: Config, conf: string, sid1: string, sid2: Option<string>, after: bool,
                                     next: nat)
    requires Roomy(c, conf, next)
    ensures Roomy(PlainMove(c, conf, sid1, sid2, after), conf, next)
    ensures var list := OrderOf(c, conf);
            OrderOf(PlainMove(c, conf, sid1, sid2, after), conf) ==
            if CanMove(list, sid1, sid2) then MovedList(list, sid1, sid2, after) else list
  {
    hide OrderOf;
    hide MovedList;
    hide Reindexed;
    hide CanMove;
    hide IndexOf;
    hide IsMoved;
    var list := OrderOf(c, conf);
    if CanMove(list, sid1, sid2) {
      var sa := MovedList(list, sid1, sid2, after);
      MovedLists(c, conf, list, sid1, sid2, after, sa);
      MovePermutes(list, sid1, sid2, after, sa);
      ReindexedOrder(c, conf, sa);
      hide Indexed;
      hide Apart;
      OrderIs(PlainMove(c, conf, sid1, sid2, after), conf, sa);
    }
  }

  lemma {:induction false} MoveElsewhere(c: Config, other: string, sid1: string, sid2: Option<string>, after: bool,
                                         conf: string)
    requires conf != other
    ensures var c' := PlainMove(c, other, sid1, sid2, after);
            SameIndices(c, c', conf) && (Indexed(c, conf) ==> Indexed(c', conf))
  {
    var c' := PlainMove(c, other, sid1, sid2, after);
    forall sid | Id(conf, sid) in c ensures Id(conf, sid) in c' && c'[Id(conf, sid)] == c[Id(conf, sid)] {
      MovedApart(c, other, sid1, sid2, after, Id(conf, sid));
    }
    hide PlainMove;
  }

  lemma {:induction false} MovedApart(c: Config, other: string, sid1: string, sid2: Option<string>, after: bool, id: Id)
    requires id.conf != other && id in c
    ensures var c' := PlainMove(c, other, sid1, sid2, after); id in c' && c'[id] == c[id]
  {
    hide OrderOf;
    hide MovedList;
    hide Reindexed;
    hide CanMove;
    hide IsMoved;
    hide IndexOf;
    var list := OrderOf(c, other);
    if CanMove(list, sid1, sid2) {
      var sa := MovedList(list, sid1, sid2, after);
      MovedLists(c, other, list, sid1, sid2, after, sa);
      OnlyIndices(c, other, sa, |sa|, id);
    }
  }

  // ----- over sessions -----

  lemma StepRoomy(p: Plain, op: Op, conf: string)
    requires Roomy(p.cfg, conf, p.next) && Allowed(p, op)
    ensures var p' := PlainStep(p, op); Roomy(p'.cfg, conf, p'.next)
  {
    hide *;
    StepIs(p, op);
    RoomyIndexed(p.cfg, conf, p.next);
    match op {
      case OpAdd(id, kind, named) =>
        if id.conf == conf {
          AddRoomy(p.cfg, id, kind, named, p.next);
        } else {
          assert Roomy(p.cfg[id := NewSection(id, kind, named, p.next)], conf, p.next + 1) by {
            hide *;
            var c' := p.cfg[id := NewSection(id, kind, named, p.next)];
            RoomyIndexed(p.cfg, conf, p.next);
            OthersSame(p.cfg, id, NewSection(id, kind, named, p.next), conf);
            SameRoomy(p.cfg, c', conf, p.next, p.next + 1);
          }
        }
      case OpRemove(id) => RemoveRoomy(p.cfg, id, conf, p.next);
      case OpSet(_, _, _) =>
        SetSame(p, op, conf);
        SameRoomy(p.cfg, PlainStep(p, op).cfg, conf, p.next, p.next);
      case OpMove(other, sid1, sid2, after) =>
        if other == conf {
          MoveRoomy(p.cfg, conf, sid1, sid2, after, p.next);
        } else {
          MoveElsewhere(p.cfg, other, sid1, sid2, after, conf);
          SameRoomy(p.cfg, PlainStep(p, op).cfg, conf, p.next, p.next);
        }
      case _ =>
    }
  }

  lemma StepIs(p: Plain, op: Op)
    ensures var p' := PlainStep(p, op);
            match op
            case OpAdd(id, kind, named) =>
              && p'.cfg == p.cfg[id := NewSection(id, kind, named, p.next)] && p'.next == p.next + 1
              && (Allowed(p, op) ==> id !in p.cfg)
            case OpRemove(id) => p'.cfg == p.cfg - {id} && p'.next == p.next
            case OpSet(_, _, _) => p'.next == p.next
            case OpMove(conf, sid1, sid2, after) =>
              p'.cfg == PlainMove(p.cfg, conf, sid1, sid2, after) && p'.next == p.next
            case _ => p' == p
  {
    hide PlainMove;
    hide NewSection;
    hide PlainSet;
    hide StoringSet;
  }

  lemma RoomyIndexed(c: Config, conf: string, next: nat)
    requires Roomy(c, conf, next)
    ensures Indexed(c, conf) && Apart(c, conf)
  {
  }

  lemma OthersSame(c: Config, id: Id, section: Section, conf: string)
    requires id.conf != conf && Indexed(c, conf)
    ensures Indexed(c[id := section], conf) && SameIndices(c, c[id := section], conf)
  {
  }

  lemma {:induction false} RunRoomy(p: Plain, ops: seq<Op>, conf: string)
    requires Roomy(p.cfg, conf, p.next) && AllAllowed(p, ops)
    ensures var p' := PlainRun(p, ops); Roomy(p'.cfg, conf, p'.next)
    decreases |ops|
  {
    if ops != [] {
      hide Roomy;
      hide Allowed;
      hide PlainStep;
      StepRoomy(p, ops[0], conf);
      RunRoomy(PlainStep(p, ops[0]), ops[1..], conf);
    }
  }

  /** As `AllAllowed`, moves being free. */
  ghost predicate AddsAllowed(p: Plain, ops: seq<Op>)
    decreases |ops|
  {
    ops == [] || ((ops[0].OpMove? || Allowed(p, ops[0])) && AddsAllowed(PlainStep(p, ops[0]), ops[1..]))
  }

  /** Moves are always possible. */
  lemma {:induction false} MovesAllowed(p: Plain, ops: seq<Op>)
    requires (forall conf :: Roomy(p.cfg, conf, p.next)) && AddsAllowed(p, ops)
    ensures AllAllowed(p, ops)
    decreases |ops|
  {
    if ops != [] {
      if ops[0].OpMove? {
        RoomyIndexed(p.cfg, ops[0].conf, p.next);
        assert Allowed(p, ops[0]);
      }
      hide Roomy;
      hide Allowed;
      hide PlainStep;
      forall conf: string ensures Roomy(PlainStep(p, ops[0]).cfg, conf, PlainStep(p, ops[0]).next) {
        StepRoomy(p, ops[0], conf);
      }
      MovesAllowed(PlainStep(p, ops[0]), ops[1..]);
    }
  }

  /** Whenever a section is added in a session, it comes last in its configuration. */
  lemma {:induction false} AlwaysLast(p: Plain, ops: seq<Op>, id: Id, kind: string, named: bool)
    requires Roomy(p.cfg, id.conf, p.next) && AllAllowed(p, ops)
    requires Allowed(PlainRun(p, ops), OpAdd(id, kind, named))
    ensures var p' := PlainRun(p, ops);
            OrderOf(PlainStep(p', OpAdd(id, kind, named)).cfg, id.conf) == OrderOf(p'.cfg, id.conf) + [id.sid]
  {
    RunRoomy(p, ops, id.conf);
    hide Roomy;
    hide PlainRun;
    hide AllAllowed;
    hide OrderOf;
    var p' := PlainRun(p, ops);
    AddRoomy(p'.cfg, id, kind, named, p'.next);
  }
}
