/** Listing memberships: a query for the ids that a filter selects, a second join that returns
    all memberships of those ids, and a loop that folds the rows into one record per id. */
module Memberships {
  import opened Wrappers
  import opened MembershipTables
  import opened MembershipQuery

  datatype Membership = Membership(id: string, groupLabels: seq<string>, partitionName: string)

  /** The rows of a table scan that pass a condition on the id. */
  function Keep(table: seq<string>, ids: set<string>): seq<string> {
    if table == [] then []
    else
      var n := |table| - 1;
      Keep(table[..n], ids) + (if table[n] in ids then [table[n]] else [])
  }

  function Elements(ids: seq<string>): set<string> {
    set id | id in ids
  }

  /** The membership query. `table` is a scan of the component table and `passes` are the ids
      that satisfy the rest of the filter. With group or partition arguments, a first query
      finds the ids and a second join, without arguments, all their memberships. */
  function SelectComponents(db: Tables, table: seq<string>, passes: set<string>, groups: Names, parts: Names)
    : Result<seq<Row>, QueryError>
  {
    if Len(parts) > 0 || Len(groups) > 0 then
      match JoinComponentsWithGroups(groups, parts, true)
      case Err(e) => Err(e)
      case Ok(inner) => RunJoin(db, Keep(table, Elements(SelectIds(db, Keep(table, passes), inner))), None, None)
    else RunJoin(db, Keep(table, passes), groups, parts)
  }

  function RunJoin(db: Tables, ids: seq<string>, groups: Names, parts: Names): Result<seq<Row>, QueryError> {
    match JoinComponentsWithGroups(groups, parts, false)
    case Err(e) => Err(e)
    case Ok(plan) => Ok(Where(JoinRows(db, ids, plan.join), plan.cond))
  }

  // ---- Folding ----

  /** What one row adds to the record of its component. */
  function AddRow(mb: Membership, r: Row): Membership {
    if r.name.None? then mb
    else if r.kind == Some(GroupKind) then mb.(groupLabels := mb.groupLabels + [r.name.value])
    else if r.kind == Some(PartitionKind) then mb.(partitionName := r.name.value)
    else mb
  }

  function Fold(rows: seq<Row>, id: string): Membership {
    if rows == [] then Membership(id, [], "")
    else
      var n := |rows| - 1;
      if rows[n].comp == id then AddRow(Fold(rows[..n], id), rows[n]) else Fold(rows[..n], id)
  }

  ghost function Comps(rows: seq<Row>): set<string> {
    set r | r in rows :: r.comp
  }

  method FoldRows(rows: seq<Row>) returns (lookup: map<string, Membership>)
    ensures lookup.Keys == Comps(rows)
    ensures forall id :: id in lookup ==> lookup[id] == Fold(rows, id)
  {
    lookup := map[];
    for i := 0 to |rows|
      invariant lookup.Keys == Comps(rows[..i])
      invariant forall id :: id in lookup ==> lookup[id] == Fold(rows[..i], id)
    {
      var r := rows[i];
      assert rows[..i + 1] == rows[..i] + [r];
      if r.comp !in lookup {
        FoldAbsent(rows[..i], r.comp);
      }
      FoldSnoc(rows[..i], r);
      var mb := if r.comp in lookup then lookup[r.comp] else Membership(r.comp, [], "");
      if r.kind.Some? {
        if r.kind.value == GroupKind {
          if r.name.Some? {
            mb := mb.(groupLabels := mb.groupLabels + [r.name.value]);
          }
        } else if r.name.Some? {
          mb := mb.(partitionName := r.name.value);
        }
      }
      lookup := lookup[r.comp := mb];
    }
    assert rows[..|rows|] == rows;
  }

  lemma {:induction false} FoldAbsent(rows: seq<Row>, id: string)
    requires id !in Comps(rows)
    ensures Fold(rows, id) == Membership(id, [], "")
  {
    if rows != [] {
      var n := |rows| - 1;
      assert rows[n] in rows && forall r :: r in rows[..n] ==> r in rows;
      FoldAbsent(rows[..n], id);
    }
  }

  lemma FoldSnoc(rows: seq<Row>, r: Row)
    ensures forall id :: Fold(rows + [r], id) == if r.comp == id then AddRow(Fold(rows, id), r) else Fold(rows, id)
  {
    assert (rows + [r])[..|rows|] == rows;
  }

  // ---- The fold of a join is the membership ----

  ghost predicate IsMembershipOf(db: Tables, ms: seq<Member>, mb: Membership) {
    && NoDuplicates(mb.groupLabels)
    && (forall name :: name in mb.groupLabels <==> SomeNamed(db, ms, mb.id, GroupKind, name))
    && (if exists name :: SomeNamed(db, ms, mb.id, PartitionKind, name)
        then SomeNamed(db, ms, mb.id, PartitionKind, mb.partitionName)
        else mb.partitionName == "")
  }

  lemma {:induction false} FoldMatching(db: Tables, ms: seq<Member>, id: string)
    requires Valid(db) && KeysDistinct(ms) && forall m :: m in ms ==> m in db.members
    ensures Fold(MatchingRows(db, ms, id, AnyNs), id).id == id
    ensures IsMembershipOf(db, ms, Fold(MatchingRows(db, ms, id, AnyNs), id))
  {
    if ms == [] {
      assert MatchingRows(db, ms, id, AnyNs) == [];
    } else {
      var n := |ms| - 1;
      var front, last := ms[..n], ms[n];
      assert ms == front + [last] && last in ms;
      FoldMatching(db, front, id);
      OneMoreRow(db, front, last, id);
    }
  }

  lemma NamedSnoc(db: Tables, front: seq<Member>, last: Member, id: string)
    requires Valid(db) && KeysDistinct(front + [last])
    ensures forall kind, name :: SomeNamed(db, front + [last], id, kind, name) <==>
                                 SomeNamed(db, front, id, kind, name) || Named(db, last, id, kind, name)
    ensures forall kind, name :: !(SomeNamed(db, front, id, kind, name) && Named(db, last, id, kind, name))
  {
    forall kind, name
      ensures SomeNamed(db, front + [last], id, kind, name) <==>
              SomeNamed(db, front, id, kind, name) || Named(db, last, id, kind, name)
      ensures !(SomeNamed(db, front, id, kind, name) && Named(db, last, id, kind, name))
    {
      NamedOnce(db, front, last, id, kind, name);
    }
  }

  lemma AddGroupKeeps(db: Tables, front: seq<Member>, last: Member, mb: Membership, name: string)
    requires Valid(db) && KeysDistinct(front + [last]) && Named(db, last, mb.id, GroupKind, name)
    requires IsMembershipOf(db, front, mb)
    ensures IsMembershipOf(db, front + [last], mb.(groupLabels := mb.groupLabels + [name]))
  {
    NamedSnoc(db, front, last, mb.id);
    hide Valid, KeysDistinct, NoDuplicates, SomeNamed;
    NoDuplicatesSnoc(mb.groupLabels, name);
  }

  lemma AddPartitionKeeps(db: Tables, front: seq<Member>, last: Member, mb: Membership, name: string)
    requires Valid(db) && KeysDistinct(front + [last]) && Named(db, last, mb.id, PartitionKind, name)
    requires IsMembershipOf(db, front, mb)
    ensures IsMembershipOf(db, front + [last], mb.(partitionName := name))
  {
    NamedSnoc(db, front, last, mb.id);
    hide Valid, KeysDistinct, NoDuplicates, SomeNamed;
  }

  lemma AddRowKeeps(db: Tables, front: seq<Member>, last: Member, mb: Membership)
    requires Valid(db) && KeysDistinct(front + [last]) && last in db.members && IsMembershipOf(db, front, mb)
    ensures IsMembershipOf(db, front + [last], if last.comp == mb.id then AddRow(mb, MemberRow(db, last)) else mb)
  {
    var group := db.groups[last.gid];
    if last.comp == mb.id && group.kind.GroupKind? {
      AddGroupKeeps(db, front, last, mb, group.name);
    } else if last.comp == mb.id {
      AddPartitionKeeps(db, front, last, mb, group.name);
    } else {
      NamedSnoc(db, front, last, mb.id);
    }
  }

  lemma OneMoreRow(db: Tables, front: seq<Member>, last: Member, id: string)
    requires Valid(db) && KeysDistinct(front + [last]) && last in db.members
    requires Fold(MatchingRows(db, front, id, AnyNs), id).id == id
    requires IsMembershipOf(db, front, Fold(MatchingRows(db, front, id, AnyNs), id))
    ensures Fold(MatchingRows(db, front + [last], id, AnyNs), id).id == id
    ensures IsMembershipOf(db, front + [last], Fold(MatchingRows(db, front + [last], id, AnyNs), id))
  {
    hide Fold, Valid, KeysDistinct, IsMembershipOf, MatchingRows;
    var rows := MatchingRows(db, front, id, AnyNs);
    MatchingSnoc(db, front, last, id, AnyNs);
    FoldSnoc(rows, MemberRow(db, last));
    AddRowKeeps(db, front, last, Fold(rows, id));
  }

  lemma {:induction false} FoldElsewhere(a: seq<Row>, b: seq<Row>, id: string)
    requires forall r :: r in b ==> r.comp != id
    ensures Fold(a + b, id) == Fold(a, id)
  {
    if b == [] {
      assert a + b == a;
    } else {
      var n := |b| - 1;
      assert (a + b)[..|a + b| - 1] == a + b[..n] && b[n] in b;
      FoldElsewhere(a, b[..n], id);
    }
  }

  lemma {:induction false} FoldOwn(a: seq<Row>, b: seq<Row>, id: string)
    requires forall r :: r in a ==> r.comp != id
    ensures Fold(a + b, id) == Fold(b, id)
  {
    if b == [] {
      assert a + b == a;
      FoldAbsent(a, id);
    } else {
      var n := |b| - 1;
      assert (a + b)[..|a + b| - 1] == a + b[..n];
      FoldOwn(a, b[..n], id);
    }
  }

  lemma RowsOfComp(db: Tables, id: string, j: NsFilter)
    ensures Comps(RowsOf(db, id, j)) == {id}
  {
    MatchingRowsComp(db, db.members, id, j);
    var rows := RowsOf(db, id, j);
    assert rows[0] in rows;
  }

  lemma {:induction false} JoinRowsComps(db: Tables, ids: seq<string>, j: NsFilter)
    ensures Comps(JoinRows(db, ids, j)) == Elements(ids)
  {
    if ids != [] {
      var n := |ids| - 1;
      assert ids == ids[..n] + [ids[n]];
      JoinRowsComps(db, ids[..n], j);
      RowsOfComp(db, ids[n], j);
      var a, b := JoinRows(db, ids[..n], j), RowsOf(db, ids[n], j);
      assert Comps(a + b) == Comps(a) + Comps(b) by {
        forall r | r in a ensures r in a + b {}
        forall r | r in b ensures r in a + b {}
      }
    }
  }

  lemma {:induction false} FoldJoin(db: Tables, ids: seq<string>, id: string)
    requires NoDuplicates(ids) && id in ids
    ensures Fold(JoinRows(db, ids, AnyNs), id) == Fold(RowsOf(db, id, AnyNs), id)
  {
    var n := |ids| - 1;
    var a, b := JoinRows(db, ids[..n], AnyNs), RowsOf(db, ids[n], AnyNs);
    assert ids == ids[..n] + [ids[n]];
    JoinRowsComps(db, ids[..n], AnyNs);
    RowsOfComp(db, ids[n], AnyNs);
    if ids[n] == id {
      forall r | r in a ensures r.comp != id { assert r.comp in Comps(a); }
      FoldOwn(a, b, id);
    } else {
      forall r | r in b ensures r.comp != id { assert r.comp in Comps(b); }
      FoldElsewhere(a, b, id);
      FoldJoin(db, ids[..n], id);
    }
  }

  lemma FoldIsMembership(db: Tables, ids: seq<string>, id: string)
    requires Valid(db) && NoDuplicates(ids) && id in ids
    ensures Fold(JoinRows(db, ids, AnyNs), id).id == id
    ensures IsMembershipOf(db, db.members, Fold(JoinRows(db, ids, AnyNs), id))
  {
    hide IsMembershipOf, Valid;
    FoldJoin(db, ids, id);
    FoldMatching(db, db.members, id) by {
      assert KeysDistinct(db.members) by { ValidKeys(db); }
    }
    FoldNulls(id);
  }

  lemma ValidKeys(db: Tables)
    requires Valid(db)
    ensures KeysDistinct(db.members)
  {
  }

  lemma FoldNulls(id: string)
    ensures Fold([Row(id, None, None, None)], id) == Fold([], id)
  {
    var rows := [Row(id, None, None, None)];
    assert rows[..0] == [];
  }

  // ---- The whole listing ----

  lemma {:induction false} KeepKeeps(table: seq<string>, ids: set<string>)
    requires NoDuplicates(table)
    ensures NoDuplicates(Keep(table, ids))
    ensures forall id :: id in Keep(table, ids) <==> id in table && id in ids
  {
    if table != [] {
      var n := |table| - 1;
      assert table == table[..n] + [table[n]];
      KeepKeeps(table[..n], ids);
      if table[n] in ids {
        NoDuplicatesSnoc(Keep(table[..n], ids), table[n]);
      } else {
        assert Keep(table, ids) == Keep(table[..n], ids);
      }
    }
  }

  lemma {:induction false} WhereAll(rows: seq<Row>)
    ensures Where(rows, InNames(None, None)) == rows
  {
    if rows != [] {
      var n := |rows| - 1;
      WhereAll(rows[..n]);
      assert rows == rows[..n] + [rows[n]];
    }
  }

  lemma {:induction false} WhereNone(rows: seq<Row>, gs: Names, ps: Names)
    requires (gs.Some? || ps.Some?) && Len(gs) == 0 && Len(ps) == 0
    ensures Where(rows, InNames(gs, ps)) == []
  {
    if rows != [] {
      WhereNone(rows[..|rows| - 1], gs, ps);
    }
  }

  /** The ids whose memberships the filter asks for, once each. */
  ghost predicate Asked(db: Tables, table: seq<string>, passes: set<string>, groups: Names, parts: Names,
                        ids: seq<string>) {
    NoDuplicates(ids) &&
    forall id :: id in ids <==> id in table && id in passes && Selected(db, id, groups, parts)
  }

  /** The subquery and the second join together return the unfiltered join of the components
      asked for. */
  lemma SelectsAllMemberships(db: Tables, table: seq<string>, passes: set<string>, groups: Names, parts: Names)
    returns (ids: seq<string>)
    requires Valid(db) && NoDuplicates(table)
    ensures SelectComponents(db, table, passes, groups, parts).Err? <==> Rejected(groups, parts)
    ensures !Rejected(groups, parts) ==>
              && Asked(db, table, passes, groups, parts, ids)
              && SelectComponents(db, table, passes, groups, parts).value == JoinRows(db, ids, AnyNs)
  {
    hide NoDuplicates, Keep, Where, JoinRows, SelectIds, Valid;
    RejectedMixes(groups, parts, true);
    var base := Keep(table, passes);
    KeepKeeps(table, passes);
    if Rejected(groups, parts) {
      ids := [];
    } else if Len(parts) > 0 || Len(groups) > 0 {
      var inner := SelectIds(db, base, JoinComponentsWithGroups(groups, parts, true).value);
      forall id ensures id in inner <==> id in base && Selected(db, id, groups, parts) {
        JoinedQuerySelects(db, base, groups, parts, id);
      }
      ids := Keep(table, Elements(inner));
      KeepKeeps(table, Elements(inner));
      WhereAll(JoinRows(db, ids, AnyNs));
    } else if groups.None? && parts.None? {
      ids := base;
      WhereAll(JoinRows(db, ids, AnyNs));
    } else {
      ids := [];
      WhereNone(JoinRows(db, base, AnyNs), groups, parts);
      NothingAsked(db);
    }
  }

  lemma NothingAsked(db: Tables)
    ensures NoDuplicates([]) && JoinRows(db, [], AnyNs) == []
  {
  }

  /** The records of a lookup map, in any order. */
  method Records(lookup: map<string, Membership>) returns (mbs: seq<Membership>)
    requires forall id :: id in lookup ==> lookup[id].id == id
    ensures forall mb :: mb in mbs ==> mb.id in lookup && mb == lookup[mb.id]
    ensures forall id :: id in lookup ==> lookup[id] in mbs
    ensures forall i, j :: 0 <= i < j < |mbs| ==> mbs[i].id != mbs[j].id
  {
    var left := lookup;
    mbs := [];
    while left != map[]
      invariant left.Keys <= lookup.Keys && forall id :: id in left ==> left[id] == lookup[id]
      invariant forall mb :: mb in mbs ==> mb.id in lookup && mb == lookup[mb.id] && mb.id !in left
      invariant forall id :: id in lookup && id !in left ==> lookup[id] in mbs
      invariant forall i, j :: 0 <= i < j < |mbs| ==> mbs[i].id != mbs[j].id
      decreases |left|
    {
      var id :| id in left;
      mbs := mbs + [left[id]];
      left := left - {id};
    }
  }

  /** One record per component that the filter asks for, listing all its groups and its single
      partition, whatever the filter named. */
  method GetMemberships(db: Tables, table: seq<string>, passes: set<string>, groups: Names, parts: Names)
    returns (r: Result<seq<Membership>, QueryError>)
    requires Valid(db) && NoDuplicates(table)
    ensures r.Err? <==> Rejected(groups, parts)
    ensures r.Ok? ==> forall i, j :: 0 <= i < j < |r.value| ==> r.value[i].id != r.value[j].id
    ensures r.Ok? ==> forall mb :: mb in r.value ==> IsMembershipOf(db, db.members, mb)
    ensures r.Ok? ==> forall id :: (exists mb :: mb in r.value && mb.id == id) <==>
                                   id in table && id in passes && Selected(db, id, groups, parts)
  {
    hide NoDuplicates, Keep, Valid, IsMembershipOf, SelectComponents, Selected, Fold, JoinRows;
    var rows := SelectComponents(db, table, passes, groups, parts);
    ghost var ids := SelectsAllMemberships(db, table, passes, groups, parts);
    if rows.Err? {
      return Err(rows.error);
    }
    var lookup := FoldRows(rows.value);
    JoinRowsComps(db, ids, AnyNs);
    forall id | id in ids
      ensures lookup[id].id == id && IsMembershipOf(db, db.members, lookup[id])
    {
      FoldIsMembership(db, ids, id);
    }
    var mbs := Records(lookup);
    r := Ok(mbs);
  }
}
