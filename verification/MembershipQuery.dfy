/** Queries that join components with their groups and partitions: the join is planned from
    the filter's group and partition arguments and evaluated with SQL's rules for outer
    joins, NULLs, GROUP BY and HAVING. */
module MembershipQuery {
  import opened Wrappers
  import opened MembershipTables

  type Names = Option<seq<string>>   // nil or a list

  datatype QueryError = MultipleGroupAndPart | NullPartBadGroup | NullGroupBadPart | NullBadMixGroup | NullBadMixPart

  // ---- Planning the join ----

  /** Which member rows the first outer join takes: all, or by their namespace column. */
  datatype NsFilter = AnyNs | OnlyPartitions | OnlyGroups

  datatype Cond = InNames(groups: Names, parts: Names) | NsIsNull

  datatype Plan = Plan(join: NsFilter, cond: Cond, groupById: bool, havingTwo: bool)

  function Len(names: Names): nat {
    if names.Some? then |names.value| else 0
  }

  predicate OnlyNull(names: Names) {
    Len(names) == 1 && names.value[0] == "NULL"
  }

  function JoinComponentsWithGroups(groupArgs: Names, partArgs: Names, groupAfterJoin: bool): Result<Plan, QueryError> {
    var both := Len(partArgs) == 1 && Len(groupArgs) == 1;
    if !both && Len(partArgs) >= 1 && Len(groupArgs) >= 1 then Err(MultipleGroupAndPart)
    else if OnlyNull(partArgs) && !(Len(groupArgs) == 0 || groupArgs.value[0] == "NULL") then Err(NullPartBadGroup)
    else
      var partNull := OnlyNull(partArgs);
      if OnlyNull(groupArgs) && !(Len(partArgs) == 0 || partNull) then Err(NullGroupBadPart)
      else
        var groupNull := OnlyNull(groupArgs);
        var join := if groupNull && partNull then AnyNs
                    else if partNull then OnlyPartitions
                    else if groupNull then OnlyGroups
                    else AnyNs;
        var intersection := both && !(groupNull && partNull);
        if partNull || groupNull then Ok(Plan(join, NsIsNull, groupAfterJoin, intersection))
        else
          match WhereComponentGrpCol(groupArgs, partArgs)
          case Err(e) => Err(e)
          case Ok(cond) => Ok(Plan(join, cond, groupAfterJoin, intersection))
  }

  function WhereComponentGrpCol(groupArgs: Names, partArgs: Names): Result<Cond, QueryError> {
    if Len(groupArgs) > 1 && "NULL" in groupArgs.value then Err(NullBadMixGroup)
    else if Len(partArgs) > 1 && "NULL" in partArgs.value then Err(NullBadMixPart)
    else Ok(InNames(groupArgs, partArgs))
  }

  // ---- Evaluating it ----

  /** A row of the joined tables; the columns of the outer joins may be NULL. */
  datatype Row = Row(comp: string, ns: Option<string>, name: Option<string>, kind: Option<Kind>)

  predicate Joins(j: NsFilter, m: Member) {
    match j
    case AnyNs => true
    case OnlyPartitions => m.ns == PARTITION_NS
    case OnlyGroups => m.ns != PARTITION_NS
  }

  function MemberRow(db: Tables, m: Member): Row {
    if m.gid in db.groups then Row(m.comp, Some(m.ns), Some(db.groups[m.gid].name), Some(db.groups[m.gid].kind))
    else Row(m.comp, Some(m.ns), None, None)
  }

  function MatchingRows(db: Tables, ms: seq<Member>, id: string, j: NsFilter): seq<Row> {
    if ms == [] then []
    else
      var n := |ms| - 1;
      MatchingRows(db, ms[..n], id, j) + (if ms[n].comp == id && Joins(j, ms[n]) then [MemberRow(db, ms[n])] else [])
  }

  /** The outer join for one component: its rows, or one row of NULLs. */
  function RowsOf(db: Tables, id: string, j: NsFilter): seq<Row> {
    var rows := MatchingRows(db, db.members, id, j);
    if rows == [] then [Row(id, None, None, None)] else rows
  }

  function JoinRows(db: Tables, ids: seq<string>, j: NsFilter): seq<Row> {
    if ids == [] then [] else JoinRows(db, ids[..|ids| - 1], j) + RowsOf(db, ids[|ids| - 1], j)
  }

  predicate NameIn(name: Option<string>, names: Names) {
    name.Some? && names.Some? && name.value in names.value
  }

  /** A comparison with NULL is not true. */
  predicate Satisfies(c: Cond, r: Row) {
    match c
    case NsIsNull => r.ns.None?
    case InNames(gs, ps) =>
      if gs.None? && ps.None? then true
      else (NameIn(r.name, gs) && r.kind == Some(GroupKind)) || (NameIn(r.name, ps) && r.kind == Some(PartitionKind))
  }

  function Where(rows: seq<Row>, c: Cond): seq<Row> {
    if rows == [] then []
    else
      var n := |rows| - 1;
      Where(rows[..n], c) + (if Satisfies(c, rows[n]) then [rows[n]] else [])
  }

  function CountOf(rows: seq<Row>, id: string): nat {
    if rows == [] then 0
    else CountOf(rows[..|rows| - 1], id) + (if rows[|rows| - 1].comp == id then 1 else 0)
  }

  /** GROUP BY id: each id of the rows once. */
  function GroupIds(rows: seq<Row>): seq<string> {
    if rows == [] then []
    else
      var n := |rows| - 1;
      var ids := GroupIds(rows[..n]);
      if rows[n].comp in ids then ids else ids + [rows[n].comp]
  }

  /** HAVING COUNT(*) = 2 */
  function HavingTwo(ids: seq<string>, rows: seq<Row>): seq<string> {
    if ids == [] then []
    else
      var n := |ids| - 1;
      HavingTwo(ids[..n], rows) + (if CountOf(rows, ids[n]) == 2 then [ids[n]] else [])
  }

  /** The ids that a grouped query over the components `ids` returns. */
  function SelectIds(db: Tables, ids: seq<string>, plan: Plan): seq<string> {
    var rows := Where(JoinRows(db, ids, plan.join), plan.cond);
    if plan.havingTwo then HavingTwo(GroupIds(rows), rows) else GroupIds(rows)
  }

  // ---- What the arguments ask for ----

  predicate Named(db: Tables, m: Member, id: string, kind: Kind, name: string) {
    m.comp == id && m.gid in db.groups && db.groups[m.gid].name == name && db.groups[m.gid].kind == kind
  }

  ghost predicate InGroup(db: Tables, id: string, kind: Kind, name: string) {
    exists m :: m in db.members && Named(db, m, id, kind, name)
  }

  ghost predicate InAny(db: Tables, id: string, kind: Kind) {
    exists m :: m in db.members && m.comp == id && m.gid in db.groups && db.groups[m.gid].kind == kind
  }

  ghost predicate InSome(db: Tables, id: string, kind: Kind, names: Names) {
    names.Some? && exists name :: name in names.value && InGroup(db, id, kind, name)
  }

  /** Components without groups, without partition or without either for "NULL"; in the one
      group and the one partition; in one of the groups or one of the partitions. No
      arguments at all select everything, but empty lists select nothing. */
  ghost predicate Selected(db: Tables, id: string, groups: Names, parts: Names) {
    if OnlyNull(groups) && OnlyNull(parts) then !InAny(db, id, GroupKind) && !InAny(db, id, PartitionKind)
    else if OnlyNull(parts) then !InAny(db, id, PartitionKind)
    else if OnlyNull(groups) then !InAny(db, id, GroupKind)
    else if Len(groups) == 1 && Len(parts) == 1 then
      InGroup(db, id, GroupKind, groups.value[0]) && InGroup(db, id, PartitionKind, parts.value[0])
    else if groups.None? && parts.None? then true
    else InSome(db, id, GroupKind, groups) || InSome(db, id, PartitionKind, parts)
  }

  /** Lists of both are refused unless both have one entry; "NULL" only stands alone, and beside
      another "NULL" at most. */
  predicate Rejected(groups: Names, parts: Names) {
    || (Len(groups) >= 1 && Len(parts) >= 1 && (Len(groups) > 1 || Len(parts) > 1))
    || (Len(groups) == 1 && Len(parts) == 1 && OnlyNull(groups) != OnlyNull(parts))
    || (Len(groups) > 1 && "NULL" in groups.value)
    || (Len(parts) > 1 && "NULL" in parts.value)
  }

  /** Exactly the other mixes of arguments are rejected. */
  lemma RejectedMixes(groups: Names, parts: Names, groupAfterJoin: bool)
    ensures JoinComponentsWithGroups(groups, parts, groupAfterJoin).Err? <==> Rejected(groups, parts)
  {
  }

  /** Each kind of rejected mix has its own error. */
  lemma RejectionReasons(groups: Names, parts: Names, groupAfterJoin: bool)
    ensures var r, gs, ps := JoinComponentsWithGroups(groups, parts, groupAfterJoin), Len(groups), Len(parts);
            && (r == Err(MultipleGroupAndPart) <==> gs > 0 && ps > 0 && gs + ps > 2)
            && (r == Err(NullPartBadGroup) <==> gs == ps == 1 && parts == Some(["NULL"]) && groups != Some(["NULL"]))
            && (r == Err(NullGroupBadPart) <==> gs == ps == 1 && groups == Some(["NULL"]) && parts != Some(["NULL"]))
            && (r == Err(NullBadMixGroup) <==> gs > 1 && ps == 0 && "NULL" in groups.value)
            && (r == Err(NullBadMixPart) <==> ps > 1 && gs == 0 && "NULL" in parts.value)
  {
    OnlyNullIs(groups);
    OnlyNullIs(parts);
  }

  lemma OnlyNullIs(names: Names)
    ensures OnlyNull(names) <==> names == Some(["NULL"])
  {
    if OnlyNull(names) {
      assert names.value == ["NULL"];
    }
  }

  // ---- Rows of one component ----

  predicate NoDuplicates(ids: seq<string>) {
    ids == [] || (NoDuplicates(ids[..|ids| - 1]) && ids[|ids| - 1] !in ids[..|ids| - 1])
  }

  lemma NoDuplicatesSnoc(ids: seq<string>, id: string)
    requires NoDuplicates(ids) && id !in ids
    ensures NoDuplicates(ids + [id])
  {
    assert (ids + [id])[..|ids|] == ids;
  }

  lemma CountSnoc(rows: seq<Row>, r: Row, id: string)
    ensures CountOf(rows + [r], id) == CountOf(rows, id) + (if r.comp == id then 1 else 0)
  {
    assert (rows + [r])[..|rows|] == rows;
  }

  lemma WhereSnoc(rows: seq<Row>, r: Row, c: Cond)
    ensures Where(rows + [r], c) == if Satisfies(c, r) then Where(rows, c) + [r] else Where(rows, c)
  {
    assert (rows + [r])[..|rows|] == rows;
  }

  lemma {:induction false} GroupIdsOnce(rows: seq<Row>)
    ensures NoDuplicates(GroupIds(rows))
    ensures forall id :: id in GroupIds(rows) <==> CountOf(rows, id) > 0
  {
    hide NoDuplicates, CountOf;
    if rows == [] {
      NothingGrouped();
    } else {
      var n := |rows| - 1;
      var r := rows[n];
      assert rows == rows[..n] + [r];
      GroupIdsOnce(rows[..n]);
      var ids := GroupIds(rows[..n]);
      forall id ensures CountOf(rows, id) == CountOf(rows[..n], id) + (if r.comp == id then 1 else 0) {
        CountSnoc(rows[..n], r, id);
      }
      if r.comp !in ids {
        NoDuplicatesSnoc(ids, r.comp);
      }
    }
  }

  lemma NothingGrouped()
    ensures GroupIds([]) == [] && NoDuplicates([]) && forall id :: CountOf([], id) == 0
  {
  }

  lemma {:induction false} HavingTwoFilters(ids: seq<string>, rows: seq<Row>)
    requires NoDuplicates(ids)
    ensures NoDuplicates(HavingTwo(ids, rows))
    ensures forall id :: id in HavingTwo(ids, rows) <==> id in ids && CountOf(rows, id) == 2
  {
    if ids != [] {
      var n := |ids| - 1;
      assert ids == ids[..n] + [ids[n]];
      HavingTwoFilters(ids[..n], rows);
      var kept := HavingTwo(ids[..n], rows);
      if CountOf(rows, ids[n]) == 2 {
        NoDuplicatesSnoc(kept, ids[n]);
        assert HavingTwo(ids, rows) == kept + [ids[n]];
      } else {
        assert HavingTwo(ids, rows) == kept;
      }
    }
  }

  lemma {:induction false} WhereAppend(a: seq<Row>, b: seq<Row>, c: Cond)
    ensures Where(a + b, c) == Where(a, c) + Where(b, c)
  {
    if b == [] {
      assert a + b == a;
    } else {
      var n := |b| - 1;
      assert (a + b)[..|a + b| - 1] == a + b[..n];
      WhereAppend(a, b[..n], c);
    }
  }

  lemma {:induction false} CountAppend(a: seq<Row>, b: seq<Row>, id: string)
    ensures CountOf(a + b, id) == CountOf(a, id) + CountOf(b, id)
  {
    if b == [] {
      assert a + b == a;
    } else {
      var n := |b| - 1;
      assert (a + b)[..|a + b| - 1] == a + b[..n];
      CountAppend(a, b[..n], id);
    }
  }

  lemma {:induction false} MatchingRowsComp(db: Tables, ms: seq<Member>, id: string, j: NsFilter)
    ensures forall r :: r in MatchingRows(db, ms, id, j) ==> r.comp == id
  {
    if ms != [] {
      MatchingRowsComp(db, ms[..|ms| - 1], id, j);
    }
  }

  lemma {:induction false} CountElsewhere(rows: seq<Row>, c: Cond, id: string, other: string)
    requires id != other && forall r :: r in rows ==> r.comp == other
    ensures CountOf(Where(rows, c), id) == 0
  {
    hide CountOf, Where;
    if rows == [] {
      NothingCounts(c, id);
    } else {
      var n := |rows| - 1;
      assert rows == rows[..n] + [rows[n]];
      CountElsewhere(rows[..n], c, id, other);
      WhereSnoc(rows[..n], rows[n], c);
      CountSnoc(Where(rows[..n], c), rows[n], id);
    }
  }

  /** Only a component's own rows count for it. */
  lemma {:induction false} CountIsOwn(db: Tables, ids: seq<string>, j: NsFilter, c: Cond, id: string)
    requires NoDuplicates(ids)
    ensures CountOf(Where(JoinRows(db, ids, j), c), id) ==
            if id in ids then CountOf(Where(RowsOf(db, id, j), c), id) else 0
  {
    hide CountOf, Where;
    if ids == [] {
      NothingCounts(c, id);
    } else {
      var n := |ids| - 1;
      assert ids == ids[..n] + [ids[n]];
      CountIsOwn(db, ids[..n], j, c, id);
      WhereAppend(JoinRows(db, ids[..n], j), RowsOf(db, ids[n], j), c);
      CountAppend(Where(JoinRows(db, ids[..n], j), c), Where(RowsOf(db, ids[n], j), c), id);
      if ids[n] != id {
        MatchingRowsComp(db, db.members, ids[n], j);
        CountElsewhere(RowsOf(db, ids[n], j), c, id, ids[n]);
      }
    }
  }

  lemma NothingCounts(c: Cond, id: string)
    ensures CountOf(Where([], c), id) == 0
  {
  }

  // ---- Rows that satisfy the condition ----

  predicate Hit(db: Tables, id: string, j: NsFilter, c: Cond, m: Member) {
    m.comp == id && Joins(j, m) && Satisfies(c, MemberRow(db, m))
  }

  lemma MatchingSnoc(db: Tables, ms: seq<Member>, m: Member, id: string, j: NsFilter)
    ensures MatchingRows(db, ms + [m], id, j) ==
            if m.comp == id && Joins(j, m) then MatchingRows(db, ms, id, j) + [MemberRow(db, m)] else MatchingRows(db, ms, id, j)
  {
    assert (ms + [m])[..|ms|] == ms;
  }

  lemma OneMoreMember(db: Tables, ms: seq<Member>, m: Member, id: string, j: NsFilter, c: Cond)
    ensures CountOf(Where(MatchingRows(db, ms + [m], id, j), c), id) ==
            CountOf(Where(MatchingRows(db, ms, id, j), c), id) + (if Hit(db, id, j, c, m) then 1 else 0)
  {
    hide CountOf, Where, MatchingRows;
    var front, row := MatchingRows(db, ms, id, j), MemberRow(db, m);
    MatchingSnoc(db, ms, m, id, j);
    WhereSnoc(front, row, c);
    CountSnoc(Where(front, c), row, id);
  }

  lemma {:induction false} SomeHit(db: Tables, ms: seq<Member>, id: string, j: NsFilter, c: Cond)
    ensures CountOf(Where(MatchingRows(db, ms, id, j), c), id) > 0 <==> exists m :: m in ms && Hit(db, id, j, c, m)
  {
    if ms == [] {
      NothingCounts(c, id);
    } else {
      var n := |ms| - 1;
      assert ms == ms[..n] + [ms[n]];
      SomeHit(db, ms[..n], id, j, c);
      OneMoreMember(db, ms[..n], ms[n], id, j, c);
    }
  }

  lemma {:induction false} NoMatch(db: Tables, ms: seq<Member>, id: string, j: NsFilter)
    ensures MatchingRows(db, ms, id, j) == [] <==> forall m :: m in ms && m.comp == id ==> !Joins(j, m)
  {
    if ms != [] {
      var n := |ms| - 1;
      assert ms == ms[..n] + [ms[n]];
      NoMatch(db, ms[..n], id, j);
    }
  }

  // ---- The query selects what the arguments ask for ----

  lemma ValidKinds(db: Tables, m: Member)
    requires Valid(db) && m in db.members
    ensures m.gid in db.groups && (m.ns == PARTITION_NS <==> db.groups[m.gid].kind.PartitionKind?)
  {
    NamespaceShape(db.groups[m.gid]);
    NamespaceShape(GroupRow("p", PartitionKind, ""));
  }

  /** The NULL modes: the outer join leaves a row of NULLs exactly for components without
      a membership of the kind looked for. */
  lemma NullMode(db: Tables, id: string, j: NsFilter)
    requires Valid(db)
    ensures CountOf(Where(RowsOf(db, id, j), NsIsNull), id) > 0 <==>
            forall m :: m in db.members && m.comp == id ==> !Joins(j, m)
  {
    hide CountOf, Where, MatchingRows, Valid;
    NoMatch(db, db.members, id, j);
    SomeHit(db, db.members, id, j, NsIsNull);
    OnlyNulls(id, NsIsNull);
  }

  lemma OnlyNulls(id: string, c: Cond)
    ensures CountOf(Where([Row(id, None, None, None)], c), id) ==
            if Satisfies(c, Row(id, None, None, None)) then 1 else 0
  {
    var rows := [Row(id, None, None, None)];
    assert rows[..0] == [];
    assert Where(rows, c) == if Satisfies(c, rows[0]) then rows else [];
  }

  lemma NamesMode(db: Tables, id: string, gs: Names, ps: Names)
    requires Valid(db)
    ensures CountOf(Where(RowsOf(db, id, AnyNs), InNames(gs, ps)), id) > 0 <==>
            (gs.None? && ps.None?) || InSome(db, id, GroupKind, gs) || InSome(db, id, PartitionKind, ps)
  {
    hide CountOf, Where, MatchingRows, Valid, KeysDistinct;
    var c := InNames(gs, ps);
    NoMatch(db, db.members, id, AnyNs);
    SomeHit(db, db.members, id, AnyNs, c);
    OnlyNulls(id, c);
    if gs.None? && ps.None? {
      assert forall m :: m in db.members && m.comp == id ==> Hit(db, id, AnyNs, c, m);
    } else {
      HitIsNamed(db, id, gs, ps);
    }
  }

  lemma HitIsNamed(db: Tables, id: string, gs: Names, ps: Names)
    requires gs.Some? || ps.Some?
    ensures (exists m :: m in db.members && Hit(db, id, AnyNs, InNames(gs, ps), m)) <==>
            InSome(db, id, GroupKind, gs) || InSome(db, id, PartitionKind, ps)
  {
    var c := InNames(gs, ps);
    if m :| m in db.members && Hit(db, id, AnyNs, c, m) {
      assert InGroup(db, id, db.groups[m.gid].kind, db.groups[m.gid].name);
    }
    if InSome(db, id, GroupKind, gs) {
      var name :| name in gs.value && InGroup(db, id, GroupKind, name);
      var m :| m in db.members && Named(db, m, id, GroupKind, name);
      assert Hit(db, id, AnyNs, c, m);
    }
    if InSome(db, id, PartitionKind, ps) {
      var name :| name in ps.value && InGroup(db, id, PartitionKind, name);
      var m :| m in db.members && Named(db, m, id, PartitionKind, name);
      assert Hit(db, id, AnyNs, c, m);
    }
  }

  ghost predicate SomeNamed(db: Tables, ms: seq<Member>, id: string, kind: Kind, name: string) {
    exists m :: m in ms && Named(db, m, id, kind, name)
  }

  /** Under the table's keys, no two rows of a component have the same name of the same kind. */
  lemma NamedOnce(db: Tables, front: seq<Member>, last: Member, id: string, kind: Kind, name: string)
    requires Valid(db) && KeysDistinct(front + [last])
    ensures SomeNamed(db, front + [last], id, kind, name) <==>
            SomeNamed(db, front, id, kind, name) || Named(db, last, id, kind, name)
    ensures !(SomeNamed(db, front, id, kind, name) && Named(db, last, id, kind, name))
  {
    var ms := front + [last];
    assert ms[..|front|] == front && last in ms && forall m :: m in front ==> m in ms;
    hide KeysDistinct;
    forall m | m in front && Named(db, m, id, kind, name) ensures !Named(db, last, id, kind, name) {
      if Named(db, last, id, kind, name) {
        NamedClash(db, m, last, id, kind, name);
      }
    }
  }

  lemma NamedClash(db: Tables, a: Member, b: Member, id: string, kind: Kind, name: string)
    requires Valid(db) && Named(db, a, id, kind, name) && Named(db, b, id, kind, name)
    ensures Clash(a, b)
  {
    assert SameName(db.groups[a.gid], db.groups[b.gid]);
  }

  lemma NobodyNamed(db: Tables, id: string)
    ensures forall kind, name :: !SomeNamed(db, [], id, kind, name)
  {
  }

  lemma HitEither(db: Tables, m: Member, id: string, g: string, p: string)
    ensures Hit(db, id, AnyNs, InNames(Some([g]), Some([p])), m) <==>
            Named(db, m, id, GroupKind, g) || Named(db, m, id, PartitionKind, p)
    ensures !(Named(db, m, id, GroupKind, g) && Named(db, m, id, PartitionKind, p))
  {
  }

  /** So two matching rows mean one of each kind. */
  lemma {:induction false} CountsBoth(db: Tables, ms: seq<Member>, id: string, g: string, p: string)
    requires Valid(db) && KeysDistinct(ms)
    ensures CountOf(Where(MatchingRows(db, ms, id, AnyNs), InNames(Some([g]), Some([p]))), id) ==
            (if SomeNamed(db, ms, id, GroupKind, g) then 1 else 0)
            + (if SomeNamed(db, ms, id, PartitionKind, p) then 1 else 0)
  {
    hide CountOf, Where, MatchingRows, Valid, Hit, Named, SomeNamed;
    var c := InNames(Some([g]), Some([p]));
    if ms == [] {
      NothingCounts(c, id);
      NobodyNamed(db, id);
      assert MatchingRows(db, [], id, AnyNs) == [] by { NoMatch(db, [], id, AnyNs); }
    } else {
      var n := |ms| - 1;
      var front, last := ms[..n], ms[n];
      assert ms == front + [last];
      CountsBoth(db, front, id, g, p);
      OneMoreMember(db, front, last, id, AnyNs, c);
      NamedOnce(db, front, last, id, GroupKind, g);
      NamedOnce(db, front, last, id, PartitionKind, p);
      HitEither(db, last, id, g, p);
    }
  }

  lemma IntersectionMode(db: Tables, id: string, g: string, p: string)
    requires Valid(db)
    ensures CountOf(Where(RowsOf(db, id, AnyNs), InNames(Some([g]), Some([p]))), id) == 2 <==>
            InGroup(db, id, GroupKind, g) && InGroup(db, id, PartitionKind, p)
  {
    hide CountOf, Where;
    var c := InNames(Some([g]), Some([p]));
    CountsBoth(db, db.members, id, g, p);
    NoMatch(db, db.members, id, AnyNs);
    OnlyNulls(id, c);
  }

  lemma NullModeSelects(db: Tables, id: string, groups: Names, parts: Names)
    requires Valid(db) && (OnlyNull(groups) || OnlyNull(parts)) && !Rejected(groups, parts)
    ensures var plan := JoinComponentsWithGroups(groups, parts, true).value;
            CountOf(Where(RowsOf(db, id, plan.join), plan.cond), id) > 0 <==> Selected(db, id, groups, parts)
  {
    hide CountOf, Where, RowsOf;
    var plan := JoinComponentsWithGroups(groups, parts, true).value;
    NullMode(db, id, plan.join);
    forall m | m in db.members
      ensures m.gid in db.groups && (m.ns == PARTITION_NS <==> db.groups[m.gid].kind.PartitionKind?)
    {
      ValidKinds(db, m);
    }
  }

  /** The joined query returns each component at most once, and exactly the components that
      the arguments ask for. */
  lemma JoinedQuerySelects(db: Tables, ids: seq<string>, groups: Names, parts: Names, id: string)
    requires Valid(db) && NoDuplicates(ids)
    requires JoinComponentsWithGroups(groups, parts, true).Ok?
    ensures var r := SelectIds(db, ids, JoinComponentsWithGroups(groups, parts, true).value);
            NoDuplicates(r) && (id in r <==> id in ids && Selected(db, id, groups, parts))
  {
    hide CountOf, Where, GroupIds, HavingTwo, Valid, NoDuplicates, JoinRows, RowsOf, InGroup, InSome, InAny;
    RejectedMixes(groups, parts, true);
    var plan := JoinComponentsWithGroups(groups, parts, true).value;
    var rows := Where(JoinRows(db, ids, plan.join), plan.cond);
    GroupIdsOnce(rows);
    HavingTwoFilters(GroupIds(rows), rows);
    CountIsOwn(db, ids, plan.join, plan.cond, id);
    if OnlyNull(groups) || OnlyNull(parts) {
      NullModeSelects(db, id, groups, parts);
    } else if plan.havingTwo {
      assert groups.value == [groups.value[0]] && parts.value == [parts.value[0]];
      IntersectionMode(db, id, groups.value[0], parts.value[0]);
    } else {
      NamesMode(db, id, groups, parts);
    }
  }
}
