/** Creating and deleting groups and partitions and their members, each in one transaction that
    is rolled back when a statement fails. */
module GroupStore {
  import opened Wrappers
  import opened Strings
  import opened MembershipTables

  datatype GroupError =
    | BadField | DuplicateKey | ExclusivePartition | ExclusiveGroup
    | NoComponent | NoGroup | NoPartition

  // ---- The insert of member rows ----

  /** What the database reports for a key that already exists. The error's detail names the
      columns and the values of the violated key; any mention of the namespace column is taken
      for the uniqueness of members, and any mention of the partition namespace for
      partitions. */
  function DuplicateError(detail: string): GroupError {
    if Contains(detail, "group_namespace") then
      if Contains(detail, PARTITION_NS) then ExclusivePartition else ExclusiveGroup
    else DuplicateKey
  }

  predicate Contains(s: string, part: string) {
    if s == "" then part == ""
    else part <= s || Contains(s[1..], part)
  }

  function MemberKeyError(ns: string): GroupError {
    if ns == PARTITION_NS then ExclusivePartition else ExclusiveGroup
  }

  /** Rows of one statement are entered in order, each checked against the primary key and then
      the uniqueness constraint. */
  function AddRows(ms: seq<Member>, gid: nat, ns: string, ids: seq<string>): Result<seq<Member>, GroupError>
    decreases |ids|
  {
    if ids == [] then Ok(ms)
    else
      var m := Member(ids[0], gid, ns);
      if exists k :: 0 <= k < |ms| && ms[k].comp == m.comp && ms[k].gid == gid then Err(DuplicateKey)
      else if exists k :: 0 <= k < |ms| && ms[k].comp == m.comp && ms[k].ns == ns then Err(MemberKeyError(ns))
      else AddRows(ms + [m], gid, ns, ids[1..])
  }

  /** Foreign keys are checked once all rows are in. No statement is issued for an empty list. */
  function InsertMembers(db: Tables, gid: nat, ns: string, ids: seq<string>): Result<Tables, GroupError> {
    if ids == [] then Ok(db)
    else
      match AddRows(db.members, gid, ns, ids)
      case Err(e) => Err(e)
      case Ok(ms) => if forall id :: id in ids ==> id in db.components then Ok(db.(members := ms)) else Err(NoComponent)
  }

  function NewMembers(gid: nat, ns: string, ids: seq<string>): seq<Member> {
    seq(|ids|, i requires 0 <= i < |ids| => Member(ids[i], gid, ns))
  }

  predicate Distinct(ids: seq<string>) {
    forall i, j :: 0 <= i < j < |ids| ==> ids[i] != ids[j]
  }

  predicate Taken(ms: seq<Member>, gid: nat, ns: string, id: string) {
    exists m :: m in ms && Clash(m, Member(id, gid, ns))
  }

  lemma KeysSnoc(ms: seq<Member>, m: Member)
    ensures KeysDistinct(ms + [m]) <==> KeysDistinct(ms) && forall a :: a in ms ==> !Clash(a, m)
  {
    assert (ms + [m])[..|ms|] == ms;
  }

  lemma TakenSnoc(ms: seq<Member>, gid: nat, ns: string, one: string, id: string)
    ensures Taken(ms + [Member(one, gid, ns)], gid, ns, id) <==> Taken(ms, gid, ns, id) || id == one
  {
    var m := Member(one, gid, ns);
    assert m in ms + [m] && forall a :: a in ms ==> a in ms + [m];
  }

  /** A statement succeeds exactly when its ids are distinct and none has an entry under the
      same group or namespace, and then it adds one row per id. */
  lemma {:induction false} AddRowsOutcome(ms: seq<Member>, gid: nat, ns: string, ids: seq<string>)
    requires KeysDistinct(ms)
    ensures AddRows(ms, gid, ns, ids).Ok? <==> Distinct(ids) && forall id :: id in ids ==> !Taken(ms, gid, ns, id)
    ensures AddRows(ms, gid, ns, ids).Ok? ==>
              var ms' := AddRows(ms, gid, ns, ids).value; KeysDistinct(ms') && ms' == ms + NewMembers(gid, ns, ids)
    ensures AddRows(ms, gid, ns, ids).Err? ==> AddRows(ms, gid, ns, ids).error in {DuplicateKey, MemberKeyError(ns)}
    decreases |ids|
  {
    if ids == [] {
      assert ms + NewMembers(gid, ns, ids) == ms;
    } else {
      var m, rest := Member(ids[0], gid, ns), ids[1..];
      assert ids == [ids[0]] + rest;
      assert Distinct(ids) <==> Distinct(rest) && ids[0] !in rest by { DistinctCons(ids[0], rest); }
      TakenAtFront(ms, gid, ns, ids[0]);
      if !Taken(ms, gid, ns, ids[0]) {
        KeysSnoc(ms, m);
        AddRowsOutcome(ms + [m], gid, ns, rest);
        forall id ensures Taken(ms + [m], gid, ns, id) <==> Taken(ms, gid, ns, id) || id == ids[0] {
          TakenSnoc(ms, gid, ns, ids[0], id);
        }
        assert ms + [m] + NewMembers(gid, ns, rest) == ms + NewMembers(gid, ns, ids);
      }
    }
  }

  lemma DistinctCons(id: string, rest: seq<string>)
    ensures Distinct([id] + rest) <==> Distinct(rest) && id !in rest
  {
    var ids := [id] + rest;
    assert forall i :: 0 <= i < |rest| ==> ids[i + 1] == rest[i];
    assert forall i :: 0 < i < |ids| ==> ids[i] == rest[i - 1];
    if id in rest {
      var i :| 0 <= i < |rest| && rest[i] == id;
      assert ids[0] == ids[i + 1];
    }
  }

  lemma TakenAtFront(ms: seq<Member>, gid: nat, ns: string, id: string)
    ensures Taken(ms, gid, ns, id) <==>
            || (exists k :: 0 <= k < |ms| && ms[k].comp == id && ms[k].gid == gid)
            || (exists k :: 0 <= k < |ms| && ms[k].comp == id && ms[k].ns == ns)
  {
    if Taken(ms, gid, ns, id) {
      var m :| m in ms && Clash(m, Member(id, gid, ns));
      var k :| 0 <= k < |ms| && ms[k] == m;
      assert ms[k].comp == id && (ms[k].gid == gid || ms[k].ns == ns);
    }
    if k :| 0 <= k < |ms| && ms[k].comp == id && (ms[k].gid == gid || ms[k].ns == ns) {
      assert ms[k] in ms && Clash(ms[k], Member(id, gid, ns));
    }
  }

  /** No id would meet an entry that the new one excludes, among the rows or the ids. */
  predicate Enterable(db: Tables, gid: nat, ns: string, ids: seq<string>) {
    Distinct(ids) && forall id :: id in ids ==> !Taken(db.members, gid, ns, id)
  }

  /** The whole statement on valid tables, for a group's own namespace: the new tables are
      valid, and every row it adds is accounted for. */
  lemma InsertMembersOutcome(db: Tables, gid: nat, ids: seq<string>)
    requires Valid(db) && gid in db.groups
    ensures var ns := NamespaceOf(db.groups[gid]); var r := InsertMembers(db, gid, ns, ids);
            && (r.Ok? <==> Distinct(ids) && (forall id :: id in ids ==> id in db.components && !Taken(db.members, gid, ns, id)))
            && (r.Err? ==> r.error != BadField && (r.error == NoComponent <==> Enterable(db, gid, ns, ids)))
            && (r.Ok? ==> Valid(r.value) && r.value == db.(members := db.members + NewMembers(gid, ns, ids)))
  {
    var ns := NamespaceOf(db.groups[gid]);
    AddRowsOutcome(db.members, gid, ns, ids);
    var added := NewMembers(gid, ns, ids);
    assert ids == [] ==> db.members + added == db.members;
    assert forall m :: m in added ==> m.comp in ids && m.gid == gid && m.ns == ns;
  }

  // ---- Deletes ----

  function Without(ms: seq<Member>, gone: set<Member>): seq<Member> {
    if ms == [] then []
    else
      var n := |ms| - 1;
      Without(ms[..n], gone) + (if ms[n] in gone then [] else [ms[n]])
  }

  lemma {:induction false} WithoutKeeps(ms: seq<Member>, gone: set<Member>)
    requires KeysDistinct(ms)
    ensures KeysDistinct(Without(ms, gone))
    ensures forall m :: m in Without(ms, gone) <==> m in ms && m !in gone
  {
    if ms != [] {
      var n := |ms| - 1;
      assert ms == ms[..n] + [ms[n]];
      WithoutKeeps(ms[..n], gone);
      if ms[n] in gone {
        assert Without(ms, gone) == Without(ms[..n], gone);
      } else {
        KeysSnoc(Without(ms[..n], gone), ms[n]);
      }
    }
  }

  function OfGroup(ms: seq<Member>, gid: nat): set<Member> {
    set m | m in ms && m.gid == gid
  }

  lemma MembersHaveGroups(db: Tables)
    requires Valid(db)
    ensures forall m :: m in db.members ==> m.gid in db.groups
  {
  }

  /** A row goes, and by the cascade its members; the only row with its name goes. */
  lemma DeletedOutcome(db: Tables, gid: nat)
    requires Valid(db) && gid in db.groups
    ensures var after := db.(groups := db.groups - {gid}, members := Without(db.members, OfGroup(db.members, gid)));
            && Valid(after)
            && (forall m :: m in after.members <==> m in db.members && m.gid in after.groups)
    ensures forall g :: g in db.groups && SameName(db.groups[g], db.groups[gid]) ==> g == gid
  {
    WithoutKeeps(db.members, OfGroup(db.members, gid));
  }

  function OfComp(ms: seq<Member>, id: string): set<Member> {
    set m | m in ms && m.comp == id
  }

  // ---- The store ----

  predicate HasName(db: Tables, name: string, kind: Kind) {
    exists g :: g in db.groups && db.groups[g].name == name && db.groups[g].kind == kind
  }

  class Store {
    var db: Tables

    constructor (components: set<string>)
      ensures Valid(db) && db == Tables(components, map[], [])
    {
      db := Tables(components, map[], []);
    }

    /** The id of the group or partition with a name, if any. */
    method Find(name: string, kind: Kind) returns (gid: Option<nat>)
      requires Valid(db)
      ensures gid.Some? <==> HasName(db, ToLower(name), kind)
      ensures gid.Some? ==> gid.value in db.groups && db.groups[gid.value].name == ToLower(name)
                            && db.groups[gid.value].kind == kind
    {
      if g :| g in db.groups && db.groups[g].name == ToLower(name) && db.groups[g].kind == kind {
        return Some(g);
      }
      return None;
    }

    /** Inserts the row of a group or partition. */
    method InsertEmpty(uuid: nat, row: GroupRow) returns (r: Result<(), GroupError>)
      requires Valid(db) && GroupRowOk(row) && uuid !in db.groups
      modifies this
      ensures r.Ok? <==> !HasName(old(db), row.name, row.kind)
      ensures r.Ok? ==> Valid(db) && db == old(db).(groups := old(db).groups[uuid := row])
      ensures r.Err? ==> db == old(db) && r.error == DuplicateError(row.name)
    {
      if g :| g in db.groups && db.groups[g].name == row.name && db.groups[g].kind == row.kind {
        return Err(DuplicateError(row.name));
      }
      db := db.(groups := db.groups[uuid := row]);
      return Ok(());
    }

    method InsertGroup(uuid: nat, groupLabel: string, exclusive: string,
                       ids: seq<string>) returns (r: Result<string, GroupError>)
      requires Valid(db) && uuid !in db.groups
      modifies this
      ensures Valid(db)
      ensures r.Err? ==> db == old(db)
      ensures r.Ok? ==> r.value == ToLower(groupLabel) && Created(old(db), db, uuid, GroupRow(r.value, GroupKind, ToLower(exclusive)), ids)
      ensures r.Ok? <==> Creatable(old(db), uuid, GroupRow(ToLower(groupLabel), GroupKind, ToLower(exclusive)), ids)
      ensures r.Err? ==> CreateError(old(db), uuid, GroupRow(ToLower(groupLabel), GroupKind, ToLower(exclusive)), ids, r.error)
    {
      var name, exclusive := ToLower(groupLabel), ToLower(exclusive);
      if !IsField(name) || !(exclusive == "" || IsField(exclusive)) {
        return Err(BadField);
      }
      var row := GroupRow(name, GroupKind, exclusive);
      var err := this.InsertRowAndMembers(uuid, row, ids);
      r := if err.Err? then Err(err.error) else Ok(name);
    }

    method InsertPartition(uuid: nat, name: string, ids: seq<string>) returns (r: Result<string, GroupError>)
      requires Valid(db) && uuid !in db.groups
      modifies this
      ensures Valid(db)
      ensures r.Err? ==> db == old(db)
      ensures r.Ok? ==> r.value == ToLower(name) && Created(old(db), db, uuid, GroupRow(r.value, PartitionKind, ""), ids)
      ensures r.Ok? <==> Creatable(old(db), uuid, GroupRow(ToLower(name), PartitionKind, ""), ids)
      ensures r.Err? ==> CreateError(old(db), uuid, GroupRow(ToLower(name), PartitionKind, ""), ids, r.error)
    {
      var name := ToLower(name);
      if !IsField(name) {
        return Err(BadField);
      }
      var row := GroupRow(name, PartitionKind, "");
      var err := this.InsertRowAndMembers(uuid, row, ids);
      r := if err.Err? then Err(err.error) else Ok(name);
    }

    /** The transaction of both inserts: the row, then its members, or neither. */
    method InsertRowAndMembers(uuid: nat, row: GroupRow, ids: seq<string>) returns (r: Result<(), GroupError>)
      requires Valid(db) && GroupRowOk(row) && uuid !in db.groups
      modifies this
      ensures Valid(db)
      ensures r.Err? ==> db == old(db)
      ensures r.Ok? ==> Created(old(db), db, uuid, row, ids)
      ensures r.Ok? <==> Creatable(old(db), uuid, row, ids)
      ensures r.Err? ==> CreateError(old(db), uuid, row, ids, r.error)
    {
      var begin := db;
      var err := InsertEmpty(uuid, row);
      if err.Err? {
        return err;
      }
      var namespace := row.name;
      if row.kind.PartitionKind? {
        namespace := PARTITION_NS;
      } else if row.exclusive != "" {
        namespace := "%" + row.exclusive + "%";
      }
      InsertMembersOutcome(db, uuid, ids);
      var done := InsertMembers(db, uuid, namespace, ids);
      if done.Err? {
        db := begin;
        return Err(done.error);
      }
      db := done.value;
      return Ok(());
    }

    /** Deleting a group or partition takes its members with it. */
    method Delete(name: string, kind: Kind) returns (didDelete: bool)
      requires Valid(db)
      modifies this
      ensures Valid(db) && db.components == old(db.components)
      ensures didDelete <==> HasName(old(db), ToLower(name), kind)
      ensures forall g :: g in db.groups <==>
                g in old(db.groups) && !(old(db).groups[g].name == ToLower(name) && old(db).groups[g].kind == kind)
      ensures forall g :: g in db.groups ==> db.groups[g] == old(db).groups[g]
      ensures forall m :: m in db.members <==> m in old(db).members && m.gid in db.groups
    {
      hide Valid, KeysDistinct, Without;
      var gid := Find(name, kind);
      if gid.None? {
        assert forall m :: m in db.members ==> m.gid in db.groups by { MembersHaveGroups(db); }
        return false;
      }
      DeletedOutcome(db, gid.value);
      db := db.(groups := db.groups - {gid.value}, members := Without(db.members, OfGroup(db.members, gid.value)));
      return true;
    }

    /** Deleting a component ends all its memberships. */
    method DeleteComponent(id: string)
      requires Valid(db)
      modifies this
      ensures Valid(db) && db.groups == old(db.groups) && db.components == old(db.components) - {id}
      ensures forall m :: m in db.members <==> m in old(db).members && m.comp != id
    {
      WithoutKeeps(db.members, OfComp(db.members, id));
      db := db.(components := db.components - {id}, members := Without(db.members, OfComp(db.members, id)));
    }

    /** Adds a component to a group or a partition. */
    method AddMember(name: string, kind: Kind, id: string) returns (r: Result<string, GroupError>)
      requires Valid(db)
      modifies this
      ensures Valid(db)
      ensures r.Err? ==> db == old(db)
      ensures HasName(old(db), ToLower(name), kind) ==>
                exists gid :: IsNamed(old(db), gid, name, kind) && AddOutcome(old(db), db, gid, id, r)
      ensures !HasName(old(db), ToLower(name), kind) ==> r == Err(if kind.GroupKind? then NoGroup else NoPartition)
    {
      var gid := Find(name, kind);
      if gid.None? {
        return Err(if kind.GroupKind? then NoGroup else NoPartition);
      }
      var g := db.groups[gid.value];
      var namespace := g.name;
      if g.kind.PartitionKind? {
        namespace := PARTITION_NS;
      } else if g.exclusive != "" {
        namespace := "%" + g.exclusive + "%";
      }
      AddOneOutcome(db, gid.value, id);
      InsertMembersOutcome(db, gid.value, [id]);
      var done := InsertMembers(db, gid.value, namespace, [id]);
      if done.Err? {
        return Err(done.error);
      }
      db := done.value;
      return Ok(id);
    }

    /** Removes a component from a group or a partition, if it is in it. */
    method DeleteMember(name: string, kind: Kind, id: string) returns (r: Result<bool, GroupError>)
      requires Valid(db)
      modifies this
      ensures Valid(db) && db.groups == old(db.groups) && db.components == old(db.components)
      ensures r.Err? <==> !HasName(old(db), ToLower(name), kind)
      ensures r.Err? ==> db == old(db) && r.error == (if kind.GroupKind? then NoGroup else NoPartition)
      ensures r.Ok? ==> exists gid :: IsNamed(old(db), gid, name, kind) && r.value == IsMember(old(db), id, gid)
                                      && MemberGone(old(db), db, id, gid)
    {
      var gid := Find(name, kind);
      if gid.None? {
        return Err(if kind.GroupKind? then NoGroup else NoPartition);
      }
      assert IsNamed(db, gid.value, name, kind);
      var gone := OfGroup(db.members, gid.value) * OfComp(db.members, id);
      WithoutKeeps(db.members, gone);
      r := Ok(gone != {});
      assert IsMember(db, id, gid.value) <==> gone != {} by {
        if m :| m in gone {
          assert m in db.members && m.comp == id && m.gid == gid.value;
        }
        if m :| m in db.members && m.comp == id && m.gid == gid.value {
          assert m in gone;
        }
      }
      db := db.(members := Without(db.members, gone));
    }
  }

  ghost predicate MemberGone(before: Tables, after: Tables, id: string, gid: nat) {
    forall m :: m in after.members <==> m in before.members && !(m.comp == id && m.gid == gid)
  }

  /** The tables after creating a group or partition. */
  ghost predicate Created(before: Tables, after: Tables, uuid: nat, row: GroupRow, ids: seq<string>) {
    && after.components == before.components
    && after.groups == before.groups[uuid := row]
    && after.members == before.members + NewMembers(uuid, NamespaceOf(row), ids)
  }

  /** When creating succeeds, in the terms of its caller: valid fields, a free name, and known,
      distinct components that are in no other group the new one excludes. */
  ghost predicate Creatable(db: Tables, uuid: nat, row: GroupRow, ids: seq<string>) {
    && GroupRowOk(row) && !HasName(db, row.name, row.kind) && Distinct(ids)
    && forall id :: id in ids ==> id in db.components && !Taken(db.members, uuid, NamespaceOf(row), id)
  }

  /** Which error a failed creation reports. */
  ghost predicate CreateError(db: Tables, uuid: nat, row: GroupRow, ids: seq<string>, e: GroupError) {
    && (e == BadField <==> !GroupRowOk(row))
    && (GroupRowOk(row) && HasName(db, row.name, row.kind) ==> e == DuplicateError(row.name))
    && (GroupRowOk(row) && !HasName(db, row.name, row.kind) ==>
          (e == NoComponent <==> Enterable(db, uuid, NamespaceOf(row), ids)))
  }

  ghost predicate IsNamed(db: Tables, gid: nat, name: string, kind: Kind) {
    gid in db.groups && db.groups[gid].name == ToLower(name) && db.groups[gid].kind == kind
  }

  /** The component is in another partition, or in another group of the same exclusive set. */
  ghost predicate Excluded(db: Tables, gid: nat, id: string)
    requires Valid(db) && gid in db.groups
  {
    exists h :: IsMember(db, id, h) && h != gid && SameNamespace(db.groups[h], db.groups[gid])
  }

  /** Each outcome of adding a member: already in it, excluded, unknown, or added. */
  ghost predicate AddOutcome(before: Tables, after: Tables, gid: nat, id: string, r: Result<string, GroupError>)
    requires Valid(before) && gid in before.groups
  {
    var g := before.groups[gid];
    if IsMember(before, id, gid) then r == Err(DuplicateKey)
    else if Excluded(before, gid, id) then
      r == Err(if g.kind.PartitionKind? then ExclusivePartition else ExclusiveGroup)
    else if id !in before.components then r == Err(NoComponent)
    else r == Ok(id) && after == before.(members := before.members + [Member(id, gid, NamespaceOf(g))])
  }

  lemma AddOneOutcome(db: Tables, gid: nat, id: string)
    requires Valid(db) && gid in db.groups
    ensures var r := InsertMembers(db, gid, NamespaceOf(db.groups[gid]), [id]);
            AddOutcome(db, if r.Ok? then r.value else db, gid, id, if r.Ok? then Ok(id) else Err(r.error))
  {
    var g, ms := db.groups[gid], db.members;
    var ns := NamespaceOf(g);
    var m := Member(id, gid, ns);
    assert [id][1..] == [] && AddRows(ms + [m], gid, ns, []) == Ok(ms + [m]);
    SameEntry(db, gid, id);
    NamespaceShape(g);
    NamespaceShape(GroupRow("p", PartitionKind, ""));
  }

  lemma SameEntry(db: Tables, gid: nat, id: string)
    requires Valid(db) && gid in db.groups
    ensures var ms := db.members;
            && (IsMember(db, id, gid) <==> exists k :: 0 <= k < |ms| && ms[k].comp == id && ms[k].gid == gid)
            && (!IsMember(db, id, gid) ==>
                  (Excluded(db, gid, id) <==>
                   exists k :: 0 <= k < |ms| && ms[k].comp == id && ms[k].ns == NamespaceOf(db.groups[gid])))
  {
    var ms := db.members;
    if k :| 0 <= k < |ms| && ms[k].comp == id && ms[k].gid == gid {
      assert ms[k] in ms;
    }
    if k :| 0 <= k < |ms| && ms[k].comp == id && ms[k].ns == NamespaceOf(db.groups[gid]) {
      assert ms[k] in ms;
      NamespacesNeverCollide(db.groups[ms[k].gid], db.groups[gid]);
      assert IsMember(db, id, ms[k].gid);
    }
    if Excluded(db, gid, id) {
      var h :| IsMember(db, id, h) && h != gid && SameNamespace(db.groups[h], db.groups[gid]);
      var m :| m in ms && m.comp == id && m.gid == h;
      NamespacesNeverCollide(db.groups[h], db.groups[gid]);
      var k :| 0 <= k < |ms| && ms[k] == m;
    }
  }

  // ---- The error of a taken name ----

  /** A taken name is reported as a duplicate key unless the name itself mentions the
      namespace column, as the label "group_namespace" does: then the report is the one meant
      for members of exclusive groups. */
  lemma TakenNameError(name: string)
    requires IsField(name)
    ensures DuplicateError(name) == if Contains(name, "group_namespace") then ExclusiveGroup else DuplicateKey
    ensures IsField("group_namespace") && DuplicateError("group_namespace") == ExclusiveGroup
  {
    NoPercent(name);
    assert IsField("group_namespace");
    NoPercent("group_namespace");
    assert Contains("group_namespace", "group_namespace");
  }

  lemma {:induction false} NoPercent(s: string)
    requires forall i :: 0 <= i < |s| ==> IsFieldChar(s[i])
    ensures !Contains(s, PARTITION_NS)
  {
    if s != "" {
      assert PARTITION_NS[0] == '%' && IsFieldChar(s[0]);
      NoPercent(s[1..]);
    }
  }
}
