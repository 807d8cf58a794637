/** Creating groups and partitions in terms of who is a member of what: when it succeeds, with which
    error it fails, and that deleting takes it back. */
module GroupRules {
  import opened Wrappers
  import opened MembershipTables
  import opened GroupStore

  /** The characters of labels, names and exclusive set identifiers. */
  lemma FieldsMean(s: string)
    ensures IsField(s) <==> s != "" && forall c :: c in s ==> c in "abcdefghijklmnopqrstuvwxyz0123456789-:._"
  {
    forall c: char ensures IsFieldChar(c) <==> c in "abcdefghijklmnopqrstuvwxyz0123456789-:._" {
      FieldChars(c);
    }
    if s != "" {
      assert s[0] in s;
    }
  }

  lemma FieldChars(c: char)
    ensures IsFieldChar(c) <==> c in "abcdefghijklmnopqrstuvwxyz0123456789-:._"
  {
  }

  predicate OccursAt(s: string, part: string, i: nat) {
    i + |part| <= |s| && s[i..i + |part|] == part
  }

  /** A text contains another exactly if that is a slice of it. */
  lemma {:induction false} ContainsMeans(s: string, part: string)
    ensures Contains(s, part) <==> exists i: nat :: OccursAt(s, part, i)
  {
    assert OccursAt(s, part, 0) <==> part <= s;
    if s != "" {
      ContainsMeans(s[1..], part);
      if i: nat :| OccursAt(s[1..], part, i) {
        assert OccursAt(s, part, i + 1);
      }
      if i: nat :| OccursAt(s, part, i) && i > 0 {
        assert s[1..][i - 1..i - 1 + |part|] == s[i..i + |part|];
        assert OccursAt(s[1..], part, i - 1);
      }
    }
  }

  // ---- When creating succeeds ----

  /** A group excludes another for its members if both are partitions or of one exclusive set. */
  predicate Excludes(g: GroupRow, h: GroupRow) {
    || (g.kind.PartitionKind? && h.kind.PartitionKind?)
    || (g.kind.GroupKind? && h.kind.GroupKind? && g.exclusive != "" && g.exclusive == h.exclusive)
  }

  ghost predicate InExcluded(db: Tables, row: GroupRow, id: string)
    requires Valid(db)
  {
    exists h :: IsMember(db, id, h) && Excludes(db.groups[h], row)
  }

  lemma TakenMeans(db: Tables, uuid: nat, row: GroupRow, id: string)
    requires Valid(db) && GroupRowOk(row) && uuid !in db.groups && !HasName(db, row.name, row.kind)
    ensures Taken(db.members, uuid, NamespaceOf(row), id) <==> InExcluded(db, row, id)
  {
    if Taken(db.members, uuid, NamespaceOf(row), id) {
      var m :| m in db.members && Clash(m, Member(id, uuid, NamespaceOf(row)));
      NamespacesNeverCollide(db.groups[m.gid], row);
      assert IsMember(db, id, m.gid);
    }
    if h :| IsMember(db, id, h) && Excludes(db.groups[h], row) {
      var m :| m in db.members && m.comp == id && m.gid == h;
      NamespacesNeverCollide(db.groups[h], row);
      assert Clash(m, Member(id, uuid, NamespaceOf(row)));
    }
  }

  /** Creating succeeds exactly with valid fields, a free name, and known components, each given
      once, that are in no group or partition the new one excludes. */
  lemma CreatableMeans(db: Tables, uuid: nat, row: GroupRow, ids: seq<string>)
    requires Valid(db) && uuid !in db.groups
    ensures Creatable(db, uuid, row, ids) <==>
              && GroupRowOk(row)
              && (forall g :: g in db.groups ==> !(db.groups[g].name == row.name && db.groups[g].kind == row.kind))
              && (forall i, j :: 0 <= i < j < |ids| ==> ids[i] != ids[j])
              && (forall id :: id in ids ==> id in db.components && !InExcluded(db, row, id))
  {
    if GroupRowOk(row) && !HasName(db, row.name, row.kind) {
      forall id ensures Taken(db.members, uuid, NamespaceOf(row), id) <==> InExcluded(db, row, id) {
        TakenMeans(db, uuid, row, id);
      }
    }
  }

  /** The error of rows that cannot be entered is that of the first one: a duplicate if the id is
      given twice or in the group already, else that of the uniqueness of members. */
  lemma {:induction false} FirstConflict(ms: seq<Member>, gid: nat, ns: string, ids: seq<string>, i: nat)
    requires i < |ids| && (ids[i] in ids[..i] || Taken(ms, gid, ns, ids[i]))
    requires forall j :: 0 <= j < i ==> ids[j] !in ids[..j] && !Taken(ms, gid, ns, ids[j])
    ensures AddRows(ms, gid, ns, ids) ==
            Err(if ids[i] in ids[..i] || (exists m :: m in ms && m.comp == ids[i] && m.gid == gid) then DuplicateKey
                else MemberKeyError(ns))
    decreases i
  {
    TakenAtFront(ms, gid, ns, ids[0]);
    if i == 0 {
      if m :| m in ms && m.comp == ids[0] && m.gid == gid {
        var k :| 0 <= k < |ms| && ms[k] == m;
      }
    } else {
      var m, rest := Member(ids[0], gid, ns), ids[1..];
      assert ids[0] !in ids[..0] && !Taken(ms, gid, ns, ids[0]);
      forall id ensures Taken(ms + [m], gid, ns, id) <==> Taken(ms, gid, ns, id) || id == ids[0] {
        TakenSnoc(ms, gid, ns, ids[0], id);
      }
      forall j | 0 <= j < i ensures ids[..j + 1] == [ids[0]] + rest[..j] {}
      forall j | 0 <= j < i - 1 ensures rest[j] !in rest[..j] && !Taken(ms + [m], gid, ns, rest[j]) {
        assert rest[j] == ids[j + 1] && ids[..j + 1] == [ids[0]] + rest[..j];
      }
      assert ids[..i] == [ids[0]] + rest[..i - 1] && rest[i - 1] == ids[i];
      FirstConflict(ms + [m], gid, ns, rest, i - 1);
      assert m in ms + [m];
    }
  }

  /** Which uniqueness error that is: of partitions for a partition, of exclusive groups otherwise. */
  lemma UniquenessError(row: GroupRow)
    requires GroupRowOk(row)
    ensures MemberKeyError(NamespaceOf(row)) == if row.kind.PartitionKind? then ExclusivePartition else ExclusiveGroup
  {
    NamespacesNeverCollide(row, GroupRow("p", PartitionKind, ""));
    assert IsFieldChar('p');
  }

  // ---- What creating changes ----

  /** The new group has exactly the given members, and no other group gains or loses one. */
  lemma CreatedMembers(before: Tables, after: Tables, uuid: nat, row: GroupRow, ids: seq<string>, id: string, g: nat)
    requires Valid(before) && uuid !in before.groups && Created(before, after, uuid, row, ids)
    ensures IsMember(after, id, g) <==> if g == uuid then id in ids else IsMember(before, id, g)
  {
    var added := NewMembers(uuid, NamespaceOf(row), ids);
    forall m ensures m in after.members <==> m in before.members || m in added {}
    forall m | m in before.members ensures m.gid != uuid {}
    if id in ids {
      var i :| 0 <= i < |ids| && ids[i] == id;
      assert added[i] in added;
    }
  }

  lemma {:induction false} WithoutAppend(a: seq<Member>, b: seq<Member>, gone: set<Member>)
    ensures Without(a + b, gone) == Without(a, gone) + Without(b, gone)
  {
    if b == [] {
      assert a + b == a;
    } else {
      var n := |b| - 1;
      assert (a + b)[..|a + b| - 1] == a + b[..n];
      WithoutAppend(a, b[..n], gone);
    }
  }

  lemma {:induction false} WithoutAll(ms: seq<Member>, gone: set<Member>)
    ensures (forall m :: m in ms ==> m in gone) ==> Without(ms, gone) == []
    ensures (forall m :: m in ms ==> m !in gone) ==> Without(ms, gone) == ms
  {
    if ms != [] {
      var n := |ms| - 1;
      assert ms == ms[..n] + [ms[n]];
      WithoutAll(ms[..n], gone);
    }
  }

  lemma MembersBack(ms: seq<Member>, added: seq<Member>, gid: nat)
    requires (forall m :: m in ms ==> m.gid != gid) && (forall m :: m in added ==> m.gid == gid)
    ensures Without(ms + added, OfGroup(ms + added, gid)) == ms
  {
    hide Without;
    var gone := OfGroup(ms + added, gid);
    WithoutAppend(ms, added, gone);
    WithoutAll(ms, gone);
    WithoutAll(added, gone);
    assert ms + [] == ms;
  }

  /** Dropping the new group and, by the cascade, its member rows leaves the tables as they were. */
  lemma DeletingUndoesCreating(before: Tables, after: Tables, uuid: nat, row: GroupRow, ids: seq<string>)
    requires Valid(before) && uuid !in before.groups && Created(before, after, uuid, row, ids)
    ensures after.(groups := after.groups - {uuid}, members := Without(after.members, OfGroup(after.members, uuid))) == before
  {
    hide Without, OfGroup, NamespaceOf, KeysDistinct, GroupRowOk, SameName;
    var added := NewMembers(uuid, NamespaceOf(row), ids);
    assert forall m :: m in before.members ==> m.gid != uuid;
    MembersBack(before.members, added, uuid);
    assert after.groups - {uuid} == before.groups;
  }
}
