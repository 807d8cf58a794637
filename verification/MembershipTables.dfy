/** The tables of groups, partitions and their members, and what the namespace column of the
    member table makes unique. */
module MembershipTables {
  /** The `namespace` column of a group row: groups and partitions share one table. */
  datatype Kind = GroupKind | PartitionKind

  datatype GroupRow = GroupRow(name: string, kind: Kind, exclusive: string)

  datatype Member = Member(comp: string, gid: nat, ns: string)

  datatype Tables = Tables(components: set<string>, groups: map<nat, GroupRow>, members: seq<Member>)

  const PARTITION_NS := "%%partition%%"

  /** The namespace under which the members of a group or partition are entered. */
  function NamespaceOf(g: GroupRow): string {
    if g.kind.PartitionKind? then PARTITION_NS
    else if g.exclusive != "" then "%" + g.exclusive + "%"
    else g.name
  }

  predicate IsFieldChar(c: char) {
    'a' <= c <= 'z' || '0' <= c <= '9' || c == '-' || c == ':' || c == '.' || c == '_'
  }

  /** Labels, names and exclusive set identifiers: one or more of `-a-z0-9:._`. */
  predicate IsField(s: string) {
    s != "" && forall i :: 0 <= i < |s| ==> IsFieldChar(s[i])
  }

  predicate GroupRowOk(g: GroupRow) {
    IsField(g.name) && (g.exclusive == "" || IsField(g.exclusive)) && (g.kind.PartitionKind? ==> g.exclusive == "")
  }

  predicate SameSet(g: GroupRow, h: GroupRow) {
    g.kind.GroupKind? && h.kind.GroupKind? && g.exclusive != "" && g.exclusive == h.exclusive
  }

  /** Whether being a member of both is one entry of the same namespace. */
  predicate SameNamespace(g: GroupRow, h: GroupRow) {
    || (g.kind.PartitionKind? && h.kind.PartitionKind?)
    || SameSet(g, h)
    || (g.kind.GroupKind? && h.kind.GroupKind? && g.exclusive == "" == h.exclusive && g.name == h.name)
  }

  /** The namespaces of partitions, of exclusive sets and of plain groups never collide. */
  lemma NamespacesNeverCollide(g: GroupRow, h: GroupRow)
    requires GroupRowOk(g) && GroupRowOk(h)
    ensures NamespaceOf(g) == NamespaceOf(h) <==> SameNamespace(g, h)
  {
    NamespaceShape(g);
    NamespaceShape(h);
    if g.kind.GroupKind? && h.kind.GroupKind? && g.exclusive != "" && h.exclusive != "" {
      var a, b := NamespaceOf(g), NamespaceOf(h);
      assert a[1..|a| - 1] == g.exclusive && b[1..|b| - 1] == h.exclusive;
    }
  }

  /** Each form of namespace is told apart by its first two characters. */
  lemma NamespaceShape(g: GroupRow)
    requires GroupRowOk(g)
    ensures var ns := NamespaceOf(g);
            && |ns| > 0
            && (g.kind.PartitionKind? <==> |ns| > 1 && ns[0] == '%' && ns[1] == '%')
            && (g.kind.GroupKind? && g.exclusive == "" <==> ns[0] != '%')
  {
    if g.kind.GroupKind? && g.exclusive == "" {
      assert IsFieldChar(g.name[0]);
    }
    if g.kind.GroupKind? && g.exclusive != "" {
      assert IsFieldChar(g.exclusive[0]);
    }
  }

  // ---- Keys ----

  /** Two member rows that the primary key or the uniqueness constraint keeps apart. */
  predicate Clash(a: Member, b: Member) {
    a.comp == b.comp && (a.gid == b.gid || a.ns == b.ns)
  }

  predicate KeysDistinct(ms: seq<Member>) {
    ms == [] ||
    var n := |ms| - 1;
    KeysDistinct(ms[..n]) && forall m :: m in ms[..n] ==> !Clash(m, ms[n])
  }

  lemma {:induction false} ClashingRowsAreEqual(ms: seq<Member>, a: Member, b: Member)
    requires KeysDistinct(ms) && a in ms && b in ms && Clash(a, b)
    ensures a == b
  {
    var n := |ms| - 1;
    assert ms == ms[..n] + [ms[n]];
    if a in ms[..n] && b in ms[..n] {
      ClashingRowsAreEqual(ms[..n], a, b);
    }
  }

  /** Two rows that the uniqueness of name and namespace keeps apart. */
  predicate SameName(g: GroupRow, h: GroupRow) {
    g.name == h.name && g.kind == h.kind
  }

  ghost predicate Valid(db: Tables) {
    && (forall g :: g in db.groups ==> GroupRowOk(db.groups[g]))
    && (forall g, h :: g in db.groups && h in db.groups && SameName(db.groups[g], db.groups[h]) ==> g == h)
    && (forall m :: m in db.members ==>
          m.comp in db.components && m.gid in db.groups && m.ns == NamespaceOf(db.groups[m.gid]))
    && KeysDistinct(db.members)
  }

  ghost predicate IsMember(db: Tables, comp: string, gid: nat) {
    exists m :: m in db.members && m.comp == comp && m.gid == gid
  }

  /** The one uniqueness constraint enforces all exclusivity: a component is in at most one
      partition and in at most one group of each exclusive set, and nothing else is excluded
      between two groups or a group and a partition. */
  lemma MembershipIsExclusive(db: Tables, comp: string, g: nat, h: nat)
    requires Valid(db) && IsMember(db, comp, g) && IsMember(db, comp, h)
    ensures db.groups[g].kind.PartitionKind? && db.groups[h].kind.PartitionKind? ==> g == h
    ensures SameSet(db.groups[g], db.groups[h]) ==> g == h
  {
    var a :| a in db.members && a.comp == comp && a.gid == g;
    var b :| b in db.members && b.comp == comp && b.gid == h;
    NamespacesNeverCollide(db.groups[g], db.groups[h]);
    if SameNamespace(db.groups[g], db.groups[h]) {
      ClashingRowsAreEqual(db.members, a, b);
    }
  }
}
