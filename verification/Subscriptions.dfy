/** Subscriptions for state change notifications: what each gives to the index, and the list
    arithmetic of patches. */
module Subscriptions {
  import opened Wrappers
  import opened Strings
  import opened ScnIndex

  datatype Sub = Sub(
    id: int,
    subscriber: string,
    enabled: Option<bool>,
    roles: seq<string>,
    subRoles: seq<string>,
    swStatus: seq<string>,
    states: seq<string>,
    url: string)

  /** The body of a patch: triggers only. */
  datatype Patch = Patch(
    enabled: Option<bool>,
    roles: seq<string>,
    subRoles: seq<string>,
    swStatus: seq<string>,
    states: seq<string>)

  /** The trigger values of a subscription for one kind of trigger. */
  function Values(s: Sub, k: Kind): seq<string> {
    match k
    case Enabled => if s.enabled == Some(true) then ["enabled"] else []
    case Role => s.roles
    case SubRole => s.subRoles
    case SwStatus => s.swStatus
    case State => s.states
  }

  /** How often a subscription enters a URL under a trigger. */
  function Gives(s: Sub, k: Kind, v: string, u: string): int {
    if s.url == u then Lowers(Values(s, k))[v] else 0
  }

  function Total(subs: seq<Sub>, k: Kind, v: string, u: string): int {
    if subs == [] then 0
    else Total(subs[..|subs| - 1], k, v, u) + Gives(subs[|subs| - 1], k, v, u)
  }

  /** The index is the one that building it anew from the list would give: each URL once per
      trigger, counted once per matching trigger value. */
  ghost predicate IndexOf(m: Index, subs: seq<Sub>) {
    EntriesOk(m) && forall k, v, u :: Refs(m, k, v, u) == Total(subs, k, v, u)
  }

  predicate HasTrigger(s: Sub) {
    exists k :: Values(s, k) != []
  }

  // ---- Totals ----

  lemma TotalSnoc(subs: seq<Sub>, s: Sub, k: Kind, v: string, u: string)
    ensures Total(subs + [s], k, v, u) == Total(subs, k, v, u) + Gives(s, k, v, u)
  {
    assert (subs + [s])[..|subs|] == subs;
  }

  lemma {:induction false} TotalAppend(a: seq<Sub>, b: seq<Sub>, k: Kind, v: string, u: string)
    ensures Total(a + b, k, v, u) == Total(a, k, v, u) + Total(b, k, v, u)
  {
    if b == [] {
      assert a + b == a;
    } else {
      var n := |b| - 1;
      assert a + b == (a + b[..n]) + [b[n]];
      TotalSnoc(a + b[..n], b[n], k, v, u);
      TotalAppend(a, b[..n], k, v, u);
    }
  }

  lemma {:induction false} TotalNatural(subs: seq<Sub>, k: Kind, v: string, u: string)
    ensures Total(subs, k, v, u) >= 0
  {
    if subs != [] {
      TotalNatural(subs[..|subs| - 1], k, v, u);
    }
  }

  lemma TotalOne(s: Sub, k: Kind, v: string, u: string)
    ensures Total([s], k, v, u) == Gives(s, k, v, u)
  {
    assert [s][..0] == [];
  }

  /** Taking one subscription out of the list, or changing it, changes the totals by what it
      gives. */
  lemma TotalWithout(subs: seq<Sub>, i: nat, s: Sub, k: Kind, v: string, u: string)
    requires i < |subs|
    ensures Total(subs, k, v, u) >= Gives(subs[i], k, v, u)
    ensures Total(subs[..i] + subs[i + 1..], k, v, u) == Total(subs, k, v, u) - Gives(subs[i], k, v, u)
    ensures Total(subs[i := s], k, v, u) == Total(subs, k, v, u) - Gives(subs[i], k, v, u) + Gives(s, k, v, u)
  {
    var a, b := subs[..i], subs[i + 1..];
    assert subs == a + [subs[i]] + b && subs[i := s] == a + [s] + b;
    TotalOne(subs[i], k, v, u);
    TotalOne(s, k, v, u);
    TotalAppend(a + [subs[i]], b, k, v, u);
    TotalAppend(a, [subs[i]], k, v, u);
    TotalAppend(a + [s], b, k, v, u);
    TotalAppend(a, [s], k, v, u);
    TotalAppend(a, b, k, v, u);
    TotalNatural(a, k, v, u);
    TotalNatural(b, k, v, u);
  }

  // ---- Whole subscriptions in the index ----

  /** `addSCNMapSubscription` */
  method AddSubscription(m: Index, s: Sub) returns (r: Index)
    requires EntriesOk(m)
    ensures EntriesOk(r)
    ensures forall k, v, u :: Refs(r, k, v, u) == Refs(m, k, v, u) + Gives(s, k, v, u)
  {
    hide EntriesOk, Refs, Lowers;
    r := AddTriggers(m, Enabled, Values(s, Enabled), s.url);
    r := AddTriggers(r, Role, s.roles, s.url);
    r := AddTriggers(r, SubRole, s.subRoles, s.url);
    r := AddTriggers(r, SwStatus, s.swStatus, s.url);
    r := AddTriggers(r, State, s.states, s.url);
  }

  /** `removeSCNMapSubscription`, of a subscription that is in the index */
  method RemoveSubscription(m: Index, s: Sub) returns (r: Index)
    requires EntriesOk(m)
    requires forall k, v, u :: Refs(m, k, v, u) >= Gives(s, k, v, u)
    ensures EntriesOk(r)
    ensures forall k, v, u :: Refs(r, k, v, u) == Refs(m, k, v, u) - Gives(s, k, v, u)
  {
    hide EntriesOk, Refs, Lowers;
    assert forall k, v :: Refs(m, k, v, s.url) >= Gives(s, k, v, s.url) == Lowers(Values(s, k))[v];
    r := RemoveTriggers(m, Enabled, Values(s, Enabled), s.url);
    r := RemoveTriggers(r, Role, Values(s, Role), s.url);
    r := RemoveTriggers(r, SubRole, Values(s, SubRole), s.url);
    r := RemoveTriggers(r, SwStatus, Values(s, SwStatus), s.url);
    r := RemoveTriggers(r, State, Values(s, State), s.url);
  }

  // ---- The lists of a patch ----

  /** The values of a patch that a list does not have; repeated ones stay repeated. */
  function NewOnes(current: seq<string>, patch: seq<string>): seq<string> {
    if patch == [] then []
    else
      var n := |patch| - 1;
      NewOnes(current, patch[..n]) + (if patch[n] in current then [] else [patch[n]])
  }

  method FindNew(current: seq<string>, patch: seq<string>) returns (added: seq<string>)
    ensures added == NewOnes(current, patch)
  {
    added := [];
    for i := 0 to |patch|
      invariant added == NewOnes(current, patch[..i])
    {
      var found := false;
      for j := 0 to |current|
        invariant !found && forall k :: 0 <= k < j ==> current[k] != patch[i]
      {
        if current[j] == patch[i] {
          found := true;
          break;
        }
      }
      if !found {
        added := added + [patch[i]];
      }
      assert patch[..i + 1][..i] == patch[..i];
    }
    assert patch[..|patch|] == patch;
  }

  function FirstIndex(cells: seq<string>, v: string): (r: Option<nat>)
    ensures r.Some? ==> r.value < |cells| && cells[r.value] == v && v !in cells[..r.value]
    ensures r.None? <==> v !in cells
  {
    if cells == [] then None
    else if cells[0] == v then Some(0)
    else match FirstIndex(cells[1..], v) case None => None case Some(i) => Some(i + 1)
  }

  /** Removing values one by one from the cells of an array of which the first `length` are
      the list. Values are searched in all the cells the list had at the start, so a stale cell
      behind the list may be found; cutting there is out of range. */
  function RemoveEach(cells: seq<string>, length: nat, patch: seq<string>, removed: seq<string>)
    : Option<(seq<string>, seq<string>)>
    requires length <= |cells|
    decreases |patch|
  {
    if patch == [] then Some((cells[..length], removed))
    else
      match FirstIndex(cells, patch[0])
      case None => RemoveEach(cells, length, patch[1..], removed)
      case Some(j) =>
        if j >= length then None
        else RemoveEach(Cut(cells, j, length), length - 1, patch[1..], removed + [patch[0]])
  }

  method RemoveValues(current: seq<string>, patch: seq<string>) returns (r: Option<(seq<string>, seq<string>)>)
    ensures r == RemoveEach(current, |current|, patch, [])
  {
    var n := |current|;
    var a := new string[n](i requires 0 <= i < n => current[i]);
    var length, removed := n, [];
    assert a[..] == current;
    for i := 0 to |patch|
      invariant length <= n
      invariant RemoveEach(current, |current|, patch, []) == RemoveEach(a[..], length, patch[i..], removed)
    {
      var j := 0;
      while j < n && a[j] != patch[i]
        invariant j <= n && patch[i] !in a[..j]
      {
        j := j + 1;
      }
      assert patch[i..][0] == patch[i] && patch[i..][1..] == patch[i + 1..];
      FirstAt(a[..], j, patch[i]);
      if j < n {
        if j + 1 > length {
          return None;
        }
        hide FirstIndex;
        CutInPlace(a, j, length);
        length := length - 1;
        removed := removed + [patch[i]];
      }
    }
    r := Some((a[..length], removed));
    assert a[..][..length] == a[..length];
  }

  lemma {:induction false} FirstAt(cells: seq<string>, j: nat, v: string)
    requires j <= |cells| && v !in cells[..j] && (j < |cells| ==> cells[j] == v)
    ensures FirstIndex(cells, v) == if j < |cells| then Some(j) else None
  {
    if j > 0 {
      assert cells[..j][0] == cells[0];
      assert cells[1..][..j - 1] == cells[..j][1..];
      FirstAt(cells[1..], j - 1, v);
    }
  }

  lemma {:induction false} LowersAppend(a: seq<string>, b: seq<string>)
    ensures Lowers(a + b) == Lowers(a) + Lowers(b)
  {
    if b == [] {
      assert a + b == a;
    } else {
      var n := |b| - 1;
      assert (a + b)[..|a + b| - 1] == a + b[..n];
      LowersAppend(a, b[..n]);
    }
  }

  lemma LowersOne(v: string)
    ensures Lowers([v]) == multiset{ToLower(v)}
  {
    assert [v][..0] == [];
  }

  lemma LowersCut(cells: seq<string>, j: nat, length: nat)
    requires j < length <= |cells|
    ensures Lowers(cells[..length]) == Lowers(Cut(cells, j, length)[..length - 1]) + multiset{ToLower(cells[j])}
  {
    hide Lowers, ToLower;
    assert cells[..length] == cells[..j] + ([cells[j]] + cells[j + 1..length]);
    LowersAppend(cells[..j], [cells[j]] + cells[j + 1..length]);
    LowersAppend([cells[j]], cells[j + 1..length]);
    LowersAppend(cells[..j], cells[j + 1..length]);
    LowersOne(cells[j]);
  }

  /** What is kept and what is removed add up to the list, whenever the removal succeeds. */
  lemma {:induction false} RemoveEachConserves(cells: seq<string>, length: nat, patch: seq<string>,
                                               removed: seq<string>)
    requires length <= |cells|
    ensures var r := RemoveEach(cells, length, patch, removed);
            r.Some? ==> Lowers(r.value.0) + Lowers(r.value.1) == Lowers(cells[..length]) + Lowers(removed)
    decreases |patch|
  {
    hide Lowers, ToLower, Cut;
    if patch != [] {
      var at := FirstIndex(cells, patch[0]);
      if at.None? {
        RemoveEachConserves(cells, length, patch[1..], removed);
      } else if at.value < length {
        var j := at.value;
        RemoveEachConserves(Cut(cells, j, length), length - 1, patch[1..], removed + [patch[0]]);
        LowersCut(cells, j, length);
        LowersAppend(removed, [patch[0]]);
        LowersOne(patch[0]);
      }
    }
  }

  predicate Distinct(values: seq<string>) {
    forall i, j :: 0 <= i < j < |values| ==> values[i] != values[j]
  }

  /** A stale cell holds a value that is still in the list, or one that was removed. */
  ghost predicate TailCovered(cells: seq<string>, length: nat, gone: set<string>)
    requires length <= |cells|
  {
    forall j :: length <= j < |cells| ==> cells[j] in gone || cells[j] in cells[..length]
  }

  lemma TailStaysCovered(cells: seq<string>, length: nat, gone: set<string>, j: nat)
    requires j < length <= |cells| && TailCovered(cells, length, gone)
    ensures TailCovered(Cut(cells, j, length), length - 1, gone + {cells[j]})
  {
    var cut, live := Cut(cells, j, length), cells[..length];
    forall i | length - 1 <= i < |cells|
      ensures cut[i] in gone + {cells[j]} || cut[i] in cut[..length - 1]
    {
      assert cut[i] == cells[i];
      assert cells[i] in gone || cells[i] in live by {
        if i == length - 1 {
          assert live[i] == cells[i];
        }
      }
      if cells[i] in live && cells[i] != cells[j] {
        var k :| 0 <= k < length && live[k] == cells[i];
        assert k != j;
        assert cut[..length - 1][if k < j then k else k - 1] == cells[k];
      }
    }
  }

  lemma PrefixGrows(cells: seq<string>, i: nat, j: nat)
    requires i <= j <= |cells|
    ensures forall v :: v in cells[..i] ==> v in cells[..j]
  {
    assert forall k :: 0 <= k < i ==> cells[..i][k] == cells[..j][k];
  }

  lemma {:induction false} DistinctIsSafe(cells: seq<string>, length: nat, patch: seq<string>,
                                          removed: seq<string>, gone: set<string>)
    requires length <= |cells| && Distinct(patch) && TailCovered(cells, length, gone)
    requires forall v :: v in patch ==> v !in gone
    ensures RemoveEach(cells, length, patch, removed).Some?
    decreases |patch|
  {
    if patch != [] {
      var at := FirstIndex(cells, patch[0]);
      assert Distinct(patch[1..]) && forall v :: v in patch[1..] ==> v in patch && v != patch[0];
      if at.None? {
        DistinctIsSafe(cells, length, patch[1..], removed, gone);
      } else {
        var j := at.value;
        assert patch[0] in patch;
        if j >= length {
          PrefixGrows(cells, length, j);
          assert false;
        }
        TailStaysCovered(cells, length, gone, j);
        DistinctIsSafe(Cut(cells, j, length), length - 1, patch[1..], removed + [patch[0]], gone + {cells[j]});
      }
    }
  }

  /** With a value twice in the patch, a list that has it once is already out of range. */
  lemma {:induction false} RepeatedIsUnsafe(v: string, length: nat, patch: seq<string>, removed: seq<string>)
    requires length <= 1 && multiset(patch)[v] + (1 - length) >= 2
    ensures RemoveEach([v], length, patch, removed).None?
    decreases |patch|
  {
    assert patch == [patch[0]] + patch[1..];
    if patch[0] == v {
      assert FirstIndex([v], v) == Some(0);
      if length == 1 {
        assert Cut([v], 0, 1) == [v];
        RepeatedIsUnsafe(v, 0, patch[1..], removed + [v]);
      }
    } else {
      assert FirstIndex([v], patch[0]) == None;
      RepeatedIsUnsafe(v, length, patch[1..], removed);
    }
  }

  /** A remove patch is safe for every list exactly when it repeats no value. */
  lemma RemoveIsSafe(patch: seq<string>)
    ensures (forall current :: RemoveEach(current, |current|, patch, []).Some?) <==> Distinct(patch)
  {
    if Distinct(patch) {
      forall current: seq<string> ensures RemoveEach(current, |current|, patch, []).Some? {
        DistinctIsSafe(current, |current|, patch, [], {});
      }
    } else {
      var i, j :| 0 <= i < j < |patch| && patch[i] == patch[j];
      var v := patch[i];
      assert patch == patch[..j] + [v] + patch[j + 1..] && patch[..j][i] == v;
      assert multiset(patch[..j])[v] >= 1;
      RepeatedIsUnsafe(v, 1, patch, []);
      assert |[v]| == 1;
    }
  }
}
