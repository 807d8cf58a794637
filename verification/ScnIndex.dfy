/** The index of subscribed URLs by trigger: lists of URLs with reference counts, changed in
    place as subscriptions come and go. */
module ScnIndex {
  import opened Wrappers
  import opened Strings

  datatype ScnUrl = ScnUrl(url: string, refCount: int)

  // ---- One list of URLs ----

  ghost predicate UrlsOk(list: seq<ScnUrl>) {
    && (forall i, j :: 0 <= i < j < |list| ==> list[i].url != list[j].url)
    && (forall i :: 0 <= i < |list| ==> list[i].refCount >= 1)
  }

  function RefCount(list: seq<ScnUrl>, url: string): int {
    if list == [] then 0
    else if list[0].url == url then list[0].refCount
    else RefCount(list[1..], url)
  }

  lemma {:induction false} RefCountAt(list: seq<ScnUrl>, i: nat)
    requires UrlsOk(list) && i < |list|
    ensures RefCount(list, list[i].url) == list[i].refCount >= 1
  {
    if i > 0 {
      RefCountAt(list[1..], i - 1);
    }
  }

  lemma {:induction false} RefCountNone(list: seq<ScnUrl>, url: string)
    requires forall i :: 0 <= i < |list| ==> list[i].url != url
    ensures RefCount(list, url) == 0
  {
    if list != [] {
      RefCountNone(list[1..], url);
    }
  }

  /** The count of a URL is the one of its entry, or none. */
  lemma RefCountCases(list: seq<ScnUrl>, url: string)
    requires UrlsOk(list)
    ensures RefCount(list, url) >= 0
    ensures RefCount(list, url) > 0 <==> exists i :: 0 <= i < |list| && list[i].url == url
  {
    if i :| 0 <= i < |list| && list[i].url == url {
      RefCountAt(list, i);
    } else {
      RefCountNone(list, url);
    }
  }

  /** `addSCNUrl` */
  method AddScnUrl(urlList: seq<ScnUrl>, urlIn: string) returns (r: seq<ScnUrl>)
    requires UrlsOk(urlList)
    ensures UrlsOk(r)
    ensures forall u :: RefCount(r, u) == RefCount(urlList, u) + if u == urlIn then 1 else 0
  {
    hide RefCount;
    var found := false;
    r := urlList;
    for i := 0 to |urlList|
      invariant r == urlList && !found
      invariant forall j :: 0 <= j < i ==> urlList[j].url != urlIn
    {
      if urlIn == urlList[i].url {
        found := true;
        r := r[i := ScnUrl(urlList[i].url, urlList[i].refCount + 1)];
        UpdatedCounts(urlList, i, urlList[i].refCount + 1);
        break;
      }
    }
    if !found {
      r := r + [ScnUrl(urlIn, 1)];
      AppendedCounts(urlList, urlIn);
    }
  }

  lemma UpdatedCounts(list: seq<ScnUrl>, i: nat, count: int)
    requires UrlsOk(list) && i < |list| && count >= 1
    ensures UrlsOk(list[i := ScnUrl(list[i].url, count)])
    ensures forall u :: RefCount(list[i := ScnUrl(list[i].url, count)], u) ==
                        if u == list[i].url then count else RefCount(list, u)
    ensures RefCount(list, list[i].url) == list[i].refCount
  {
    var r := list[i := ScnUrl(list[i].url, count)];
    assert UrlsOk(r);
    hide UrlsOk, RefCount;
    RefCountAt(list, i);
    RefCountAt(r, i);
    forall u | u != list[i].url ensures RefCount(r, u) == RefCount(list, u) {
      if j :| 0 <= j < |list| && list[j].url == u {
        RefCountAt(list, j);
        RefCountAt(r, j);
      } else {
        RefCountNone(list, u);
        RefCountNone(r, u);
      }
    }
  }

  lemma AppendedCounts(list: seq<ScnUrl>, url: string)
    requires UrlsOk(list) && forall j :: 0 <= j < |list| ==> list[j].url != url
    ensures UrlsOk(list + [ScnUrl(url, 1)])
    ensures forall u :: RefCount(list + [ScnUrl(url, 1)], u) == RefCount(list, u) + if u == url then 1 else 0
  {
    var r := list + [ScnUrl(url, 1)];
    assert UrlsOk(r);
    hide UrlsOk, RefCount;
    RefCountNone(list, url);
    RefCountAt(r, |list|);
    forall u | u != url ensures RefCount(r, u) == RefCount(list, u) {
      if j :| 0 <= j < |list| && list[j].url == u {
        RefCountAt(list, j);
        RefCountAt(r, j);
      } else {
        RefCountNone(list, u);
        RefCountNone(r, u);
      }
    }
  }

  lemma RemovedOk(list: seq<ScnUrl>, i: nat)
    requires UrlsOk(list) && i < |list|
    ensures UrlsOk(list[..i] + list[i + 1..])
  {
    var r := list[..i] + list[i + 1..];
    assert forall j :: 0 <= j < |r| ==> r[j] == if j < i then list[j] else list[j + 1];
  }

  lemma RemovedCount(list: seq<ScnUrl>, i: nat, u: string)
    requires UrlsOk(list) && i < |list| && UrlsOk(list[..i] + list[i + 1..])
    ensures RefCount(list[..i] + list[i + 1..], u) == if u == list[i].url then 0 else RefCount(list, u)
  {
    var r := list[..i] + list[i + 1..];
    assert forall j :: 0 <= j < |list| && j != i ==> list[j].url != list[i].url;
    hide UrlsOk, RefCount;
    if u == list[i].url {
      RefCountNone(r, u);
    } else if j :| 0 <= j < |list| && list[j].url == u {
      var j' := if j < i then j else j - 1;
      assert r[j'] == list[j];
      RefCountAt(list, j);
      RefCountAt(r, j');
    } else {
      RefCountNone(list, u);
      RefCountNone(r, u);
    }
  }

  lemma RemovedCounts(list: seq<ScnUrl>, i: nat)
    requires UrlsOk(list) && i < |list|
    ensures UrlsOk(list[..i] + list[i + 1..])
    ensures forall u :: RefCount(list[..i] + list[i + 1..], u) == if u == list[i].url then 0 else RefCount(list, u)
    ensures RefCount(list, list[i].url) == list[i].refCount
  {
    RemovedOk(list, i);
    hide UrlsOk, RefCount;
    RefCountAt(list, i);
    forall u ensures RefCount(list[..i] + list[i + 1..], u) == if u == list[i].url then 0 else RefCount(list, u) {
      RemovedCount(list, i, u);
    }
  }

  /** The cells of an array after the elements of a slice behind position i moved down by one:
      the last cell of the slice keeps its old value. */
  function Cut<T>(cells: seq<T>, i: nat, length: nat): (r: seq<T>)
    requires i < length <= |cells|
    ensures |r| == |cells|
    ensures r[..length - 1] == cells[..i] + cells[i + 1..length] && r[length - 1..] == cells[length - 1..]
  {
    seq(|cells|, j requires 0 <= j < |cells| => if i <= j < length - 1 then cells[j + 1] else cells[j])
  }

  /** `append(a[:i], a[i+1:]...)` on a slice of the given length: the later elements move down
      in the backing array, whose last element of the slice keeps its old value. */
  method CutInPlace<T>(a: array<T>, i: nat, length: nat)
    requires i < length <= a.Length
    modifies a
    ensures a[..] == Cut(old(a[..]), i, length)
  {
    var k := i;
    while k + 1 < length
      invariant i <= k < length
      invariant forall j :: 0 <= j < a.Length ==> a[j] == if i <= j < k then old(a[j + 1]) else old(a[j])
    {
      a[k] := a[k + 1];
      k := k + 1;
    }
  }

  /** `removeSCNUrl`: the loop ranges over the slice as it was at the start, while entries are
      cut out of its backing array. */
  method RemoveScnUrl(urlList: seq<ScnUrl>, urlIn: string) returns (r: seq<ScnUrl>)
    requires UrlsOk(urlList)
    ensures UrlsOk(r)
    ensures forall u :: RefCount(r, u) ==
              if u == urlIn && RefCount(urlList, u) > 0 then RefCount(urlList, u) - 1 else RefCount(urlList, u)
  {
    hide RefCount, UrlsOk;
    var n := |urlList|;
    var a := new ScnUrl[n](i requires 0 <= i < n => urlList[i]);
    var length := n;
    ghost var at := n;   // where the URL was found
    assert a[..] == urlList;
    for i := 0 to n
      invariant 0 <= length <= n && 0 <= at <= n
      invariant at == n ==> length == n && a[..] == urlList && forall j :: 0 <= j < i ==> urlList[j].url != urlIn
      invariant at < n ==> at < i && urlList[at].url == urlIn
      invariant at < n && urlList[at].refCount <= 1 ==> length == n - 1 && a[..] == Cut(urlList, at, n)
      invariant at < n && urlList[at].refCount > 1 ==>
                  length == n && a[..] == urlList[at := ScnUrl(urlIn, urlList[at].refCount - 1)]
    {
      var url := a[i];
      assert url == a[..][i];
      if at < n {
        OthersDiffer(urlList, at);
        assert url == if urlList[at].refCount <= 1 && i < n - 1 then urlList[i + 1] else urlList[i];
      }
      if url.url == urlIn {
        at := i;
        if url.refCount <= 1 {
          CutInPlace(a, i, length);
          length := length - 1;
        } else {
          a[i] := ScnUrl(url.url, url.refCount - 1);
        }
      }
    }
    r := a[..length];
    assert r == a[..][..length];
    assert a[..][..n] == a[..];
    if at == n {
      RefCountNone(urlList, urlIn);
    } else {
      FoundOutcome(urlList, at, r);
    }
  }

  lemma FoundOutcome(list: seq<ScnUrl>, at: nat, r: seq<ScnUrl>)
    requires UrlsOk(list) && at < |list|
    requires list[at].refCount <= 1 ==> r == Cut(list, at, |list|)[..|list| - 1]
    requires list[at].refCount > 1 ==> r == list[at := ScnUrl(list[at].url, list[at].refCount - 1)]
    ensures UrlsOk(r) && RefCount(list, list[at].url) > 0
    ensures forall u :: RefCount(r, u) == if u == list[at].url then RefCount(list, u) - 1 else RefCount(list, u)
  {
    hide RefCount, UrlsOk;
    RefCountAt(list, at);
    if list[at].refCount <= 1 {
      assert list[at + 1..|list|] == list[at + 1..];
      RemovedCounts(list, at);
    } else {
      UpdatedCounts(list, at, list[at].refCount - 1);
    }
  }

  lemma OthersDiffer(list: seq<ScnUrl>, at: nat)
    requires UrlsOk(list) && at < |list|
    ensures forall j :: 0 <= j < |list| && j != at ==> list[j].url != list[at].url
  {
  }

  // ---- The index ----

  datatype Kind = Enabled | Role | SubRole | SwStatus | State

  /** For each kind of trigger, a map that is nil until first used. */
  type Index = map<Kind, map<string, seq<ScnUrl>>>

  function Entry(m: Index, k: Kind, v: string): seq<ScnUrl> {
    if k in m && v in m[k] then m[k][v] else []
  }

  function Refs(m: Index, k: Kind, v: string, u: string): int {
    RefCount(Entry(m, k, v), u)
  }

  ghost predicate EntriesOk(m: Index) {
    forall k, v :: UrlsOk(Entry(m, k, v))
  }

  function Lowers(values: seq<string>): multiset<string> {
    if values == [] then multiset{}
    else Lowers(values[..|values| - 1]) + multiset{ToLower(values[|values| - 1])}
  }

  function SetEntry(m: Index, k: Kind, v: string, list: seq<ScnUrl>): Index {
    if k in m then m[k := m[k][v := list]] else m[k := map[v := list]]
  }

  lemma SetEntryReads(m: Index, k: Kind, v: string, list: seq<ScnUrl>)
    ensures forall k', v' :: Entry(SetEntry(m, k, v, list), k', v') == if k' == k && v' == v then list else Entry(m, k', v')
  {
  }

  lemma LowersSnoc(values: seq<string>, i: nat)
    requires i < |values|
    ensures Lowers(values[..i + 1]) == Lowers(values[..i]) + multiset{ToLower(values[i])}
  {
    assert values[..i + 1][..i] == values[..i];
  }

  lemma {:induction false} LowersPrefix(values: seq<string>, i: nat)
    requires i <= |values|
    ensures Lowers(values[..i]) <= Lowers(values)
    decreases |values| - i
  {
    if i < |values| {
      LowersPrefix(values, i + 1);
      LowersSnoc(values, i);
    } else {
      assert values[..i] == values;
    }
  }

  /** Enters a URL under each of the values of one kind of trigger. */
  method AddTriggers(m: Index, k: Kind, values: seq<string>, url: string) returns (r: Index)
    requires EntriesOk(m)
    ensures EntriesOk(r)
    ensures forall k', v, u :: Refs(r, k', v, u) == Refs(m, k', v, u) + if k' == k && u == url then Lowers(values)[v] else 0
  {
    hide UrlsOk, SetEntry, Lowers, ToLower;
    r := m;
    assert values[..0] == [];
    LowersNothing();
    for i := 0 to |values|
      invariant EntriesOk(r)
      invariant forall k', v, u :: Refs(r, k', v, u) ==
                  Refs(m, k', v, u) + if k' == k && u == url then Lowers(values[..i])[v] else 0
    {
      var value := ToLower(values[i]);
      var list := if k in r && value in r[k] then r[k][value] else [];
      assert list == Entry(r, k, value);
      list := AddScnUrl(list, url);
      SetEntryReads(r, k, value, list);
      LowersSnoc(values, i);
      r := SetEntry(r, k, value, list);
    }
    assert values[..|values|] == values;
  }

  lemma LowersNothing()
    ensures Lowers([]) == multiset{}
  {
  }

  /** Takes a URL out again. Each value must be entered, or the map to write to may be nil. */
  method RemoveTriggers(m: Index, k: Kind, values: seq<string>, url: string) returns (r: Index)
    requires EntriesOk(m)
    requires forall v :: Refs(m, k, v, url) >= Lowers(values)[v]
    ensures EntriesOk(r)
    ensures forall k', v, u :: Refs(r, k', v, u) == Refs(m, k', v, u) - if k' == k && u == url then Lowers(values)[v] else 0
  {
    hide UrlsOk, SetEntry, Lowers, ToLower;
    r := m;
    assert values[..0] == [];
    LowersNothing();
    for i := 0 to |values|
      invariant EntriesOk(r)
      invariant forall k', v, u :: Refs(r, k', v, u) ==
                  Refs(m, k', v, u) - if k' == k && u == url then Lowers(values[..i])[v] else 0
    {
      var value := ToLower(values[i]);
      LowersSnoc(values, i);
      LowersPrefix(values, i + 1);
      assert Refs(m, k, value, url) >= Lowers(values)[value] >= Lowers(values[..i + 1])[value] == Lowers(values[..i])[value] + 1;
      assert Refs(r, k, value, url) > 0;
      EntryExists(r, k, value, url);
      var list := RemoveScnUrl(r[k][value], url);
      SetEntryReads(r, k, value, list);
      r := SetEntry(r, k, value, list);
    }
    assert values[..|values|] == values;
  }

  lemma EntryExists(m: Index, k: Kind, v: string, u: string)
    requires Refs(m, k, v, u) > 0
    ensures k in m && v in m[k]
  {
  }
}
