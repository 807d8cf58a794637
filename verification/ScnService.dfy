/** The cached list of subscriptions for state change notifications and the index of their URLs,
    under every operation on subscriptions. Results of the database are parameters. */
module ScnService {
  import opened Wrappers
  import opened Strings
  import opened ScnIndex
  import opened Subscriptions

  function FirstWithId(subs: seq<Sub>, id: int): (r: Option<nat>)
    ensures r.Some? ==> r.value < |subs| && subs[r.value].id == id
  {
    if subs == [] then None
    else if subs[0].id == id then Some(0)
    else match FirstWithId(subs[1..], id) case None => None case Some(i) => Some(i + 1)
  }

  lemma {:induction false} FirstWithIdAt(subs: seq<Sub>, i: nat, id: int)
    requires i <= |subs| && (forall j :: 0 <= j < i ==> subs[j].id != id) && (i < |subs| ==> subs[i].id == id)
    ensures FirstWithId(subs, id) == if i < |subs| then Some(i) else None
  {
    if i > 0 {
      FirstWithIdAt(subs[1..], i - 1, id);
    }
  }

  /** The two subscriptions enter the same URL under the same triggers, states apart. */
  ghost predicate SameButStates(a: Sub, b: Sub) {
    a.url == b.url && forall k :: k != State ==> Lowers(Values(a, k)) == Lowers(Values(b, k))
  }

  predicate Repeats(patch: Patch) {
    !(Distinct(patch.roles) && Distinct(patch.subRoles) && Distinct(patch.swStatus) && Distinct(patch.states))
  }

  /** The trigger an SCN is sent for: the first one its data has. */
  datatype ScnData = ScnData(state: string, role: string, subRole: string, swStatus: string, enabled: Option<bool>)

  function Trigger(d: ScnData): Option<(Kind, string)> {
    if d.state != "" then Some((State, ToLower(d.state)))
    else if d.role != "" then Some((Role, ToLower(d.role)))
    else if d.subRole != "" then Some((SubRole, ToLower(d.subRole)))
    else if d.swStatus != "" then Some((SwStatus, ToLower(d.swStatus)))
    else if d.enabled.Some? then Some((Enabled, "enabled"))
    else None
  }

  // ---- How the index follows the list ----

  /** After one entry of the list has changed, an index is right exactly if it differs from
      the old one by what the entry gave and gives. */
  lemma IndexFollows(m: Index, r: Index, subs: seq<Sub>, i: nat, s: Sub)
    requires IndexOf(m, subs) && EntriesOk(r) && i < |subs|
    ensures IndexOf(r, subs[i := s]) <==>
            forall k, v, u :: Refs(r, k, v, u) == Refs(m, k, v, u) - Gives(subs[i], k, v, u) + Gives(s, k, v, u)
  {
    hide Refs, Gives, EntriesOk;
    forall k, v, u
      ensures Total(subs[i := s], k, v, u) == Refs(m, k, v, u) - Gives(subs[i], k, v, u) + Gives(s, k, v, u)
    {
      TotalWithout(subs, i, s, k, v, u);
    }
  }

  /** A listed subscription is in the index, so taking it out meets no missing entry. */
  lemma ListedIsIndexed(m: Index, subs: seq<Sub>, i: nat)
    requires IndexOf(m, subs) && i < |subs|
    ensures forall k, v, u :: Refs(m, k, v, u) >= Gives(subs[i], k, v, u)
  {
    hide Refs, Gives, EntriesOk;
    forall k, v, u ensures Refs(m, k, v, u) >= Gives(subs[i], k, v, u) {
      TotalWithout(subs, i, subs[i], k, v, u);
    }
  }

  lemma IndexAppend(m: Index, r: Index, subs: seq<Sub>, s: Sub)
    requires IndexOf(m, subs) && EntriesOk(r)
    requires forall k, v, u :: Refs(r, k, v, u) == Refs(m, k, v, u) + Gives(s, k, v, u)
    ensures IndexOf(r, subs + [s])
  {
    hide Refs, Gives, EntriesOk;
    forall k, v, u ensures Refs(r, k, v, u) == Total(subs + [s], k, v, u) {
      TotalSnoc(subs, s, k, v, u);
    }
  }

  lemma IndexRemove(m: Index, r: Index, subs: seq<Sub>, i: nat)
    requires IndexOf(m, subs) && EntriesOk(r) && i < |subs|
    requires forall k, v, u :: Refs(r, k, v, u) == Refs(m, k, v, u) - Gives(subs[i], k, v, u)
    ensures IndexOf(r, subs[..i] + subs[i + 1..])
  {
    hide Refs, Gives, EntriesOk;
    forall k, v, u ensures Refs(r, k, v, u) == Total(subs[..i] + subs[i + 1..], k, v, u) {
      TotalWithout(subs, i, subs[i], k, v, u);
    }
  }

  lemma {:induction false} TotalPositive(subs: seq<Sub>, k: Kind, v: string, u: string)
    ensures Total(subs, k, v, u) >= 0
    ensures Total(subs, k, v, u) > 0 <==> exists s :: s in subs && s.url == u && v in Lowers(Values(s, k))
  {
    if subs != [] {
      var n := |subs| - 1;
      assert subs == subs[..n] + [subs[n]];
      TotalPositive(subs[..n], k, v, u);
    }
  }

  /** A subscription with a trigger gives something to its own URL. */
  lemma TriggerGives(s: Sub)
    requires HasTrigger(s)
    ensures exists k, v :: Gives(s, k, v, s.url) > 0
  {
    var k :| Values(s, k) != [];
    var n := |Values(s, k)| - 1;
    assert ToLower(Values(s, k)[n]) in Lowers(Values(s, k));
    assert Gives(s, k, ToLower(Values(s, k)[n]), s.url) > 0;
  }

  class ScnService {
    var subs: seq<Sub>
    var subMap: Index

    /** Every URL once under each trigger, counted once per matching value of the list. */
    ghost predicate Valid()
      reads this
    {
      IndexOf(subMap, subs)
    }

    constructor ()
      ensures Valid() && subs == []
    {
      subs, subMap := [], map[];
    }

    method Find(id: int) returns (i: Option<nat>)
      ensures i == FirstWithId(subs, id)
    {
      for j := 0 to |subs|
        invariant forall k :: 0 <= k < j ==> subs[k].id != id
      {
        if subs[j].id == id {
          FirstWithIdAt(subs, j, id);
          return Some(j);
        }
      }
      FirstWithIdAt(subs, |subs|, id);
      return None;
    }

    /** `inserted` is the id the database gave the posted subscription. */
    method Post(posted: Sub, inserted: Option<int>)
      requires Valid() && HasTrigger(posted)
      modifies this
      ensures inserted.None? ==> Valid() && subs == old(subs) && subMap == old(subMap)
      ensures inserted.Some? ==> var added := posted.(id := inserted.value);
                match FirstWithId(old(subs), added.id)
                case None => subs == old(subs) + [added] && Valid()
                case Some(i) =>
                  var was := old(subs)[i];
                  && subs == old(subs)[i := added.(url := was.url, subscriber := was.subscriber)]
                  && (Valid() <==> posted.url == was.url)
    {
      if inserted.None? {
        return;
      }
      hide IndexOf, EntriesOk, Refs, Gives;
      var newSub := posted.(id := inserted.value);
      var i := Find(newSub.id);
      if i.None? {
        assert EntriesOk(subMap) by { IndexEntries(subMap, subs); }
        var r := AddSubscription(subMap, newSub);
        IndexAppend(subMap, r, subs, newSub);
        subMap := r;
        subs := subs + [newSub];
      } else {
        var was := subs[i.value];
        var r := this.Reindex(i.value, newSub);
        var entry := was.(states := newSub.states, enabled := newSub.enabled, roles := newSub.roles,
                          subRoles := newSub.subRoles, swStatus := newSub.swStatus);
        IndexFollows(subMap, r, subs, i.value, entry);
        SameTriggers(posted, newSub);
        UrlDecides(newSub, entry);
        subMap := r;
        subs := subs[i.value := entry];
      }
    }

    /** The index with a listed subscription taken out and another entered. */
    method Reindex(i: nat, s: Sub) returns (r: Index)
      requires Valid() && i < |subs|
      ensures EntriesOk(r)
      ensures forall k, v, u :: Refs(r, k, v, u) == Refs(subMap, k, v, u) - Gives(subs[i], k, v, u) + Gives(s, k, v, u)
    {
      hide IndexOf, EntriesOk, Refs, Gives;
      IndexEntries(subMap, subs);
      ListedIsIndexed(subMap, subs, i);
      r := RemoveSubscription(subMap, subs[i]);
      r := AddSubscription(r, s);
    }

    /** `updated` is whether the database had the subscription, or none if it failed. Of the
        listed entry, only the states are replaced. */
    method Put(id: int, sub: Sub, updated: Option<bool>)
      requires Valid() && HasTrigger(sub)
      modifies this
      ensures updated != Some(true) || FirstWithId(old(subs), id).None? ==>
                Valid() && subs == old(subs) && subMap == old(subMap)
      ensures updated == Some(true) && FirstWithId(old(subs), id).Some? ==>
                var i := FirstWithId(old(subs), id).value; var was := old(subs)[i];
                && subs == old(subs)[i := was.(states := sub.states)]
                && (Valid() <==> SameButStates(was, sub))
    {
      if updated != Some(true) {
        return;
      }
      var newSub := sub.(id := id);
      var i := Find(id);
      if i.Some? {
        SameTriggers(sub, newSub);
        assert SameButStates(subs[i.value], newSub) <==> SameButStates(subs[i.value], sub) by {
          assert forall k :: Values(newSub, k) == Values(sub, k);
        }
        hide IndexOf, EntriesOk, Refs, Gives, SameButStates, HasTrigger, FirstWithId;
        var was := subs[i.value];
        var r := this.Reindex(i.value, newSub);
        var entry := was.(states := newSub.states);
        IndexFollows(subMap, r, subs, i.value, entry);
        StatesDecide(was, newSub);
        subMap := r;
        subs := subs[i.value := entry];
      }
    }

    method PatchAdd(id: int, patch: Patch, patched: Option<bool>)
      requires Valid()
      modifies this
      ensures Valid()
      ensures patched != Some(true) || FirstWithId(old(subs), id).None? ==> subs == old(subs) && subMap == old(subMap)
      ensures patched == Some(true) && FirstWithId(old(subs), id).Some? ==>
                var i := FirstWithId(old(subs), id).value; subs == old(subs)[i := Extended(old(subs)[i], patch)]
    {
      if patched != Some(true) {
        return;
      }
      var i := Find(id);
      if i.Some? {
        var sub := subs[i.value];
        var states := FindNew(sub.states, patch.states);
        var roles := FindNew(sub.roles, patch.roles);
        var subRoles := FindNew(sub.subRoles, patch.subRoles);
        var swStatus := FindNew(sub.swStatus, patch.swStatus);
        var switchOn := patch.enabled == Some(true) && sub.enabled == Some(false);
        var newSub := Sub(id, sub.subscriber, if switchOn then Some(true) else None, roles, subRoles, swStatus, states, sub.url);
        var entry := sub.(states := sub.states + states, roles := sub.roles + roles, subRoles := sub.subRoles + subRoles,
                          swStatus := sub.swStatus + swStatus, enabled := if switchOn then Some(true) else sub.enabled);
        hide IndexOf, EntriesOk, Refs, Gives;
        IndexEntries(subMap, subs);
        var r := AddSubscription(subMap, newSub);
        ExtendedGives(sub, newSub, entry);
        IndexFollows(subMap, r, subs, i.value, entry);
        subMap := r;
        subs := subs[i.value := entry];
      }
    }

    /** Fails when a removal goes out of range, which it does not unless the patch repeats a
        value; what it has changed by then is not described. */
    method PatchRemove(id: int, patch: Patch, patched: Option<bool>) returns (ok: bool)
      requires Valid()
      modifies this
      ensures ok ==> Valid()
      ensures !Repeats(patch) ==> ok
      ensures patched != Some(true) || FirstWithId(old(subs), id).None? ==> ok && subs == old(subs) && subMap == old(subMap)
      ensures ok && patched == Some(true) && FirstWithId(old(subs), id).Some? ==>
                var i := FirstWithId(old(subs), id).value;
                |subs| == |old(subs)| && subs == old(subs)[i := subs[i]] && Reduced(old(subs)[i], patch, subs[i])
    {
      if patched != Some(true) {
        return true;
      }
      var i := Find(id);
      if i.None? {
        return true;
      }
      var sub := subs[i.value];
      SafeUnlessRepeated(sub, patch);
      var states := RemoveValues(sub.states, patch.states);
      var roles := RemoveValues(sub.roles, patch.roles);
      var subRoles := RemoveValues(sub.subRoles, patch.subRoles);
      var swStatus := RemoveValues(sub.swStatus, patch.swStatus);
      if states.None? || roles.None? || subRoles.None? || swStatus.None? {
        return false;
      }
      var switchOff := patch.enabled == Some(true) && sub.enabled == Some(true);
      var newSub := Sub(id, sub.subscriber, if switchOff then Some(true) else None, roles.value.1, subRoles.value.1,
                        swStatus.value.1, states.value.1, sub.url);
      var entry := sub.(states := states.value.0, roles := roles.value.0, subRoles := subRoles.value.0,
                        swStatus := swStatus.value.0, enabled := if switchOff then Some(false) else sub.enabled);
      hide IndexOf, EntriesOk, Refs, Gives;
      IndexEntries(subMap, subs);
      ListedIsIndexed(subMap, subs, i.value);
      ReducedGives(sub, patch, newSub, entry);
      var r := RemoveSubscription(subMap, newSub);
      IndexFollows(subMap, r, subs, i.value, entry);
      subMap := r;
      subs := subs[i.value := entry];
      return true;
    }

    method PatchReplace(id: int, patch: Patch, patched: Option<bool>)
      requires Valid()
      modifies this
      ensures Valid()
      ensures patched != Some(true) || FirstWithId(old(subs), id).None? ==> subs == old(subs) && subMap == old(subMap)
      ensures patched == Some(true) && FirstWithId(old(subs), id).Some? ==>
                var i := FirstWithId(old(subs), id).value; subs == old(subs)[i := Replaced(old(subs)[i], patch)]
    {
      if patched != Some(true) {
        return;
      }
      var i := Find(id);
      if i.Some? {
        var entry := subs[i.value];
        if |patch.states| > 0 {
          entry := entry.(states := patch.states);
        }
        if |patch.roles| > 0 {
          entry := entry.(roles := patch.roles);
        }
        if |patch.subRoles| > 0 {
          entry := entry.(subRoles := patch.subRoles);
        }
        if |patch.swStatus| > 0 {
          entry := entry.(swStatus := patch.swStatus);
        }
        if patch.enabled.Some? {
          entry := entry.(enabled := patch.enabled);
        }
        hide IndexOf, EntriesOk, Refs, Gives;
        var r := this.Reindex(i.value, entry);
        IndexFollows(subMap, r, subs, i.value, entry);
        subMap := r;
        subs := subs[i.value := entry];
      }
    }

    method Delete(id: int, deleted: Option<bool>)
      requires Valid()
      modifies this
      ensures Valid()
      ensures deleted != Some(true) || FirstWithId(old(subs), id).None? ==> subs == old(subs) && subMap == old(subMap)
      ensures deleted == Some(true) && FirstWithId(old(subs), id).Some? ==>
                var i := FirstWithId(old(subs), id).value; subs == old(subs)[..i] + old(subs)[i + 1..]
    {
      if deleted != Some(true) {
        return;
      }
      var i := Find(id);
      if i.Some? {
        hide IndexOf, EntriesOk, Refs, Gives;
        IndexEntries(subMap, subs);
        ListedIsIndexed(subMap, subs, i.value);
        var r := RemoveSubscription(subMap, subs[i.value]);
        IndexRemove(subMap, r, subs, i.value);
        subMap := r;
        subs := subs[..i.value] + subs[i.value + 1..];
      }
    }

    method DeleteAll(deleted: bool)
      requires Valid()
      modifies this
      ensures Valid()
      ensures subs == if deleted then [] else old(subs)
    {
      if deleted {
        subs, subMap := [], map[];
      }
    }

    /** The index is built anew from the rows of the database, whatever it was. */
    method Refresh(rows: Option<seq<Sub>>)
      modifies this
      ensures rows.Some? ==> Valid() && subs == rows.value
      ensures rows.None? ==> subs == old(subs) && subMap == old(subMap)
    {
      if rows.None? {
        return;
      }
      var newMap: Index := map[];
      for i := 0 to |rows.value|
        invariant IndexOf(newMap, rows.value[..i])
        invariant subs == old(subs) && subMap == old(subMap)
      {
        IndexEntries(newMap, rows.value[..i]);
        var r := AddSubscription(newMap, rows.value[i]);
        IndexAppend(newMap, r, rows.value[..i], rows.value[i]);
        assert rows.value[..i + 1] == rows.value[..i] + [rows.value[i]];
        newMap := r;
      }
      assert rows.value[..|rows.value|] == rows.value;
      subs, subMap := rows.value, newMap;
    }

    /** An SCN goes once to each URL with a subscription for its trigger. */
    method ScnUrls(data: ScnData) returns (urls: seq<string>)
      requires Valid()
      ensures forall i, j :: 0 <= i < j < |urls| ==> urls[i] != urls[j]
      ensures Trigger(data).None? ==> urls == []
      ensures Trigger(data).Some? ==> forall u :: u in urls <==>
                exists s :: s in subs && s.url == u && Trigger(data).value.1 in Lowers(Values(s, Trigger(data).value.0))
    {
      var trigger, kind;
      if |data.state| != 0 {
        trigger, kind := ToLower(data.state), State;
      } else if |data.role| != 0 {
        trigger, kind := ToLower(data.role), Role;
      } else if |data.subRole| != 0 {
        trigger, kind := ToLower(data.subRole), SubRole;
      } else if |data.swStatus| != 0 {
        trigger, kind := ToLower(data.swStatus), SwStatus;
      } else if data.enabled.Some? {
        trigger, kind := "enabled", Enabled;
      } else {
        return [];
      }
      assert Trigger(data) == Some((kind, trigger));
      ghost var entry := Entry(subMap, kind, trigger);
      urls := [];
      if kind in subMap && trigger in subMap[kind] {
        for i := 0 to |subMap[kind][trigger]|
          invariant |urls| == i && forall j :: 0 <= j < i ==> urls[j] == entry[j].url
        {
          urls := urls + [subMap[kind][trigger][i].url];
        }
      }
      assert UrlsOk(entry);
      forall u ensures u in urls <==> exists s :: s in subs && s.url == u && trigger in Lowers(Values(s, kind)) {
        assert Refs(subMap, kind, trigger, u) == Total(subs, kind, trigger, u);
        RefCountCases(entry, u);
        TotalPositive(subs, kind, trigger, u);
      }
    }
  }

  // ---- What the operations do to an entry ----

  function Extended(s: Sub, patch: Patch): Sub {
    s.(states := s.states + NewOnes(s.states, patch.states), roles := s.roles + NewOnes(s.roles, patch.roles),
       subRoles := s.subRoles + NewOnes(s.subRoles, patch.subRoles),
       swStatus := s.swStatus + NewOnes(s.swStatus, patch.swStatus),
       enabled := if patch.enabled == Some(true) && s.enabled == Some(false) then Some(true) else s.enabled)
  }

  /** One list of a subscription after a remove patch. */
  ghost predicate ListReduced(was: seq<string>, patch: seq<string>, now: seq<string>) {
    var r := RemoveEach(was, |was|, patch, []);
    r.Some? && now == r.value.0
  }

  ghost predicate Reduced(was: Sub, patch: Patch, now: Sub) {
    && ListReduced(was.states, patch.states, now.states) && ListReduced(was.roles, patch.roles, now.roles)
    && ListReduced(was.subRoles, patch.subRoles, now.subRoles) && ListReduced(was.swStatus, patch.swStatus, now.swStatus)
    && now.enabled == (if patch.enabled == Some(true) && was.enabled == Some(true) then Some(false) else was.enabled)
    && now.id == was.id && now.subscriber == was.subscriber && now.url == was.url
  }

  function Replaced(s: Sub, patch: Patch): Sub {
    s.(states := if patch.states != [] then patch.states else s.states,
       roles := if patch.roles != [] then patch.roles else s.roles,
       subRoles := if patch.subRoles != [] then patch.subRoles else s.subRoles,
       swStatus := if patch.swStatus != [] then patch.swStatus else s.swStatus,
       enabled := if patch.enabled.Some? then patch.enabled else s.enabled)
  }

  lemma IndexEntries(m: Index, subs: seq<Sub>)
    requires IndexOf(m, subs)
    ensures EntriesOk(m)
  {
  }

  lemma SameTriggers(a: Sub, b: Sub)
    requires HasTrigger(a) && b == a.(id := b.id)
    ensures HasTrigger(b)
  {
    var k :| Values(a, k) != [];
    assert Values(b, k) == Values(a, k);
  }

  /** Two entries with the same triggers and different URLs give differently. */
  lemma UrlDecides(a: Sub, b: Sub)
    requires HasTrigger(a) && forall k :: Values(a, k) == Values(b, k)
    ensures (forall k, v, u :: Gives(a, k, v, u) == Gives(b, k, v, u)) <==> a.url == b.url
  {
    hide Values, Lowers;
    TriggerGives(a);
    if forall k, v, u :: Gives(a, k, v, u) == Gives(b, k, v, u) {
      var k, v :| Gives(a, k, v, a.url) > 0;
      assert Gives(b, k, v, a.url) > 0;
    }
  }

  lemma StatesDecide(was: Sub, sub: Sub)
    requires HasTrigger(sub)
    ensures (forall k, v, u :: Gives(sub, k, v, u) == Gives(was.(states := sub.states), k, v, u)) <==> SameButStates(was, sub)
  {
    var entry := was.(states := sub.states);
    TriggerGives(sub);
    assert forall k :: k != State ==> Values(entry, k) == Values(was, k);
    assert Values(entry, State) == Values(sub, State);
    hide Values, Lowers;
    if forall k, v, u :: Gives(sub, k, v, u) == Gives(entry, k, v, u) {
      var k, v :| Gives(sub, k, v, sub.url) > 0;
      assert Gives(entry, k, v, sub.url) > 0;
      forall k | k != State ensures Lowers(Values(was, k)) == Lowers(Values(sub, k)) {
        forall v ensures Lowers(Values(was, k))[v] == Lowers(Values(sub, k))[v] {
          assert Gives(sub, k, v, sub.url) == Gives(entry, k, v, sub.url);
        }
      }
    }
  }

  lemma ExtendedGives(was: Sub, added: Sub, now: Sub)
    requires was.url == added.url == now.url
    requires now.states == was.states + added.states && now.roles == was.roles + added.roles
    requires now.subRoles == was.subRoles + added.subRoles && now.swStatus == was.swStatus + added.swStatus
    requires if added.enabled == Some(true) then now.enabled == Some(true) && was.enabled == Some(false)
             else now.enabled == was.enabled
    ensures forall k, v, u :: Gives(now, k, v, u) == Gives(was, k, v, u) + Gives(added, k, v, u)
  {
    LowersAppend(was.states, added.states);
    LowersAppend(was.roles, added.roles);
    LowersAppend(was.subRoles, added.subRoles);
    LowersAppend(was.swStatus, added.swStatus);
    LowersNothing();
    hide Lowers;
    forall k ensures Lowers(Values(now, k)) == Lowers(Values(was, k)) + Lowers(Values(added, k)) {
      match k case Enabled => case Role => case SubRole => case SwStatus => case State =>
    }
    hide Values;
  }

  lemma SafeUnlessRepeated(s: Sub, patch: Patch)
    ensures !Repeats(patch) ==>
              && RemoveEach(s.states, |s.states|, patch.states, []).Some?
              && RemoveEach(s.roles, |s.roles|, patch.roles, []).Some?
              && RemoveEach(s.subRoles, |s.subRoles|, patch.subRoles, []).Some?
              && RemoveEach(s.swStatus, |s.swStatus|, patch.swStatus, []).Some?
  {
    RemoveIsSafe(patch.states);
    RemoveIsSafe(patch.roles);
    RemoveIsSafe(patch.subRoles);
    RemoveIsSafe(patch.swStatus);
  }

  lemma ReducedList(was: seq<string>, patch: seq<string>)
    ensures var r := RemoveEach(was, |was|, patch, []);
            r.Some? ==> Lowers(was) == Lowers(r.value.0) + Lowers(r.value.1)
  {
    RemoveEachConserves(was, |was|, patch, []);
    LowersNothing();
    assert was[..|was|] == was;
  }

  /** What a remove patch takes out of the index is what the entry no longer gives. */
  lemma ReducedGives(was: Sub, patch: Patch, gone: Sub, now: Sub)
    requires was.url == gone.url == now.url
    requires RemoveEach(was.states, |was.states|, patch.states, []) == Some((now.states, gone.states))
    requires RemoveEach(was.roles, |was.roles|, patch.roles, []) == Some((now.roles, gone.roles))
    requires RemoveEach(was.subRoles, |was.subRoles|, patch.subRoles, []) == Some((now.subRoles, gone.subRoles))
    requires RemoveEach(was.swStatus, |was.swStatus|, patch.swStatus, []) == Some((now.swStatus, gone.swStatus))
    requires if gone.enabled == Some(true) then was.enabled == Some(true) && now.enabled == Some(false)
             else now.enabled == was.enabled
    ensures forall k, v, u :: Gives(was, k, v, u) == Gives(now, k, v, u) + Gives(gone, k, v, u)
    ensures forall k, v, u :: 0 <= Gives(gone, k, v, u) <= Gives(was, k, v, u)
  {
    ReducedList(was.states, patch.states);
    ReducedList(was.roles, patch.roles);
    ReducedList(was.subRoles, patch.subRoles);
    ReducedList(was.swStatus, patch.swStatus);
    LowersNothing();
    hide Lowers, RemoveEach;
    forall k ensures Lowers(Values(was, k)) == Lowers(Values(now, k)) + Lowers(Values(gone, k)) {
      match k case Enabled => case Role => case SubRole => case SwStatus => case State =>
    }
    hide Values;
  }
}
