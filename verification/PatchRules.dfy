/** What a patch makes of a subscription, list by list and value by value. */
module PatchRules {
  import opened Wrappers
  import opened Strings
  import opened ScnIndex
  import opened Subscriptions
  import opened ScnService

  /** The values a patch has for one kind of trigger. */
  function PatchValues(p: Patch, k: Kind): seq<string> {
    match k
    case Enabled => []
    case Role => p.roles
    case SubRole => p.subRoles
    case SwStatus => p.swStatus
    case State => p.states
  }

  // ---- Adding ----

  /** What is added to a list: the values of the patch that it does not have, as often as the patch
      has them. */
  lemma {:induction false} NewOnesMean(current: seq<string>, patch: seq<string>, v: string)
    ensures v in NewOnes(current, patch) <==> v in patch && v !in current
    ensures multiset(NewOnes(current, patch))[v] == if v in current then 0 else multiset(patch)[v]
  {
    if patch != [] {
      var n := |patch| - 1;
      assert patch == patch[..n] + [patch[n]];
      NewOnesMean(current, patch[..n], v);
    }
  }

  /** An add patch, for each kind of trigger: the list keeps what it had, in front; it then has just
      the values it had and those of the patch, and none it had is added again. */
  lemma AddPatchMeans(s: Sub, p: Patch, k: Kind, v: string)
    requires k != Enabled
    ensures var was, now := Values(s, k), Values(Extended(s, p), k);
            && was <= now && (v in now <==> v in was || v in PatchValues(p, k))
            && multiset(now)[v] == if v in was then multiset(was)[v] else multiset(PatchValues(p, k))[v]
  {
    NewOnesMean(s.states, p.states, v);
    NewOnesMean(s.roles, p.roles, v);
    NewOnesMean(s.subRoles, p.subRoles, v);
    NewOnesMean(s.swStatus, p.swStatus, v);
  }

  /** And it can only switch the subscription on, if that was switched off. */
  lemma AddPatchEnables(s: Sub, p: Patch)
    ensures var now := Extended(s, p);
            && (now.enabled == Some(true) <==> s.enabled == Some(true) || (s.enabled == Some(false) && p.enabled == Some(true)))
            && (now.enabled != Some(true) ==> now.enabled == s.enabled)
            && now.id == s.id && now.subscriber == s.subscriber && now.url == s.url
  {
  }

  // ---- Removing ----

  lemma CutMeans(cells: seq<string>, j: nat, length: nat)
    requires j < length <= |cells|
    ensures |Cut(cells, j, length)| == |cells|
    ensures multiset(cells[..length]) == multiset(Cut(cells, j, length)[..length - 1]) + multiset{cells[j]}
  {
    assert cells[..length] == cells[..j] + [cells[j]] + cells[j + 1..length];
  }

  lemma DistinctRest(patch: seq<string>)
    requires patch != [] && Distinct(patch)
    ensures Distinct(patch[1..]) && patch[0] !in patch[1..]
    ensures forall v :: v in patch <==> v == patch[0] || v in patch[1..]
  {
    assert forall i :: 0 <= i < |patch| - 1 ==> patch[1..][i] == patch[i + 1];
    assert patch == [patch[0]] + patch[1..];
  }

  /** A removal that succeeds takes each value of a patch without repetitions out once, where the
      list had it. */
  lemma {:induction false} RemoveEachMeans(cells: seq<string>, length: nat, patch: seq<string>, removed: seq<string>,
                                           v: string)
    requires length <= |cells| && Distinct(patch) && RemoveEach(cells, length, patch, removed).Some?
    ensures var live, kept := cells[..length], RemoveEach(cells, length, patch, removed).value.0;
            multiset(kept)[v] == multiset(live)[v] - if v in patch && v in live then 1 else 0
    decreases |patch|
  {
    if patch != [] {
      DistinctRest(patch);
      hide Distinct, Cut;
      var p := patch[0];
      match FirstIndex(cells, p)
      case None =>
        RemoveEachMeans(cells, length, patch[1..], removed, v);
        assert p !in cells[..length];
      case Some(j) =>
        CutMeans(cells, j, length);
        RemoveEachMeans(Cut(cells, j, length), length - 1, patch[1..], removed + [p], v);
        KeptOrGone(cells[..length], Cut(cells, j, length)[..length - 1], p, v);
    }
  }

  lemma KeptOrGone(live: seq<string>, left: seq<string>, p: string, v: string)
    requires multiset(live) == multiset(left) + multiset{p}
    ensures p in live && (v != p ==> multiset(left)[v] == multiset(live)[v] && (v in left <==> v in live))
    ensures multiset(left)[p] == multiset(live)[p] - 1
  {
    assert p in multiset(live);
    assert v in left <==> multiset(left)[v] > 0;
    assert v in live <==> multiset(live)[v] > 0;
  }

  /** A remove patch without repetitions, for each kind of trigger: the list loses one of each value
      of the patch it had. */
  lemma RemovePatchMeans(was: Sub, p: Patch, now: Sub, k: Kind, v: string)
    requires Reduced(was, p, now) && !Repeats(p) && k != Enabled
    ensures multiset(Values(now, k))[v] ==
            multiset(Values(was, k))[v] - if v in PatchValues(p, k) && v in Values(was, k) then 1 else 0
  {
    hide RemoveEach, Distinct;
    ListReducedMeans(was.states, p.states, now.states, v);
    ListReducedMeans(was.roles, p.roles, now.roles, v);
    ListReducedMeans(was.subRoles, p.subRoles, now.subRoles, v);
    ListReducedMeans(was.swStatus, p.swStatus, now.swStatus, v);
  }

  lemma ListReducedMeans(was: seq<string>, p: seq<string>, now: seq<string>, v: string)
    requires ListReduced(was, p, now) && Distinct(p)
    ensures multiset(now)[v] == multiset(was)[v] - if v in p && v in was then 1 else 0
  {
    RemoveEachMeans(was, |was|, p, [], v);
    assert was[..|was|] == was;
  }

  /** It can only switch the subscription off, if that was switched on. */
  lemma RemovePatchDisables(was: Sub, p: Patch, now: Sub)
    requires Reduced(was, p, now)
    ensures now.enabled == Some(false) <==> was.enabled == Some(false) || (was.enabled == Some(true) && p.enabled == Some(true))
    ensures now.enabled != Some(false) ==> now.enabled == was.enabled
    ensures now.id == was.id && now.subscriber == was.subscriber && now.url == was.url
  {
    hide RemoveEach;
  }

  // ---- Replacing ----

  /** A replace patch takes the place of each list it has values for, and of the switch if it has
      one. */
  lemma ReplacePatchMeans(s: Sub, p: Patch, k: Kind)
    ensures var now := Replaced(s, p);
            && (k != Enabled && PatchValues(p, k) != [] ==> Values(now, k) == PatchValues(p, k))
            && (k != Enabled && PatchValues(p, k) == [] ==> Values(now, k) == Values(s, k))
            && (p.enabled.Some? ==> now.enabled == p.enabled) && (p.enabled.None? ==> now.enabled == s.enabled)
            && now.id == s.id && now.subscriber == s.subscriber && now.url == s.url
  {
  }

  // ---- Which subscription ----

  /** The subscription that an operation finds is the first one with the id. */
  lemma {:induction false} FirstWithIdMeans(subs: seq<Sub>, id: int)
    ensures match FirstWithId(subs, id)
            case None => forall i :: 0 <= i < |subs| ==> subs[i].id != id
            case Some(i) => i < |subs| && subs[i].id == id && forall j :: 0 <= j < i ==> subs[j].id != id
  {
    if subs != [] && subs[0].id != id {
      FirstWithIdMeans(subs[1..], id);
      assert forall i :: 0 < i < |subs| ==> subs[i] == subs[1..][i - 1];
    }
  }

  /** The trigger of a notification, by the fields its data has: the first of state, role, subrole,
      software status and switch. */
  lemma TriggerMeans(state: string, role: string, other: ScnData)
    requires state != "" && role != ""
    ensures Trigger(other.(state := state)) == Some((State, ToLower(state)))
    ensures Trigger(other.(state := "", role := role)) == Some((Role, ToLower(role)))
    ensures Trigger(other.(state := "", role := "", subRole := role)) == Some((SubRole, ToLower(role)))
    ensures Trigger(other.(state := "", role := "", subRole := "", swStatus := role)) == Some((SwStatus, ToLower(role)))
    ensures Trigger(ScnData("", "", "", "", other.enabled)) == if other.enabled.Some? then Some((Enabled, "enabled")) else None
  {
  }

  /** A switched-on subscription, and no other, is entered under the one trigger of the switch. */
  lemma EnabledValues(s: Sub)
    ensures Values(s, Enabled) == if s.enabled == Some(true) then ["enabled"] else []
  {
  }

  /** How often a subscription enters its URL under a trigger: once for each of its values that is
      the trigger in lower case. It enters no other URL. */
  lemma GivesMeans(s: Sub, k: Kind, v: string, u: string)
    ensures Gives(s, k, v, u) ==
            if s.url == u then |set i | 0 <= i < |Values(s, k)| && ToLower(Values(s, k)[i]) == v| else 0
  {
    LowersCount(Values(s, k), v);
  }

  lemma CountOneMore(values: seq<string>, v: string)
    requires values != []
    ensures var n := |values| - 1;
            |set i | 0 <= i < |values| && ToLower(values[i]) == v| ==
            |set i | 0 <= i < n && ToLower(values[..n][i]) == v| + if ToLower(values[n]) == v then 1 else 0
  {
    hide ToLower;
    var n := |values| - 1;
    var before := set i | 0 <= i < n && ToLower(values[..n][i]) == v;
    var all := set i | 0 <= i < |values| && ToLower(values[i]) == v;
    assert all == before + if ToLower(values[n]) == v then {n} else {};
  }

  lemma {:induction false} LowersCount(values: seq<string>, v: string)
    ensures Lowers(values)[v] == |set i | 0 <= i < |values| && ToLower(values[i]) == v|
  {
    hide ToLower;
    if values != [] {
      LowersCount(values[..|values| - 1], v);
      CountOneMore(values, v);
    }
  }
}
