/** What an update of states and flags accepts, and what it makes of each row. */
module StateRules {
  import opened Wrappers
  import opened Strings
  import opened StateUpdates
  import UpdateQuery

  // ---- Names ----

  /** A state is accepted under its name, in any capitalization, and under nothing else. */
  lemma StateIsNamed(text: string, s: HmsState)
    ensures VerifyNormalizeState(text) == Some(s) <==> ToLower(text) == ToLower(UpdateQuery.StateName(s))
  {
    assert ToLower("Unknown") == "unknown" && ToLower("Empty") == "empty" && ToLower("Populated") == "populated";
    assert ToLower("Off") == "off" && ToLower("On") == "on" && ToLower("Standby") == "standby";
    assert ToLower("Halt") == "halt" && ToLower("Ready") == "ready";
    hide ToLower;
  }

  /** So is a flag, and Warning also as "warn". */
  lemma FlagIsNamed(text: string, f: HmsFlag)
    ensures VerifyNormalizeFlag(text) == Some(f) <==>
            ToLower(text) == ToLower(UpdateQuery.FlagName(f)) || (f == Warning && ToLower(text) == "warn")
  {
    assert ToLower("Unknown") == "unknown" && ToLower("OK") == "ok" && ToLower("Warning") == "warning";
    assert ToLower("Alert") == "alert" && ToLower("Locked") == "locked";
    hide ToLower;
  }

  /** The flag stored is the one named, or OK. It is also the one compared, except that several ids
      with an invalid flag compare none. */
  lemma FlagsMean(ids: seq<string>, text: string)
    ensures StoredFlag(text) == if VerifyNormalizeFlag(text).Some? then VerifyNormalizeFlag(text).value else OK
    ensures ComparedFlag(ids, text) ==
            if |ids| != 1 && text != "" && VerifyNormalizeFlag(text).None? then None else Some(StoredFlag(text))
  {
    assert ToLower("") == "";
  }

  /** What names no state or flag is normalized to nothing, which a filter refuses; all else to the
      name of the same state or flag. */
  lemma ParsedMeans(text: string)
    ensures UpdateQuery.ParseState(text) == "" <==> VerifyNormalizeState(text).None?
    ensures UpdateQuery.ParseFlag(text) == "" <==> VerifyNormalizeFlag(text).None?
    ensures VerifyNormalizeState(text).Some? ==>
              VerifyNormalizeState(UpdateQuery.ParseState(text)) == VerifyNormalizeState(text)
    ensures VerifyNormalizeFlag(text).Some? ==>
              VerifyNormalizeFlag(UpdateQuery.ParseFlag(text)) == VerifyNormalizeFlag(text)
  {
    var s, f := VerifyNormalizeState(text), VerifyNormalizeFlag(text);
    if s.Some? {
      StateIsNamed(UpdateQuery.StateName(s.value), s.value);
    }
    if f.Some? {
      FlagIsNamed(UpdateQuery.FlagName(f.value), f.value);
    }
    hide VerifyNormalizeState, VerifyNormalizeFlag;
  }

  // ---- Updates ----

  /** The states that may follow a state without force. */
  function Successors(from: HmsState): set<HmsState> {
    match from
    case Off => {Off, On, Ready}
    case On => {Off, On, Ready}
    case Standby => {Off, On, Standby, Ready}
    case Halt => {Off, On, Halt, Ready}
    case Ready => {Off, Standby, Halt, Ready}
    case _ => {}
  }

  /** Ready with a warning may only follow Ready, even by force. */
  predicate Allowed(from: HmsState, to: HmsState, flag: HmsFlag, force: bool) {
    if to == Ready && flag == Warning then from == Ready else force || to in Successors(from)
  }

  /** A request is rejected if its state is none, or one that needs force and there is none. */
  lemma RejectedMeans(state: string, flag: HmsFlag, force: bool)
    ensures Rejected(state, flag, force) <==>
            var s := VerifyNormalizeState(state);
            s.None? || (!force && forall from: HmsState :: s.value !in Successors(from))
  {
    hide VerifyNormalizeState;
    var s := VerifyNormalizeState(state);
    if s.Some? && !s.value.Unknown? && !s.value.Empty? && !s.value.Populated? {
      assert s.value in Successors(s.value);
    }
  }

  /** An update puts just the rows of its ids that may change into the new state, and gives them its
      flag unless theirs is Locked. It reports those of them that had another state or flag. */
  lemma UpdateMeans(before: Rows, after: Rows, ids: seq<string>, state: HmsState, flag: string, force: bool,
                    affected: set<string>, id: string)
    requires UpdateDone(before, after, ids, state, flag, force, affected) && id in before
    ensures after.Keys == before.Keys && affected <= before.Keys
    ensures var row, row' := before[id], after[id];
            var meant := id in ids && Allowed(row.state, state, StoredFlag(flag), force);
            && row'.state == (if meant then state else row.state)
            && row'.flag == (if meant && row.flag != Locked then StoredFlag(flag) else row.flag)
            && (id in affected <==> meant && (row.state != state || ComparedFlag(ids, flag) != Some(row.flag)))
  {
    hide VerifyNormalizeFlagOK;
  }
}
