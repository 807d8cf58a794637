/** The text of the queries that select and update component states, and the rows they affect. */
module UpdateQuery {
  import opened Wrappers
  import opened Strings
  import opened SqlText
  import opened WhereClause
  import opened ColumnFilter
  import opened FilterFields
  import opened PreparedQueries
  import S = StateUpdates

  function StateName(s: S.HmsState): string {
    match s
    case Unknown => "Unknown"
    case Empty => "Empty"
    case Populated => "Populated"
    case Off => "Off"
    case On => "On"
    case Standby => "Standby"
    case Halt => "Halt"
    case Ready => "Ready"
  }

  function FlagName(f: S.HmsFlag): string {
    match f
    case UnknownFlag => "Unknown"
    case OK => "OK"
    case Warning => "Warning"
    case Alert => "Alert"
    case Locked => "Locked"
  }

  function ParseState(s: string): string {
    match S.VerifyNormalizeState(s)
    case Some(st) => StateName(st)
    case None => ""
  }

  function ParseFlag(s: string): string {
    match S.VerifyNormalizeFlag(s)
    case Some(f) => FlagName(f)
    case None => ""
  }

  /** The flag as a query gets it: a name, or nothing for an invalid flag. */
  function FlagText(flag: Option<S.HmsFlag>): string {
    if flag.Some? then FlagName(flag.value) else ""
  }

  lemma {:induction false} AllWordChars(s: string)
    requires forall i :: 0 <= i < |s| ==> IsWordChar(s[i])
    ensures WordLength(s) == |s|
  {
    if s != "" {
      AllWordChars(s[1..]);
    }
  }

  lemma StatesAreWords(s: S.HmsState)
    ensures StateName(s) != "" && !Negated(StateName(s)) && WordLength(StateName(s)) == |StateName(s)|
  {
    AllWordChars(StateName(s));
  }

  lemma FlagsAreWords(f: S.HmsFlag)
    ensures FlagName(f) != "" && !Negated(FlagName(f)) && WordLength(FlagName(f)) == |FlagName(f)|
  {
    AllWordChars(FlagName(f));
  }

  lemma StatesDiffer(s: S.HmsState, t: S.HmsState)
    ensures StateName(s) == StateName(t) <==> s == t
  {
  }

  lemma FlagsDiffer(f: S.HmsFlag, g: S.HmsFlag)
    ensures FlagName(f) == FlagName(g) <==> f == g
  {
  }

  lemma StateParses(s: S.HmsState)
    ensures ParseState(StateName(s)) == StateName(s)
  {
    assert ToLower("Unknown") == "unknown" && ToLower("Empty") == "empty" && ToLower("Populated") == "populated";
    assert ToLower("Off") == "off" && ToLower("On") == "on" && ToLower("Standby") == "standby";
    assert ToLower("Halt") == "halt" && ToLower("Ready") == "ready";
  }

  lemma FlagParses(flag: Option<S.HmsFlag>)
    ensures ParseFlag(FlagText(flag)) == FlagText(flag)
  {
    assert ToLower("Unknown") == "unknown" && ToLower("OK") == "ok" && ToLower("Warning") == "warning";
    assert ToLower("Alert") == "alert" && ToLower("Locked") == "locked" && ToLower("") == "";
  }

  // ---- The WHERE clause ----

  /** The check of ids is not part of this model: it leaves valid ids as they are. */
  type IdCheck = string -> string

  predicate ValidIds(ids: seq<string>, xname: IdCheck) {
    forall i :: 0 <= i < |ids| ==> ids[i] != "" && !Negated(ids[i]) && xname(ids[i]) == ids[i]
  }

  function IdParam(ids: seq<string>, xname: IdCheck): seq<Param> {
    [Param("id", ids, Some(xname))]
  }

  function OrParams(f: OrFilter): seq<Param> {
    [Param("state", f.orState, Some(ParseState)), Param("flag", f.orFlag, Some(ParseFlag))]
  }

  function StateParam(states: seq<string>): seq<Param> {
    [Param("state", states, Some(ParseState))]
  }

  function WhereParts(ids: seq<string>, f: OrFilter, states: seq<string>, xname: IdCheck, direct: bool): seq<Part> {
    Added(IdParam(ids, xname), false, direct) + Added(OrParams(f), true, direct) + Added(StateParam(states), false, direct)
  }

  const NO_OR := OrFilter([], [])

  /** `setCompWhereQuery`, for the fields that a state update uses. */
  method SetCompWhereQuery(q: PreparedQuery, ids: seq<string>, f: OrFilter, states: seq<string>, xname: IdCheck)
    returns (ok: bool)
    requires q.Valid()
    modifies q
    ensures q.noArgs == old(q.noArgs) && q.base == old(q.base)
    ensures ok <==> !AnyBad(IdParam(ids, xname)) && !AnyBad(OrParams(f)) && !AnyBad(StateParam(states))
    ensures ok ==> q.Valid() && q.parts == old(q.parts) + WhereParts(ids, f, states, xname, q.noArgs)
  {
    hide AnyBad, Added;
    ok := q.DoQueryArgSet(IdParam(ids, xname), false);
    if !ok {
      return;
    }
    ok := q.DoQueryArgSet(OrParams(f), true);
    if !ok {
      return;
    }
    ok := q.DoQueryArgSet(StateParam(states), false);
  }

  /** The query that selects the components a bulk update affects. */
  method SelectAffected(baseQuery: string, ids: seq<string>, state: string, flag: string, starts: seq<string>,
                        xname: IdCheck)
    returns (ok: bool, q: PreparedQuery)
    ensures fresh(q) && q.base == baseQuery
    ensures ok <==> !AnyBad(IdParam(ids, xname)) && !AnyBad(OrParams(NotStateOrFlag(state, flag))) && !AnyBad(StateParam(starts))
    ensures ok ==> q.Valid() && q.parts == WhereParts(ids, NotStateOrFlag(state, flag), starts, xname, false)
  {
    hide AnyBad, WhereParts;
    q := new PreparedQuery(baseQuery);
    ok := SetCompWhereQuery(q, ids, NotStateOrFlag(state, flag), starts, xname);
  }

  /** The query of an update that checks what it changes: ids are arguments, the rest is quoted. */
  method UpdateAffected(baseQuery: string, ids: seq<string>, state: string, flag: string, starts: seq<string>,
                        xname: IdCheck)
    returns (ok: bool, q: PreparedQuery)
    ensures fresh(q) && q.base == baseQuery
    ensures ok <==> !AnyBad(IdParam(ids, xname)) && !AnyBad(OrParams(NotStateOrFlag(state, flag))) && !AnyBad(StateParam(starts))
    ensures ok ==> q.Valid() && q.parts == WhereParts(ids, NO_OR, [], xname, false)
                                           + WhereParts([], NotStateOrFlag(state, flag), starts, xname, true)
  {
    hide AnyBad, WhereParts, NotStateOrFlag;
    q := new PreparedQuery(baseQuery);
    q.SetDirectQuery(false);
    NothingBad(xname);
    ok := SetCompWhereQuery(q, ids, NO_OR, [], xname);
    if ok {
      q.SetDirectQuery(true);
      ok := SetCompWhereQuery(q, [], NotStateOrFlag(state, flag), starts, xname);
    }
  }

  lemma NothingBad(xname: IdCheck)
    ensures !AnyBad(IdParam([], xname)) && !AnyBad(OrParams(NO_OR)) && !AnyBad(StateParam([]))
  {
  }

  // ---- Which rows it finds ----

  /** A row of the components table, as far as the conditions look at it. */
  function DbRow(id: string, row: S.Row): Row {
    map["id" := StrVal(id), "state" := StrVal(StateName(row.state)), "flag" := StrVal(FlagName(row.flag))]
  }

  lemma {:induction false} PlainSplit(values: seq<string>)
    requires forall i :: 0 <= i < |values| ==> !Negated(values[i])
    ensures Positives(values) == values && Negatives(values) == []
  {
    if values != [] {
      PlainSplit(values[..|values| - 1]);
      assert values[..|values| - 1] + [values[|values| - 1]] == values;
    }
  }

  lemma TwoParams(p: Param, p': Param)
    ensures AllClauses([p, p']) == ParamClauses(p) + ParamClauses(p')
  {
    AskedAlone(p);
    assert [p, p'][..1] == [p] && [p, p'][1] == p';
  }

  /** Plain values that their function leaves as they are. */
  predicate HasValidValues(p: Param) {
    p.parse.Some? && forall i :: 0 <= i < |p.values| ==>
                       p.values[i] != "" && !Negated(p.values[i]) && p.parse.value(p.values[i]) == p.values[i]
  }

  /** Valid plain values are one clause. */
  lemma PlainParam(p: Param)
    requires HasValidValues(p)
    ensures AllClauses([p]) == (if p.values == [] then [] else [Clause(p.name, false, p.values)])
    ensures !AnyBad([p])
  {
    AskedAlone(p);
    PlainSplit(p.values);
    assert ArgsOf(p, p.values) == p.values && ArgsOf(p, []) == [];
    forall i | 0 <= i < |p.values| ensures !BadValue(p, p.values[i]) {
      TrimNegation(p.values[i]);
    }
  }

  /** Negating a value twice or once is one clause. */
  lemma NegatedParam(p: Param, value: string, arg: string)
    requires p.parse.Some? && p.values == ["!" + ("!" + value)] && !Negated(value)
    requires p.parse.value(value) == arg && (arg == "" ==> value == "")
    ensures ParamClauses(p) == [Clause(p.name, true, [arg])] && !AnyBad([p])
  {
    TrimNegation(value);
    TrimNegation("!" + value);
    var v := p.values[0];
    assert p.values[..0] == [];
    assert Positives([]) == [] && Negatives([]) == [];
    assert Negatives(p.values) == [value] && Positives(p.values) == [];
    assert ArgsOf(p, [value]) == [arg];
    assert !BadValue(p, v);
  }

  lemma Columns()
    ensures IsColumnName("id") && IsColumnName("state") && IsColumnName("flag")
  {
    AllWordChars("id");
    AllWordChars("state");
    AllWordChars("flag");
  }

  /** A plain clause finds the rows with one of its values. */
  lemma PlainMeans(p: Param, row: Row)
    requires HasValidValues(p)
    requires p.name in row && row[p.name].StrVal?
    ensures AddedAccepts([p], row)
    ensures AddedHolds([p], false, row) <==> p.values == [] || row[p.name].s in p.values
  {
    PlainParam(p);
    var c := Clause(p.name, false, p.values);
    assert ClauseAccepts(c, row);
    assert ClauseHolds(c, row) <==> row[p.name].s in p.values;
    assert p.values != [] ==> AllClauses([p])[0] == c;
  }

  /** The two negated clauses find the rows that have not both values. */
  lemma OrClauses(state: string, st: S.HmsState, flag: Option<S.HmsFlag>)
    requires S.VerifyNormalizeState(state) == Some(st)
    ensures AllClauses(OrParams(NotStateOrFlag(state, FlagText(flag)))) ==
            [Clause("state", true, [StateName(st)]), Clause("flag", true, [FlagText(flag)])]
    ensures !AnyBad(OrParams(NotStateOrFlag(state, FlagText(flag))))
  {
    var f := NotStateOrFlag(state, FlagText(flag));
    var ps := OrParams(f);
    StatesAreWords(st);
    NotNegated(state);
    if flag.Some? {
      FlagsAreWords(flag.value);
    }
    FlagParses(flag);
    NegatedParam(ps[0], state, StateName(st));
    NegatedParam(ps[1], FlagText(flag), FlagText(flag));
    TwoParams(ps[0], ps[1]);
    EitherBad(ps[0], ps[1]);
  }

  lemma NegatedIsNoState(state: string)
    requires Negated(state)
    ensures S.VerifyNormalizeState(state).None?
  {
    assert ToLower(state)[0] == '!';
  }

  lemma NotNegated(state: string)
    ensures S.VerifyNormalizeState(state).Some? ==> !Negated(state)
  {
    if Negated(state) {
      NegatedIsNoState(state);
    }
  }

  lemma EitherBad(p: Param, p': Param)
    ensures AnyBad([p, p']) <==> AnyBad([p]) || AnyBad([p'])
  {
    hide BadValue;
    assert [p, p'][0] == p && [p, p'][1] == p' && [p][0] == p && [p'][0] == p';
  }

  lemma OrMeansDiffers(state: string, st: S.HmsState, flag: Option<S.HmsFlag>, id: string, r: S.Row)
    requires S.VerifyNormalizeState(state) == Some(st)
    ensures var ps := OrParams(NotStateOrFlag(state, FlagText(flag)));
            AddedAccepts(ps, DbRow(id, r)) && (AddedHolds(ps, true, DbRow(id, r)) <==> S.Differs(r, st, flag))
  {
    OrClauses(state, st, flag);
    hide OrParams, NotStateOrFlag, S.VerifyNormalizeState;
    var row, ps := DbRow(id, r), OrParams(NotStateOrFlag(state, FlagText(flag)));
    var c, c' := Clause("state", true, [StateName(st)]), Clause("flag", true, [FlagText(flag)]);
    assert ClauseAccepts(c, row) && ClauseAccepts(c', row);
    assert ClauseHolds(c, row) <==> StateName(r.state) != StateName(st) by { assert StateName(st) in c.args; }
    assert ClauseHolds(c', row) <==> FlagName(r.flag) != FlagText(flag) by { assert FlagText(flag) in c'.args; }
    StatesDiffer(r.state, st);
    FlagsAreWords(r.flag);
    if flag.Some? {
      FlagsDiffer(r.flag, flag.value);
    }
    assert AllClauses(ps)[0] == c && AllClauses(ps)[1] == c';
  }

  function WhereExprs(ids: seq<string>, f: OrFilter, states: seq<string>, xname: IdCheck, direct: bool): seq<Expr> {
    AddedExprs(IdParam(ids, xname), false, direct) + AddedExprs(OrParams(f), true, direct)
    + AddedExprs(StateParam(states), false, direct)
  }

  /** All three conditions can be asked of a row. */
  ghost predicate Askable(ids: seq<string>, f: OrFilter, states: seq<string>, xname: IdCheck, direct: bool, row: Row) {
    && Usable(IdParam(ids, xname), direct) && AddedAccepts(IdParam(ids, xname), row)
    && Usable(OrParams(f), direct) && AddedAccepts(OrParams(f), row)
    && Usable(StateParam(states), direct) && AddedAccepts(StateParam(states), row)
  }

  ghost predicate Passes(ids: seq<string>, f: OrFilter, states: seq<string>, xname: IdCheck, row: Row)
    requires AddedAccepts(IdParam(ids, xname), row) && AddedAccepts(OrParams(f), row) && AddedAccepts(StateParam(states), row)
  {
    && AddedHolds(IdParam(ids, xname), false, row) && AddedHolds(OrParams(f), true, row)
    && AddedHolds(StateParam(states), false, row)
  }

  lemma WhereMeans(q: seq<Part>, es: seq<Expr>, ids: seq<string>, f: OrFilter, states: seq<string>, xname: IdCheck,
                   direct: bool, row: Row)
    requires AllRead(q, es) && AllAccept(q, es, row) && Askable(ids, f, states, xname, direct, row)
    ensures var q', es' := q + WhereParts(ids, f, states, xname, direct), es + WhereExprs(ids, f, states, xname, direct);
            && AllRead(q', es') && AllAccept(q', es', row)
            && (AllHold(q', es', row) <==> AllHold(q, es, row) && Passes(ids, f, states, xname, row))
  {
    hide AllRead, AllAccept, AllHold, Added, AddedExprs, AddedAccepts, AddedHolds, Usable, IdParam, OrParams, StateParam;
    var ps, os, ss := IdParam(ids, xname), OrParams(f), StateParam(states);
    var q1, es1 := q + Added(ps, false, direct), es + AddedExprs(ps, false, direct);
    AddedMeans(q, es, ps, false, direct, row);
    var q2, es2 := q1 + Added(os, true, direct), es1 + AddedExprs(os, true, direct);
    AddedMeans(q1, es1, os, true, direct, row);
    AddedMeans(q2, es2, ss, false, direct, row);
    assert q + WhereParts(ids, f, states, xname, direct) == q2 + Added(ss, false, direct);
    assert es + WhereExprs(ids, f, states, xname, direct) == es2 + AddedExprs(ss, false, direct);
  }

  /** The names of some states, in any order. */
  ghost predicate StateNames(names: seq<string>, states: set<S.HmsState>) {
    forall name :: name in names <==> exists st :: st in states && StateName(st) == name
  }

  lemma NamesMean(names: seq<string>, states: set<S.HmsState>, row: S.Row)
    requires StateNames(names, states)
    ensures names == [] || StateName(row.state) in names <==> S.MayStart(states, row)
    ensures forall i :: 0 <= i < |names| ==>
              names[i] != "" && !Negated(names[i]) && ParseState(names[i]) == names[i] && WordLength(names[i]) == |names[i]|
  {
    hide StateName, ParseState, Negated, WordLength;
    forall i | 0 <= i < |names|
      ensures names[i] != "" && !Negated(names[i]) && ParseState(names[i]) == names[i] && WordLength(names[i]) == |names[i]|
    {
      assert names[i] in names;
      var st :| st in states && StateName(st) == names[i];
      StatesAreWords(st);
      StateParses(st);
    }
    if StateName(row.state) in names {
      var st :| st in states && StateName(st) == StateName(row.state);
      StatesDiffer(st, row.state);
    }
    if states != {} {
      var st :| st in states;
      assert StateName(st) in names;
    }
    if names != [] {
      assert names[0] in names;
    }
  }

  lemma PlainUsable(p: Param, direct: bool)
    requires IsColumnName(p.name) && AllClauses([p]) == (if p.values == [] then [] else [Clause(p.name, false, p.values)])
    requires direct ==> Words(p.values)
    ensures Usable([p], direct)
  {
    hide IsColumnName, AllClauses, Words;
  }

  /** Ids of a request can be asked for as arguments. */
  lemma IdsAskable(ids: seq<string>, xname: IdCheck, direct: bool, id: string, r: S.Row)
    requires ValidIds(ids, xname) && (direct ==> ids == [])
    ensures var ps := IdParam(ids, xname);
            && !AnyBad(ps) && Usable(ps, direct) && AddedAccepts(ps, DbRow(id, r))
            && (AddedHolds(ps, false, DbRow(id, r)) <==> ids == [] || id in ids)
  {
    hide IsColumnName, AllClauses, Usable, AddedAccepts, AddedHolds, AnyBad, WordLength, StateName, FlagName;
    var p := Param("id", ids, Some(xname));
    PlainParam(p);
    PlainMeans(p, DbRow(id, r));
    Columns();
    PlainUsable(p, direct);
  }

  lemma StatesAskable(names: seq<string>, states: set<S.HmsState>, direct: bool, id: string, r: S.Row)
    requires StateNames(names, states)
    ensures var ps := StateParam(names);
            && !AnyBad(ps) && Usable(ps, direct) && AddedAccepts(ps, DbRow(id, r))
            && (AddedHolds(ps, false, DbRow(id, r)) <==> S.MayStart(states, r))
  {
    hide IsColumnName, AllClauses, Usable, AddedAccepts, AddedHolds, AnyBad, WordLength, StateName, FlagName, StateNames,
      ParseState, Negated, S.MayStart;
    NamesMean(names, states, r);
    var p := Param("state", names, Some(ParseState));
    PlainParam(p);
    PlainMeans(p, DbRow(id, r));
    Columns();
    PlainUsable(p, direct);
  }

  lemma TwoUsable(ps: seq<Param>, c: Clause, c': Clause, direct: bool)
    requires AllClauses(ps) == [c, c']
    requires IsColumnName(c.name) && IsColumnName(c'.name) && Quotable(c, direct) && Quotable(c', direct)
    ensures Usable(ps, direct)
  {
    hide AllClauses, IsColumnName, Quotable;
  }

  lemma OneWord(name: string, value: string, direct: bool)
    requires WordLength(value) == |value|
    ensures Quotable(Clause(name, true, [value]), direct)
  {
    hide WordLength;
  }

  lemma OrAskable(state: string, st: S.HmsState, flag: Option<S.HmsFlag>, direct: bool, id: string, r: S.Row)
    requires S.VerifyNormalizeState(state) == Some(st)
    ensures var ps := OrParams(NotStateOrFlag(state, FlagText(flag)));
            && !AnyBad(ps) && Usable(ps, direct) && AddedAccepts(ps, DbRow(id, r))
            && (AddedHolds(ps, true, DbRow(id, r)) <==> S.Differs(r, st, flag))
  {
    assert WordLength("") == 0;
    hide S.VerifyNormalizeState, AllClauses, Usable, AddedAccepts, AddedHolds, AnyBad, WordLength, StateName, FlagName,
      OrParams, NotStateOrFlag;
    OrClauses(state, st, flag);
    OrMeansDiffers(state, st, flag, id, r);
    StatesAreWords(st);
    if flag.Some? {
      FlagsAreWords(flag.value);
    }
    hide IsColumnName, Quotable, FlagText;
    Columns();
    OneWord("state", StateName(st), direct);
    OneWord("flag", FlagText(flag), direct);
    TwoUsable(OrParams(NotStateOrFlag(state, FlagText(flag))), Clause("state", true, [StateName(st)]),
              Clause("flag", true, [FlagText(flag)]), direct);
  }

  lemma NoClauses(p: Param)
    requires p.values == []
    ensures ParamClauses(p) == []
  {
  }

  lemma NothingAskable(xname: IdCheck, direct: bool, row: Row)
    ensures Askable([], NO_OR, [], xname, direct, row) && Passes([], NO_OR, [], xname, row)
  {
    hide ParamClauses, AllClauses;
    var p, o, o' := Param("id", [], Some(xname)), Param("state", [], Some(ParseState)), Param("flag", [], Some(ParseFlag));
    NoClauses(p);
    NoClauses(o);
    NoClauses(o');
    AskedAlone(p);
    AskedAlone(o);
    TwoParams(o, o');
  }

  /** The conditions of an update, each on its own, are those of its affected rows. */
  lemma UpdateAskable(ids: seq<string>, state: string, st: S.HmsState, flag: Option<S.HmsFlag>, starts: seq<string>,
                      start: set<S.HmsState>, xname: IdCheck, direct: bool, id: string, r: S.Row)
    requires ValidIds(ids, xname) && (direct ==> ids == [])
    requires S.VerifyNormalizeState(state) == Some(st) && StateNames(starts, start)
    ensures var f, row := NotStateOrFlag(state, FlagText(flag)), DbRow(id, r);
            && Askable(ids, f, starts, xname, direct, row)
            && (Passes(ids, f, starts, xname, row) <==>
                (ids == [] || id in ids) && S.Differs(r, st, flag) && S.MayStart(start, r))
            && !AnyBad(IdParam(ids, xname)) && !AnyBad(OrParams(f)) && !AnyBad(StateParam(starts))
  {
    hide S.VerifyNormalizeState, Usable, AddedAccepts, AddedHolds, AnyBad, NotStateOrFlag, OrParams, IdParam, StateParam,
      StateNames, ValidIds, DbRow, FlagText, S.Differs, S.MayStart;
    IdsAskable(ids, xname, direct, id, r);
    OrAskable(state, st, flag, direct, id, r);
    StatesAskable(starts, start, direct, id, r);
  }

  lemma AllNothing(row: Row)
    ensures AllRead([], []) && AllAccept([], [], row) && AllHold([], [], row)
  {
  }

  lemma AffectedIs(rows: S.Rows, ids: seq<string>, st: S.HmsState, flag: Option<S.HmsFlag>, start: set<S.HmsState>, id: string)
    requires id in rows
    ensures id in S.Affected(rows, S.IdSet(ids), st, flag, start) <==>
            id in ids && S.Differs(rows[id], st, flag) && S.MayStart(start, rows[id])
  {
    hide S.Differs, S.MayStart;
  }

  /** The query of a bulk update is built, runs on every row of the table, and finds exactly the
      components that the update affects. */
  lemma SelectFindsAffected(rows: S.Rows, ids: seq<string>, state: string, st: S.HmsState, flag: Option<S.HmsFlag>,
                            starts: seq<string>, start: set<S.HmsState>, xname: IdCheck, id: string)
    requires ids != [] && ValidIds(ids, xname) && id in rows
    requires S.VerifyNormalizeState(state) == Some(st) && StateNames(starts, start)
    ensures var f := NotStateOrFlag(state, FlagText(flag));
            && !AnyBad(IdParam(ids, xname)) && !AnyBad(OrParams(f)) && !AnyBad(StateParam(starts))
            && var parts, row := WhereParts(ids, f, starts, xname, false), DbRow(id, rows[id]);
            Runs(parts, row) && (Finds(parts, row) <==> id in S.Affected(rows, S.IdSet(ids), st, flag, start))
  {
    hide S.VerifyNormalizeState, Askable, Passes, AnyBad, NotStateOrFlag, OrParams, IdParam, StateParam, StateNames, WhereParts,
      WhereExprs, ValidIds, DbRow, FlagText, S.Differs, S.MayStart, Runs, Finds,
      S.Affected, S.IdSet, AllRead, AllAccept, AllHold;
    AllNothing(DbRow(id, rows[id]));
    AffectedIs(rows, ids, st, flag, start, id);
    var f, row := NotStateOrFlag(state, FlagText(flag)), DbRow(id, rows[id]);
    UpdateAskable(ids, state, st, flag, starts, start, xname, false, id, rows[id]);
    WhereMeans([], [], ids, f, starts, xname, false, row);
    var parts, es := WhereParts(ids, f, starts, xname, false), WhereExprs(ids, f, starts, xname, false);
    assert [] + parts == parts && [] + es == es;
    RunsMeans(parts, es, row);
  }

  /** So does the update of a single component, whose conditions are partly quoted. */
  lemma UpdateFindsAffected(rows: S.Rows, ids: seq<string>, state: string, st: S.HmsState, flag: Option<S.HmsFlag>,
                            starts: seq<string>, start: set<S.HmsState>, xname: IdCheck, id: string)
    requires ids != [] && ValidIds(ids, xname) && id in rows
    requires S.VerifyNormalizeState(state) == Some(st) && StateNames(starts, start)
    ensures var f := NotStateOrFlag(state, FlagText(flag));
            && !AnyBad(IdParam(ids, xname)) && !AnyBad(OrParams(f)) && !AnyBad(StateParam(starts))
            && var parts := WhereParts(ids, NO_OR, [], xname, false) + WhereParts([], f, starts, xname, true);
            var row := DbRow(id, rows[id]);
            Runs(parts, row) && (Finds(parts, row) <==> id in S.Affected(rows, S.IdSet(ids), st, flag, start))
  {
    hide S.VerifyNormalizeState, Askable, Passes, AnyBad, NotStateOrFlag, OrParams, IdParam, StateParam, StateNames, WhereParts,
      WhereExprs, DbRow, FlagText, S.Differs, S.MayStart, Runs, Finds,
      S.Affected, S.IdSet, AllRead, AllAccept, AllHold;
    AllNothing(DbRow(id, rows[id]));
    AffectedIs(rows, ids, st, flag, start, id);
    var f, row := NotStateOrFlag(state, FlagText(flag)), DbRow(id, rows[id]);
    IdsOnly(ids, xname, id, rows[id]);
    UpdateAskable([], state, st, flag, starts, start, xname, true, id, rows[id]);
    IdsFine(ids, xname, id, rows[id]);
    WhereMeans([], [], ids, NO_OR, [], xname, false, row);
    var parts, es := WhereParts(ids, NO_OR, [], xname, false), WhereExprs(ids, NO_OR, [], xname, false);
    assert [] + parts == parts && [] + es == es;
    WhereMeans(parts, es, [], f, starts, xname, true, row);
    RunsMeans(parts + WhereParts([], f, starts, xname, true), es + WhereExprs([], f, starts, xname, true), row);
  }

  lemma IdsFine(ids: seq<string>, xname: IdCheck, id: string, r: S.Row)
    requires ValidIds(ids, xname)
    ensures !AnyBad(IdParam(ids, xname))
  {
    IdsAskable(ids, xname, false, id, r);
  }

  lemma IdsOnly(ids: seq<string>, xname: IdCheck, id: string, r: S.Row)
    requires ids != [] && ValidIds(ids, xname)
    ensures Askable(ids, NO_OR, [], xname, false, DbRow(id, r))
    ensures Passes(ids, NO_OR, [], xname, DbRow(id, r)) <==> id in ids
  {
    hide Usable, AddedAccepts, AddedHolds, AnyBad, OrParams, IdParam, StateParam, ValidIds, DbRow;
    IdsAskable(ids, xname, false, id, r);
    NothingAskable(xname, false, DbRow(id, r));
  }
}
