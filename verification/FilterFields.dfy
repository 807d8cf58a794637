/** Checking and normalizing the values of a filter in place, and the filter for rows that an
    update of two fields would change. */
module FilterFields {
  import opened Wrappers
  import opened SqlText
  import opened ColumnFilter

  /** A value with its negation, however often written, kept once and the rest normalized. */
  function Normalized(s: string, parse: string -> string): string {
    if Negated(s) then "!" + parse(TrimBangs(s)) else parse(s)
  }

  /** A value is refused if it normalizes to nothing, unless it was nothing and may be. */
  predicate Refused(s: string, parse: string -> string, emptyOk: bool) {
    parse(TrimBangs(s)) == "" && (!emptyOk || TrimBangs(s) != "")
  }

  /** `checkFilterField`: rewrites the values up to the first one it refuses. */
  method CheckFilterField(field: array<string>, parse: string -> string, emptyOk: bool) returns (ok: bool)
    modifies field
    ensures ok <==> forall i :: 0 <= i < field.Length ==> !Refused(old(field[i]), parse, emptyOk)
    ensures ok ==> forall i :: 0 <= i < field.Length ==> field[i] == Normalized(old(field[i]), parse)
    ensures forall i :: 0 <= i < field.Length ==> field[i] in {old(field[i]), Normalized(old(field[i]), parse)}
  {
    for i := 0 to field.Length
      invariant forall j :: 0 <= j < i ==> !Refused(old(field[j]), parse, emptyOk) && field[j] == Normalized(old(field[j]), parse)
      invariant forall j :: i <= j < field.Length ==> field[j] == old(field[j])
    {
      var val, replaceNeg := "", false;
      if Negated(field[i]) {
        replaceNeg := true;
        val := parse(TrimBangs(field[i]));
      } else {
        val := parse(field[i]);
      }
      if val == "" {
        if !emptyOk || TrimBangs(field[i]) != "" {
          assert Refused(old(field[i]), parse, emptyOk);
          return false;
        }
      }
      field[i] := if replaceNeg then "!" + val else val;
    }
    ok := true;
  }

  /** A normalizer gives back its own results, and none of them is negated. */
  ghost predicate IsNormalizer(parse: string -> string) {
    forall s :: parse(parse(s)) == parse(s) && !Negated(parse(s))
  }

  lemma TrimNegation(s: string)
    ensures TrimBangs("!" + s) == TrimBangs(s) && Negated("!" + s)
    ensures !Negated(s) ==> TrimBangs(s) == s
  {
    assert ("!" + s)[1..] == s;
  }

  /** Checking is idempotent: the values it leaves are accepted again and stay as they are. */
  lemma CheckedTwice(s: string, parse: string -> string, emptyOk: bool)
    requires IsNormalizer(parse) && !Refused(s, parse, emptyOk)
    ensures Normalized(Normalized(s, parse), parse) == Normalized(s, parse)
    ensures TrimBangs(s) != "" ==> !Refused(Normalized(s, parse), parse, emptyOk)
    ensures Negated(s) <==> Negated(Normalized(s, parse))
  {
    TrimNegation(parse(TrimBangs(s)));
    TrimNegation(s);
  }

  // ---- State or flag ----

  datatype OrFilter = OrFilter(orState: seq<string>, orFlag: seq<string>)

  function StateOrFlag(state: string, flag: string): OrFilter {
    OrFilter(["!" + state], ["!" + flag])
  }

  function NotStateOrFlag(state: string, flag: string): OrFilter {
    StateOrFlag("!" + state, "!" + flag)
  }

  /** A row is selected if its state passes or its flag passes. */
  predicate OrSelects(f: OrFilter, state: string, flag: string) {
    ColumnSelects(f.orState, StrVal(state)) || ColumnSelects(f.orFlag, StrVal(flag))
  }

  lemma OneNegated(x: string, v: string)
    ensures ColumnSelects(["!" + x], StrVal(v)) <==> v != TrimBangs(x)
    ensures ColumnSelects(["!" + ("!" + x)], StrVal(v)) <==> v != TrimBangs(x)
  {
    NegatedMeans("!" + x, v);
    NegatedMeans("!" + ("!" + x), v);
    TrimNegation(x);
    TrimNegation("!" + x);
  }

  lemma NegatedMeans(arg: string, v: string)
    requires Negated(arg)
    ensures ColumnSelects([arg], StrVal(v)) <==> v != TrimBangs(arg)
  {
    assert [arg][..0] == [] && Negatives([]) == [] && Positives([]) == [];
    assert Positives([arg]) == [] && Negatives([arg]) == [TrimBangs(arg)];
    assert TrimBangs(arg) in Negatives([arg]);
  }

  /** Both filters select the rows that have not both values already, because any number of
      negations counts as one. */
  lemma NotStateOrFlagMeans(state: string, flag: string, rowState: string, rowFlag: string)
    requires !Negated(state) && !Negated(flag)
    ensures OrSelects(NotStateOrFlag(state, flag), rowState, rowFlag) <==> rowState != state || rowFlag != flag
    ensures OrSelects(StateOrFlag(state, flag), rowState, rowFlag) <==> rowState != state || rowFlag != flag
  {
    OneNegated(state, rowState);
    OneNegated(flag, rowFlag);
    TrimNegation(state);
    TrimNegation(flag);
  }
}
