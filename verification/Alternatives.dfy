/** Conditions joined with OR, and the text of such a list while it grows. */
module Alternatives {
  import opened Wrappers
  import opened SqlText

  /** One alternative and its arguments. */
  datatype Alt = Alt(e: Expr, args: seq<string>)

  function OrTokens(alts: seq<Alt>): seq<Token> {
    if alts == [] then []
    else if |alts| == 1 then Print(alts[0].e)
    else Print(alts[0].e) + [Or] + OrTokens(alts[1..])
  }

  function OrArgs(alts: seq<Alt>): seq<string> {
    if alts == [] then [] else alts[0].args + OrArgs(alts[1..])
  }

  function OrExpr(alts: seq<Alt>): Expr
    requires alts != []
  {
    if |alts| == 1 then alts[0].e else OrOf(alts[0].e, OrExpr(alts[1..]))
  }

  predicate WellFormed(alts: seq<Alt>) {
    forall k :: 0 <= k < |alts| ==> IsAtom(alts[k].e) && |alts[k].args| == Placeholders(alts[k].e)
  }

  lemma {:induction false} OrAppend(alts: seq<Alt>, alt: Alt)
    ensures OrArgs(alts + [alt]) == OrArgs(alts) + alt.args
    ensures OrTokens(alts + [alt]) == (if alts == [] then [] else OrTokens(alts) + [Or]) + Print(alt.e)
  {
    hide Print;
    if alts == [] {
      assert OrArgs([alt]) == alt.args + OrArgs([]) == alt.args;
    } else {
      assert (alts + [alt])[1..] == alts[1..] + [alt];
      OrAppend(alts[1..], alt);
    }
  }

  lemma {:induction false} OrMeans(alts: seq<Alt>, row: Row)
    requires alts != [] && WellFormed(alts)
    ensures IsOr(OrExpr(alts)) && Print(OrExpr(alts)) == OrTokens(alts)
    ensures Placeholders(OrExpr(alts)) == |OrArgs(alts)|
    ensures Accepts(OrExpr(alts), OrArgs(alts), row) <==>
            forall k :: 0 <= k < |alts| ==> Accepts(alts[k].e, alts[k].args, row)
    ensures Accepts(OrExpr(alts), OrArgs(alts), row) ==>
              (Holds(OrExpr(alts), OrArgs(alts), row) <==>
               exists k :: 0 <= k < |alts| && Holds(alts[k].e, alts[k].args, row))
  {
    if |alts| == 1 {
      assert OrArgs(alts) == alts[0].args + OrArgs([]) == alts[0].args;
    } else {
      var rest := alts[1..];
      OrMeans(rest, row);
      var n := Placeholders(alts[0].e);
      assert OrArgs(alts)[..n] == alts[0].args && OrArgs(alts)[n..] == OrArgs(rest);
      assert forall k :: 0 <= k < |rest| ==> rest[k] == alts[k + 1];
      assert forall k :: 0 < k < |alts| ==> alts[k] == rest[k - 1];
    }
  }

  // ---- Text under construction ----

  /** Text under construction that ends in a delimiter, so that any piece can follow. */
  predicate EndsClean(text: string) {
    text == "" || IsDelimiter(text[|text| - 1])
  }

  lemma LexComparison(text: string, col: string, piece: string, tail: seq<Token>)
    requires EndsClean(text) && IsColumnName(col)
    requires piece != "" && piece[0] == ' ' && Lex(piece) == tail
    ensures Lex(text + col + piece) == Lex(text) + [Column(col)] + tail
  {
    LexAppend(text + col, piece);
    LexAppend(text, col);
    LexColumn(col);
  }
}
