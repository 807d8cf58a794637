/** Building WHERE clauses part by part: parts are joined with AND, so a part keeps its meaning
    exactly when its own text has no OR outside parentheses. */
module WhereClause {
  import opened Wrappers
  import opened SqlText
  import opened SqlPieces

  /** A condition added to a query: its text and its arguments. */
  datatype Part = Part(text: string, args: seq<string>)

  const SEPARATOR := " AND "

  function WhereText(parts: seq<Part>): string {
    if parts == [] then ""
    else if |parts| == 1 then parts[0].text
    else parts[0].text + SEPARATOR + WhereText(parts[1..])
  }

  function WhereArgs(parts: seq<Part>): seq<string> {
    if parts == [] then [] else parts[0].args + WhereArgs(parts[1..])
  }

  /** The text of a part reads as a condition without a bare OR, taking all its arguments. */
  ghost predicate Reads(p: Part, e: Expr) {
    Lex(p.text) == Print(e) && IsAnd(e) && |p.args| == Placeholders(e) && p.text != ""
  }

  ghost predicate AllRead(parts: seq<Part>, es: seq<Expr>) {
    |parts| == |es| && forall i :: 0 <= i < |parts| ==> Reads(parts[i], es[i])
  }

  /** Every part is acceptable on a row, and every part holds on it. */
  ghost predicate AllAccept(parts: seq<Part>, es: seq<Expr>, row: Row)
    requires |parts| == |es|
  {
    forall i :: 0 <= i < |parts| ==> Accepts(es[i], parts[i].args, row)
  }

  ghost predicate AllHold(parts: seq<Part>, es: seq<Expr>, row: Row)
    requires |parts| == |es| && AllAccept(parts, es, row)
  {
    forall i :: 0 <= i < |parts| ==> Holds(es[i], parts[i].args, row)
  }

  lemma AllAppend(parts: seq<Part>, es: seq<Expr>, p: Part, e: Expr, row: Row)
    requires AllRead(parts, es) && Reads(p, e)
    ensures AllRead(parts + [p], es + [e])
    ensures AllAccept(parts + [p], es + [e], row) <==> AllAccept(parts, es, row) && Accepts(e, p.args, row)
    ensures AllAccept(parts + [p], es + [e], row) ==>
              (AllHold(parts + [p], es + [e], row) <==> AllHold(parts, es, row) && Holds(e, p.args, row))
  {
    hide Reads, Accepts, Holds;
    var ps, fs, n := parts + [p], es + [e], |parts|;
    assert ps[n] == p && fs[n] == e;
    assert forall i :: 0 <= i < n ==> ps[i] == parts[i] && fs[i] == es[i];
  }

  // ---- Conjunction ----

  function Conjoin(a: Expr, b: Expr): Expr {
    if a.AndOf? then AndOf(a.left, Conjoin(a.right, b)) else AndOf(a, b)
  }

  function ConjoinAll(es: seq<Expr>): Expr
    requires es != []
  {
    if |es| == 1 then es[0] else Conjoin(es[0], ConjoinAll(es[1..]))
  }

  lemma AndIsOr(e: Expr)
    requires IsAnd(e)
    ensures IsOr(e)
  {
  }

  lemma {:induction false} ConjoinPrints(a: Expr, b: Expr)
    requires IsAnd(a) && IsAnd(b)
    ensures IsAnd(Conjoin(a, b)) && Print(Conjoin(a, b)) == Print(a) + [And] + Print(b)
    ensures Placeholders(Conjoin(a, b)) == Placeholders(a) + Placeholders(b)
  {
    if a.AndOf? {
      ConjoinPrints(a.right, b);
      assert Print(a.left) + [And] + (Print(a.right) + [And] + Print(b)) == Print(a) + [And] + Print(b);
    }
  }

  lemma {:induction false} ConjoinHolds(a: Expr, b: Expr, args: seq<string>, args': seq<string>, row: Row)
    requires IsAnd(a) && IsAnd(b) && |args| == Placeholders(a) && |args'| == Placeholders(b)
    ensures Accepts(Conjoin(a, b), args + args', row) <==> Accepts(a, args, row) && Accepts(b, args', row)
    ensures Accepts(a, args, row) && Accepts(b, args', row) ==>
              (Holds(Conjoin(a, b), args + args', row) <==> Holds(a, args, row) && Holds(b, args', row))
  {
    if a.AndOf? {
      var n := Placeholders(a.left);
      assert (args + args')[..n] == args[..n];
      assert (args + args')[n..] == args[n..] + args';
      ConjoinPrints(a.right, b);
      ConjoinHolds(a.right, b, args[n..], args', row);
    } else {
      assert (args + args')[..|args|] == args && (args + args')[|args|..] == args';
    }
  }

  lemma {:induction false} WherePrints(parts: seq<Part>, es: seq<Expr>)
    requires parts != [] && AllRead(parts, es)
    ensures Lex(WhereText(parts)) == Print(ConjoinAll(es)) && IsAnd(ConjoinAll(es))
    ensures |WhereArgs(parts)| == Placeholders(ConjoinAll(es))
  {
    assert Reads(parts[0], es[0]);
    if |parts| == 1 {
      assert WhereArgs(parts) == parts[0].args + WhereArgs([]);
    } else {
      WherePrints(parts[1..], es[1..]);
      ConjoinPrints(es[0], ConjoinAll(es[1..]));
      var tail := WhereText(parts[1..]);
      LexAppend(parts[0].text + SEPARATOR, tail);
      LexAppend(parts[0].text, SEPARATOR);
      LexAndWord();
    }
  }

  /** What the parts of a WHERE clause say separately is what the database makes of the whole
      text: it parses, it is accepted when every part is, and it holds when every part does. */
  lemma {:induction false} WhereIsConjunction(parts: seq<Part>, es: seq<Expr>, row: Row)
    requires parts != [] && AllRead(parts, es)
    ensures Parse(Lex(WhereText(parts))) == Some(ConjoinAll(es))
    ensures Accepts(ConjoinAll(es), WhereArgs(parts), row) <==> AllAccept(parts, es, row)
    ensures Accepts(ConjoinAll(es), WhereArgs(parts), row) ==>
              (Holds(ConjoinAll(es), WhereArgs(parts), row) <==> AllHold(parts, es, row))
  {
    hide Lex, Parse, Print, Conjoin, Accepts, Holds, WhereText, IsAnd, IsOr, Placeholders;
    WherePrints(parts, es);
    AndIsOr(ConjoinAll(es));
    ParsePrint(ConjoinAll(es));
    assert Reads(parts[0], es[0]);
    if |parts| == 1 {
      assert WhereArgs(parts) == parts[0].args + WhereArgs([]) == parts[0].args;
    } else {
      WhereIsConjunction(parts[1..], es[1..], row);
      WherePrints(parts[1..], es[1..]);
      ConjoinHolds(es[0], ConjoinAll(es[1..]), parts[0].args, WhereArgs(parts[1..]), row);
      assert forall i :: 0 < i < |parts| ==> es[i] == es[1..][i - 1] && parts[i] == parts[1..][i - 1];
      assert forall i :: 0 <= i < |parts| - 1 ==> es[1..][i] == es[i + 1] && parts[1..][i] == parts[i + 1];
    }
  }

  /** The database takes the WHERE text of a query; a query without parts has none. */
  ghost predicate Runs(parts: seq<Part>, row: Row) {
    parts == [] || (Parse(Lex(WhereText(parts))).Some? && Accepts(Parse(Lex(WhereText(parts))).value, WhereArgs(parts), row))
  }

  /** The query finds the row. */
  ghost predicate Finds(parts: seq<Part>, row: Row)
    requires Runs(parts, row)
  {
    parts == [] || Holds(Parse(Lex(WhereText(parts))).value, WhereArgs(parts), row)
  }

  /** So a query runs when every part is acceptable, and finds the rows on which every part holds. */
  lemma RunsMeans(parts: seq<Part>, es: seq<Expr>, row: Row)
    requires AllRead(parts, es)
    ensures Runs(parts, row) <==> AllAccept(parts, es, row)
    ensures Runs(parts, row) ==> (Finds(parts, row) <==> AllHold(parts, es, row))
  {
    hide Lex, Parse, Accepts, Holds, WhereText, WhereArgs, Reads, ConjoinAll;
    if parts != [] {
      WhereIsConjunction(parts, es, row);
    }
  }
}
