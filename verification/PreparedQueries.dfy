/** Prepared queries: conditions on columns appended to the text of a query, each with its values
    as arguments or, if set so, quoted in the text. */
module PreparedQueries {
  import opened Wrappers
  import opened SqlText
  import opened SqlPieces
  import opened Alternatives
  import opened WhereClause
  import opened ColumnFilter
  import opened FilterFields

  /** A column, the values asked for, and the function that checks and normalizes them, if any. */
  datatype Param = Param(name: string, values: seq<string>, parse: Option<string -> string>)

  function ArgOf(p: Param, val: string): string {
    if p.parse.Some? then p.parse.value(val) else val
  }

  predicate BadValue(p: Param, value: string) {
    ArgOf(p, TrimBangs(value)) == "" && TrimBangs(value) != "" && p.parse.Some?
  }

  predicate AnyBad(params: seq<Param>) {
    exists j :: 0 <= j < |params| && exists i :: 0 <= i < |params[j].values| && BadValue(params[j], params[j].values[i])
  }

  function ArgsOf(p: Param, vals: seq<string>): seq<string> {
    seq(|vals|, i requires 0 <= i < |vals| => ArgOf(p, vals[i]))
  }

  // ---- Clauses and their text ----

  /** One column compared with some values: equal to one of them or, negated, to none. */
  datatype Clause = Clause(name: string, negated: bool, args: seq<string>)

  /** The operator and what it compares with. */
  function Operation(negated: bool, direct: bool, arg: string): string {
    (if negated then " != " else " = ") + (if direct then "'" + arg + "'" else "?")
  }

  function Comparison(name: string, negated: bool, direct: bool, arg: string): Part {
    Part(name + Operation(negated, direct, arg), if direct then [] else [arg])
  }

  function Comparisons(c: Clause, direct: bool): seq<Part> {
    seq(|c.args|, i requires 0 <= i < |c.args| => Comparison(c.name, c.negated, direct, c.args[i]))
  }

  function Joined(parts: seq<Part>, separator: string): string {
    if parts == [] then ""
    else if |parts| == 1 then parts[0].text
    else parts[0].text + separator + Joined(parts[1..], separator)
  }

  function Separator(conjoin: bool): string {
    if conjoin then SEPARATOR else " OR "
  }

  function Grouped(parts: seq<Part>, conjoin: bool): Part {
    Part("(" + Joined(parts, Separator(conjoin)) + ")", WhereArgs(parts))
  }

  function ClausePart(c: Clause, direct: bool): Part {
    Grouped(Comparisons(c, direct), c.negated)
  }

  function ClauseParts(cs: seq<Clause>, direct: bool): seq<Part> {
    seq(|cs|, i requires 0 <= i < |cs| => ClausePart(cs[i], direct))
  }

  /** The clauses of a column: one for its plain values and one for those negated. */
  function ParamClauses(p: Param): (cs: seq<Clause>)
    ensures forall c :: c in cs ==> c.args != [] && c.name == p.name
  {
    var pos, neg := ArgsOf(p, Positives(p.values)), ArgsOf(p, Negatives(p.values));
    (if pos == [] then [] else [Clause(p.name, false, pos)]) + (if neg == [] then [] else [Clause(p.name, true, neg)])
  }

  function AllClauses(params: seq<Param>): (cs: seq<Clause>)
    ensures forall c :: c in cs ==> c.args != []
  {
    if params == [] then []
    else var n := |params| - 1; AllClauses(params[..n]) + ParamClauses(params[n])
  }

  /** What a set of columns adds to a query: its clauses or, with OR, a group of them. */
  function Added(params: seq<Param>, either: bool, direct: bool): seq<Part> {
    var parts := ClauseParts(AllClauses(params), direct);
    if either && parts != [] then [Grouped(parts, false)] else parts
  }

  // ---- What a clause means ----

  predicate Words(args: seq<string>) {
    forall i :: 0 <= i < |args| ==> WordLength(args[i]) == |args[i]|
  }

  /** Only words can be quoted in the text. */
  predicate Quotable(c: Clause, direct: bool) {
    direct ==> Words(c.args)
  }

  predicate ClauseAccepts(c: Clause, row: Row) {
    c.name in row && forall a :: a in c.args ==> Converts(row[c.name], a)
  }

  predicate ClauseHolds(c: Clause, row: Row)
    requires ClauseAccepts(c, row)
  {
    (exists a :: a in c.args && Equals(row[c.name], a)) != c.negated
  }

  function CompareExpr(name: string, negated: bool, direct: bool, arg: string): Expr {
    Cmp(name, if negated then Ne else Eq, if direct then Text(arg) else Arg)
  }

  function CompareExprs(c: Clause, direct: bool): seq<Expr> {
    seq(|c.args|, i requires 0 <= i < |c.args| => CompareExpr(c.name, c.negated, direct, c.args[i]))
  }

  function AsAlts(parts: seq<Part>, es: seq<Expr>): seq<Alt>
    requires |parts| == |es|
  {
    seq(|es|, i requires 0 <= i < |es| => Alt(es[i], parts[i].args))
  }

  function GroupedExpr(parts: seq<Part>, es: seq<Expr>, conjoin: bool): Expr
    requires es != [] && |parts| == |es|
  {
    Group(if conjoin then ConjoinAll(es) else OrExpr(AsAlts(parts, es)))
  }

  function ClauseExpr(c: Clause, direct: bool): Expr
    requires c.args != []
  {
    GroupedExpr(Comparisons(c, direct), CompareExprs(c, direct), c.negated)
  }

  lemma LexCompareWord(negated: bool)
    ensures Lex(if negated then " != " else " = ") == [Compare(if negated then Ne else Eq)]
  {
    assert " != "[1..] == "!= ";
    assert "!= "[2..] == " ";
    assert " = "[1..] == "= ";
    assert "= "[1..] == " ";
    assert " "[1..] == "";
  }

  lemma QuotedWord(s: string, arg: string)
    requires WordLength(arg) == |arg| && s == "'" + arg + "'"
    ensures FirstToken(s) == (Literal(arg), |s|)
  {
    assert s[1..] == arg + "'";
    WordLengthAppend(arg, "'");
    hide WordLength;
    assert s[1..|arg| + 1] == arg;
  }

  lemma LexQuoted(arg: string)
    requires WordLength(arg) == |arg|
    ensures Lex("'" + arg + "'") == [Literal(arg)]
  {
    hide FirstToken, Lex, WordLength;
    var s := "'" + arg + "'";
    QuotedWord(s, arg);
    LexStep(s);
    assert s[|s|..] == "";
    LexNothing();
  }

  lemma LexOperation(negated: bool, direct: bool, arg: string)
    requires direct ==> WordLength(arg) == |arg|
    ensures Lex(Operation(negated, direct, arg)) ==
            [Compare(if negated then Ne else Eq), if direct then Literal(arg) else Placeholder]
  {
    hide Lex, WordLength;
    LexCompareWord(negated);
    LexPlaceholder();
    if direct {
      LexQuoted(arg);
    }
    LexAppend(if negated then " != " else " = ", if direct then "'" + arg + "'" else "?");
  }

  lemma LexCompared(name: string, piece: string, tail: seq<Token>)
    requires IsColumnName(name) && piece != "" && piece[0] == ' ' && Lex(piece) == tail
    ensures Lex(name + piece) == [Column(name)] + tail
  {
    hide Lex, IsColumnName;
    LexNothing();
    LexComparison("", name, piece, tail);
    assert "" + name + piece == name + piece;
  }

  lemma OperationShape(negated: bool, direct: bool, arg: string)
    ensures Operation(negated, direct, arg) != "" && Operation(negated, direct, arg)[0] == ' '
  {
  }

  lemma CompareShape(name: string, negated: bool, direct: bool, arg: string)
    ensures var e := CompareExpr(name, negated, direct, arg);
            && IsAtom(e) && IsAnd(e) && Placeholders(e) == (if direct then 0 else 1)
            && Print(e) == [Column(name)] + [Compare(if negated then Ne else Eq), if direct then Literal(arg) else Placeholder]
  {
  }

  lemma ComparisonReads(name: string, negated: bool, direct: bool, arg: string)
    requires IsColumnName(name) && (direct ==> WordLength(arg) == |arg|)
    ensures Reads(Comparison(name, negated, direct, arg), CompareExpr(name, negated, direct, arg))
    ensures IsAtom(CompareExpr(name, negated, direct, arg))
  {
    hide Lex, IsColumnName, WordLength, Operation, CompareExpr, IsAtom, IsAnd, Placeholders, Print;
    LexOperation(negated, direct, arg);
    OperationShape(negated, direct, arg);
    CompareShape(name, negated, direct, arg);
    LexCompared(name, Operation(negated, direct, arg), Lex(Operation(negated, direct, arg)));
  }

  lemma ComparisonMeans(name: string, negated: bool, direct: bool, arg: string, row: Row)
    requires name in row
    ensures var e, p := CompareExpr(name, negated, direct, arg), Comparison(name, negated, direct, arg);
            && (Accepts(e, p.args, row) <==> Converts(row[name], arg))
            && (Accepts(e, p.args, row) ==> (Holds(e, p.args, row) <==> Equals(row[name], arg) != negated))
  {
  }

  // ---- Grouping ----

  lemma {:induction false} JoinedIsWhere(parts: seq<Part>)
    ensures Joined(parts, SEPARATOR) == WhereText(parts)
  {
    if |parts| > 1 {
      JoinedIsWhere(parts[1..]);
    }
  }

  lemma {:induction false} JoinedIsOr(parts: seq<Part>, es: seq<Expr>)
    requires AllRead(parts, es) && parts != []
    ensures Lex(Joined(parts, " OR ")) == OrTokens(AsAlts(parts, es)) && WhereArgs(parts) == OrArgs(AsAlts(parts, es))
  {
    hide Lex, Print, IsAnd, Placeholders;
    var alts := AsAlts(parts, es);
    assert Reads(parts[0], es[0]);
    if |parts| == 1 {
      assert WhereArgs(parts) == parts[0].args + WhereArgs([]) == OrArgs(alts);
    } else {
      JoinedIsOr(parts[1..], es[1..]);
      assert AsAlts(parts[1..], es[1..]) == alts[1..];
      LexOrWord();
      LexAppend(parts[0].text, " OR ");
      LexAppend(parts[0].text + " OR ", Joined(parts[1..], " OR "));
    }
  }

  ghost predicate AllAtoms(es: seq<Expr>) {
    forall i :: 0 <= i < |es| ==> IsAtom(es[i])
  }

  lemma AltsFit(parts: seq<Part>, es: seq<Expr>)
    requires AllRead(parts, es) && AllAtoms(es)
    ensures WellFormed(AsAlts(parts, es))
  {
    hide Lex, Print, IsAtom, IsAnd, Placeholders;
    forall k | 0 <= k < |es| ensures IsAtom(AsAlts(parts, es)[k].e) && |AsAlts(parts, es)[k].args| == Placeholders(es[k]) {
      assert Reads(parts[k], es[k]);
    }
  }

  lemma LexGroup(text: string)
    ensures Lex("(" + text + ")") == [LParen] + Lex(text) + [RParen]
  {
    LexOpenParen();
    LexCloseParen();
    hide Lex;
    LexAppend("(", text);
    LexAppend("(" + text, ")");
  }

  lemma GroupShape(g: Expr)
    requires IsOr(g)
    ensures IsAtom(Group(g)) && IsAnd(Group(g)) && Print(Group(g)) == [LParen] + Print(g) + [RParen]
    ensures Placeholders(Group(g)) == Placeholders(g)
  {
  }

  /** A group of conditions reads as one. */
  lemma GroupedReads(parts: seq<Part>, es: seq<Expr>, conjoin: bool)
    requires AllRead(parts, es) && AllAtoms(es) && parts != []
    ensures Reads(Grouped(parts, conjoin), GroupedExpr(parts, es, conjoin))
    ensures IsAtom(GroupedExpr(parts, es, conjoin))
  {
    LexGroup(Joined(parts, Separator(conjoin)));
    hide Lex, Print, IsAtom, IsAnd, IsOr, Placeholders, AllAtoms, Joined, WhereText, WhereArgs, OrExpr, ConjoinAll;
    if conjoin {
      JoinedIsWhere(parts);
      WherePrints(parts, es);
      AndIsOr(ConjoinAll(es));
      GroupShape(ConjoinAll(es));
    } else {
      JoinedIsOr(parts, es);
      AltsFit(parts, es);
      OrMeans(AsAlts(parts, es), map[]);
      GroupShape(OrExpr(AsAlts(parts, es)));
    }
  }

  lemma GroupAccepts(g: Expr, args: seq<string>, row: Row)
    ensures Accepts(Group(g), args, row) <==> Accepts(g, args, row)
    ensures Accepts(g, args, row) ==> (Holds(Group(g), args, row) <==> Holds(g, args, row))
  {
  }

  /** And says what its conditions say, all together or one of them. */
  lemma GroupedMeans(parts: seq<Part>, es: seq<Expr>, conjoin: bool, row: Row)
    requires AllRead(parts, es) && AllAtoms(es) && parts != []
    ensures var e, args := GroupedExpr(parts, es, conjoin), Grouped(parts, conjoin).args;
            && (Accepts(e, args, row) <==> AllAccept(parts, es, row))
            && (Accepts(e, args, row) ==>
                  (Holds(e, args, row) <==>
                   if conjoin then AllHold(parts, es, row)
                   else exists i :: 0 <= i < |es| && Holds(es[i], parts[i].args, row)))
  {
    hide Lex, Print, Parse, IsAtom, IsAnd, IsOr, Placeholders, AllAtoms, Joined, WhereText, WhereArgs, OrExpr, ConjoinAll,
      Accepts, Holds, WellFormed, OrArgs;
    var args := WhereArgs(parts);
    if conjoin {
      GroupAccepts(ConjoinAll(es), args, row);
      WhereIsConjunction(parts, es, row);
    } else {
      var alts := AsAlts(parts, es);
      GroupAccepts(OrExpr(alts), args, row);
      JoinedIsOr(parts, es);
      AltsFit(parts, es);
      OrMeans(alts, row);
      assert forall k :: 0 <= k < |es| ==> alts[k].e == es[k] && alts[k].args == parts[k].args;
    }
  }

  lemma ComparisonsRead(c: Clause, direct: bool, row: Row)
    requires IsColumnName(c.name) && Quotable(c, direct)
    ensures AllRead(Comparisons(c, direct), CompareExprs(c, direct)) && AllAtoms(CompareExprs(c, direct))
    ensures c.args != [] ==> (AllAccept(Comparisons(c, direct), CompareExprs(c, direct), row) <==> ClauseAccepts(c, row))
    ensures AllAccept(Comparisons(c, direct), CompareExprs(c, direct), row) && ClauseAccepts(c, row) ==>
              forall i :: 0 <= i < |c.args| ==>
                (Holds(CompareExprs(c, direct)[i], Comparisons(c, direct)[i].args, row) <==>
                 Equals(row[c.name], c.args[i]) != c.negated)
  {
    hide IsColumnName, Reads, IsAtom, WordLength, Accepts, Holds, Comparison, CompareExpr, Converts, Equals;
    var parts, es := Comparisons(c, direct), CompareExprs(c, direct);
    forall i | 0 <= i < |c.args|
      ensures Reads(parts[i], es[i]) && IsAtom(es[i])
      ensures Accepts(es[i], parts[i].args, row) <==> c.name in row && Converts(row[c.name], c.args[i])
      ensures Accepts(es[i], parts[i].args, row) ==>
                (Holds(es[i], parts[i].args, row) <==> Equals(row[c.name], c.args[i]) != c.negated)
    {
      assert es[i] == CompareExpr(c.name, c.negated, direct, c.args[i]);
      assert parts[i] == Comparison(c.name, c.negated, direct, c.args[i]);
      ComparisonReads(c.name, c.negated, direct, c.args[i]);
      if c.name in row {
        ComparisonMeans(c.name, c.negated, direct, c.args[i], row);
      } else {
        NeedsColumn(c.name, c.negated, direct, c.args[i], parts[i].args, row);
      }
    }
    if AllAccept(parts, es, row) && c.args != [] {
      assert Accepts(es[0], parts[0].args, row);
    }
  }

  lemma NeedsColumn(name: string, negated: bool, direct: bool, arg: string, args: seq<string>, row: Row)
    requires name !in row
    ensures !Accepts(CompareExpr(name, negated, direct, arg), args, row)
  {
  }

  /** A clause of any column reads as one condition, in either mode, and compares the column
      with all its values. */
  lemma ClauseMeans(c: Clause, direct: bool, row: Row)
    requires IsColumnName(c.name) && Quotable(c, direct) && c.args != []
    ensures var e, p := ClauseExpr(c, direct), ClausePart(c, direct);
            && Reads(p, e) && IsAtom(e)
            && (Accepts(e, p.args, row) <==> ClauseAccepts(c, row))
            && (Accepts(e, p.args, row) ==> (Holds(e, p.args, row) <==> ClauseHolds(c, row)))
  {
    hide IsColumnName, Reads, IsAtom, WordLength, Accepts, Holds, Comparisons, CompareExprs, Converts, Equals, Grouped,
      GroupedExpr, AllRead, AllAtoms;
    var parts, es := Comparisons(c, direct), CompareExprs(c, direct);
    CountsFit(c, direct);
    ComparisonsRead(c, direct, row);
    GroupedReads(parts, es, c.negated);
    GroupedMeans(parts, es, c.negated, row);
    if ClauseAccepts(c, row) {
      assert ClauseHolds(c, row) <==> if c.negated then AllHold(parts, es, row)
                                      else exists i :: 0 <= i < |es| && Holds(es[i], parts[i].args, row) by {
        if a :| a in c.args && Equals(row[c.name], a) {
          var i :| 0 <= i < |c.args| && c.args[i] == a;
          assert Holds(es[i], parts[i].args, row) <==> !c.negated;
        }
      }
    }
  }

  lemma CountsFit(c: Clause, direct: bool)
    ensures |Comparisons(c, direct)| == |CompareExprs(c, direct)| == |c.args|
  {
  }

  // ---- What a set of columns adds ----

  function ClauseExprs(cs: seq<Clause>, direct: bool): seq<Expr>
    requires forall c :: c in cs ==> c.args != []
  {
    seq(|cs|, i requires 0 <= i < |cs| => ClauseExpr(cs[i], direct))
  }

  function AddedExprs(params: seq<Param>, either: bool, direct: bool): seq<Expr> {
    var cs := AllClauses(params);
    if either && cs != [] then [GroupedExpr(ClauseParts(cs, direct), ClauseExprs(cs, direct), false)]
    else ClauseExprs(cs, direct)
  }

  /** The database takes the values. */
  ghost predicate AddedAccepts(params: seq<Param>, row: Row) {
    forall c :: c in AllClauses(params) ==> ClauseAccepts(c, row)
  }

  /** All clauses hold or, with OR, at least one if there are any. */
  ghost predicate AddedHolds(params: seq<Param>, either: bool, row: Row)
    requires AddedAccepts(params, row)
  {
    var cs := AllClauses(params);
    if either then cs == [] || exists c :: c in cs && ClauseHolds(c, row) else forall c :: c in cs ==> ClauseHolds(c, row)
  }

  ghost predicate Usable(params: seq<Param>, direct: bool) {
    forall c :: c in AllClauses(params) ==> IsColumnName(c.name) && Quotable(c, direct)
  }

  lemma ClausesMean(cs: seq<Clause>, direct: bool, row: Row)
    requires forall c :: c in cs ==> c.args != [] && IsColumnName(c.name) && Quotable(c, direct)
    ensures AllRead(ClauseParts(cs, direct), ClauseExprs(cs, direct)) && AllAtoms(ClauseExprs(cs, direct))
    ensures AllAccept(ClauseParts(cs, direct), ClauseExprs(cs, direct), row) <==> forall c :: c in cs ==> ClauseAccepts(c, row)
    ensures forall i :: 0 <= i < |cs| && ClauseAccepts(cs[i], row) ==>
              Accepts(ClauseExprs(cs, direct)[i], ClauseParts(cs, direct)[i].args, row)
              && (Holds(ClauseExprs(cs, direct)[i], ClauseParts(cs, direct)[i].args, row) <==> ClauseHolds(cs[i], row))
  {
    hide Reads, IsAtom, Accepts, Holds, ClauseAccepts, ClauseHolds, ClausePart, ClauseExpr, IsColumnName, Quotable;
    var parts, es := ClauseParts(cs, direct), ClauseExprs(cs, direct);
    forall i | 0 <= i < |cs|
      ensures Reads(parts[i], es[i]) && IsAtom(es[i])
      ensures Accepts(es[i], parts[i].args, row) <==> ClauseAccepts(cs[i], row)
      ensures Accepts(es[i], parts[i].args, row) ==> (Holds(es[i], parts[i].args, row) <==> ClauseHolds(cs[i], row))
    {
      assert cs[i] in cs;
      ClauseMeans(cs[i], direct, row);
    }
  }

  lemma {:induction false} AllConcat(parts: seq<Part>, es: seq<Expr>, parts': seq<Part>, es': seq<Expr>, row: Row)
    requires AllRead(parts, es) && AllRead(parts', es')
    ensures AllRead(parts + parts', es + es')
    ensures AllAccept(parts + parts', es + es', row) <==> AllAccept(parts, es, row) && AllAccept(parts', es', row)
    ensures AllAccept(parts + parts', es + es', row) ==>
              (AllHold(parts + parts', es + es', row) <==> AllHold(parts, es, row) && AllHold(parts', es', row))
  {
    hide Reads, AllAccept, AllHold;
    if parts' == [] {
      assert parts + parts' == parts && es + es' == es;
      NothingAll(row);
    } else {
      var k := |parts'| - 1;
      var ps, fs, p, f := parts'[..k], es'[..k], parts'[k], es'[k];
      assert parts' == ps + [p] && es' == fs + [f];
      AllConcat(parts, es, ps, fs, row);
      AllAppend(ps, fs, p, f, row);
      AllAppend(parts + ps, es + fs, p, f, row);
      assert parts + parts' == parts + ps + [p] && es + es' == es + fs + [f];
    }
  }

  lemma NothingAll(row: Row)
    ensures AllAccept([], [], row) && AllHold([], [], row)
  {
  }

  lemma AddedRead(params: seq<Param>, either: bool, direct: bool, row: Row)
    requires Usable(params, direct)
    ensures AllRead(Added(params, either, direct), AddedExprs(params, either, direct))
    ensures AllAccept(Added(params, either, direct), AddedExprs(params, either, direct), row) <==> AddedAccepts(params, row)
    ensures AddedAccepts(params, row) ==>
              (AllHold(Added(params, either, direct), AddedExprs(params, either, direct), row) <==>
               AddedHolds(params, either, row))
  {
    hide Reads, IsAtom, Accepts, Holds, ClauseAccepts, ClauseHolds, ClausePart, ClauseExpr, IsColumnName, Quotable,
      AllClauses, Grouped, GroupedExpr;
    var cs := AllClauses(params);
    var parts, es := ClauseParts(cs, direct), ClauseExprs(cs, direct);
    ClausesMean(cs, direct, row);
    if either && cs != [] {
      GroupedReads(parts, es, false);
      GroupedMeans(parts, es, false, row);
      OnlyOne(Grouped(parts, false), GroupedExpr(parts, es, false), row);
    }
    if AddedAccepts(params, row) {
      forall i | 0 <= i < |cs| ensures ClauseAccepts(cs[i], row) {
        assert cs[i] in cs;
      }
      assert (exists i :: 0 <= i < |cs| && Holds(es[i], parts[i].args, row)) <==> exists c :: c in cs && ClauseHolds(c, row);
      assert (forall i :: 0 <= i < |cs| ==> Holds(es[i], parts[i].args, row)) <==> forall c :: c in cs ==> ClauseHolds(c, row);
    }
  }

  lemma OnlyOne(p: Part, e: Expr, row: Row)
    ensures AllAccept([p], [e], row) <==> Accepts(e, p.args, row)
    ensures Accepts(e, p.args, row) ==> (AllHold([p], [e], row) <==> Holds(e, p.args, row))
  {
    hide Accepts, Holds;
    assert [p][0] == p && [e][0] == e;
  }

  /** Added to any query, the clauses of some columns select the rows that pass all of them, or
      with OR at least one, among those that the query selected; whatever is quoted. */
  lemma AddedMeans(q: seq<Part>, es: seq<Expr>, params: seq<Param>, either: bool, direct: bool, row: Row)
    requires AllRead(q, es) && Usable(params, direct)
    ensures AllRead(q + Added(params, either, direct), es + AddedExprs(params, either, direct))
    ensures AllAccept(q + Added(params, either, direct), es + AddedExprs(params, either, direct), row) <==>
            AllAccept(q, es, row) && AddedAccepts(params, row)
    ensures AllAccept(q + Added(params, either, direct), es + AddedExprs(params, either, direct), row) ==>
              (AllHold(q + Added(params, either, direct), es + AddedExprs(params, either, direct), row) <==>
               AllHold(q, es, row) && AddedHolds(params, either, row))
  {
    hide AllRead, AllAccept, AllHold, Added, AddedExprs, AddedAccepts, AddedHolds;
    AddedRead(params, either, direct, row);
    AllConcat(q, es, Added(params, either, direct), AddedExprs(params, either, direct), row);
  }

  // ---- The other way to build a query ----

  /** The values as the check of a filter leaves them. */
  function NormalizedValues(p: Param): seq<string>
    requires p.parse.Some?
  {
    seq(|p.values|, i requires 0 <= i < |p.values| => Normalized(p.values[i], p.parse.value))
  }

  lemma {:induction false} NormalizedSplit(p: Param)
    requires p.parse.Some? && forall s :: !Negated(p.parse.value(s))
    ensures Positives(NormalizedValues(p)) == ArgsOf(p, Positives(p.values))
    ensures Negatives(NormalizedValues(p)) == ArgsOf(p, Negatives(p.values))
    decreases |p.values|
  {
    hide TrimBangs, Negated, Normalized;
    if p.values != [] {
      var n := |p.values| - 1;
      var front := p.(values := p.values[..n]);
      NormalizedSplit(front);
      NormalizedOne(p.values[n], p.parse.value);
      assert NormalizedValues(p)[..n] == NormalizedValues(front);
    }
  }

  lemma NormalizedOne(s: string, parse: string -> string)
    requires !Negated(parse(TrimBangs(s)))
    ensures Negated(Normalized(s, parse)) <==> Negated(s)
    ensures Negated(s) ==> TrimBangs(Normalized(s, parse)) == parse(TrimBangs(s))
    ensures !Negated(s) ==> Normalized(s, parse) == parse(s) && TrimBangs(s) == s
  {
    TrimNegation(parse(TrimBangs(s)));
    TrimNegation(s);
  }

  lemma AskedAlone(p: Param)
    ensures AllClauses([p]) == ParamClauses(p)
  {
    assert [p][..0] == [] && [p][0] == p;
    assert AllClauses([]) == [];
  }

  /** For one column a prepared query and a checked filter turned into `IN` and `NOT IN` lists
      select the same rows, and a value is refused by both unless it is empty. */
  lemma CompilersAgree(p: Param, row: Row)
    requires p.parse.Some? && p.name in row && forall s :: !Negated(p.parse.value(s))
    ensures AnyBad([p]) <==> exists i :: 0 <= i < |p.values| && Refused(p.values[i], p.parse.value, true)
    ensures AddedAccepts([p], row) <==> ColumnConverts(NormalizedValues(p), row[p.name])
    ensures AddedAccepts([p], row) ==> (AddedHolds([p], false, row) <==> ColumnSelects(NormalizedValues(p), row[p.name]))
  {
    NormalizedSplit(p);
    RefusesTheSame(p);
    ParamMeans(p, row);
    hide Positives, Negatives, NormalizedValues, AddedAccepts, AddedHolds, AnyBad, Refused, Converts, Equals;
  }

  lemma RefusesTheSame(p: Param)
    requires p.parse.Some?
    ensures AnyBad([p]) <==> exists i :: 0 <= i < |p.values| && Refused(p.values[i], p.parse.value, true)
  {
    hide TrimBangs;
    assert [p][0] == p;
  }

  lemma ParamMeans(p: Param, row: Row)
    requires p.name in row
    ensures var pos, neg, v := ArgsOf(p, Positives(p.values)), ArgsOf(p, Negatives(p.values)), row[p.name];
            && (AddedAccepts([p], row) <==>
                (forall a :: a in pos ==> Converts(v, a)) && (forall a :: a in neg ==> Converts(v, a)))
            && (AddedAccepts([p], row) ==>
                  (AddedHolds([p], false, row) <==>
                   (pos == [] || exists a :: a in pos && Equals(v, a)) && (forall a :: a in neg ==> !Equals(v, a))))
  {
    hide Positives, Negatives, AllClauses, Converts, Equals, ArgsOf;
    AskedAlone(p);
    var pos, neg := ArgsOf(p, Positives(p.values)), ArgsOf(p, Negatives(p.values));
    var c, c' := Clause(p.name, false, pos), Clause(p.name, true, neg);
    assert pos != [] ==> c in ParamClauses(p);
    assert neg != [] ==> c' in ParamClauses(p);
    assert forall x :: x in ParamClauses(p) ==> x == c || x == c';
  }

  // ---- Building the text ----

  lemma {:induction false} JoinedAppend(parts: seq<Part>, p: Part, separator: string)
    ensures Joined(parts + [p], separator) == (if parts == [] then "" else Joined(parts, separator) + separator) + p.text
    ensures WhereArgs(parts + [p]) == WhereArgs(parts) + p.args
  {
    if parts == [] {
      assert [p][1..] == [] && [] + [p] == [p];
      assert WhereArgs([p]) == p.args + WhereArgs([]);
    } else {
      assert (parts + [p])[1..] == parts[1..] + [p];
      JoinedAppend(parts[1..], p, separator);
    }
  }

  lemma {:induction false} WhereTextAppend(parts: seq<Part>, parts': seq<Part>)
    ensures WhereArgs(parts + parts') == WhereArgs(parts) + WhereArgs(parts')
    ensures parts != [] && parts' != [] ==> WhereText(parts + parts') == WhereText(parts) + SEPARATOR + WhereText(parts')
  {
    if parts == [] {
      assert parts + parts' == parts';
    } else {
      assert (parts + parts')[1..] == parts[1..] + parts';
      WhereTextAppend(parts[1..], parts');
      assert parts[1..] == [] ==> parts[1..] + parts' == parts';
    }
  }

  /** What precedes the first clause of a call, and the others. */
  function Opening(first: bool, none: bool, either: bool): string {
    if none then (if first then " WHERE " else " AND ") + (if either then "(" else "") else Separator(!either)
  }

  /** The text added after some clauses of a call. */
  function SoFar(cs: seq<Clause>, first: bool, either: bool, direct: bool): string {
    if cs == [] then "" else Opening(first, true, either) + Joined(ClauseParts(cs, direct), Separator(!either))
  }

  lemma SoFarStep(cs: seq<Clause>, c: Clause, first: bool, either: bool, direct: bool)
    ensures SoFar(cs + [c], first, either, direct) ==
            SoFar(cs, first, either, direct) + Opening(first, cs == [], either) + ClausePart(c, direct).text
    ensures WhereArgs(ClauseParts(cs + [c], direct)) == WhereArgs(ClauseParts(cs, direct)) + ClausePart(c, direct).args
  {
    hide ClausePart, Joined;
    assert ClauseParts(cs + [c], direct) == ClauseParts(cs, direct) + [ClausePart(c, direct)];
    JoinedAppend(ClauseParts(cs, direct), ClausePart(c, direct), Separator(!either));
  }

  /** An unfinished clause: its parenthesis is open. */
  function OpenText(c: Clause, direct: bool): string {
    "(" + Joined(Comparisons(c, direct), Separator(c.negated))
  }

  lemma OpenStep(name: string, negated: bool, args: seq<string>, arg: string, direct: bool)
    ensures OpenText(Clause(name, negated, args + [arg]), direct) ==
            OpenText(Clause(name, negated, args), direct) + (if args == [] then "" else Separator(negated))
            + (name + Operation(negated, direct, arg))
    ensures WhereArgs(Comparisons(Clause(name, negated, args + [arg]), direct)) ==
            WhereArgs(Comparisons(Clause(name, negated, args), direct)) + if direct then [] else [arg]
    ensures var c := Clause(name, negated, args);
            args == [] ==> OpenText(c, direct) == "(" && WhereArgs(Comparisons(c, direct)) == []
  {
    hide Operation, Separator, Words;
    var c, c' := Clause(name, negated, args), Clause(name, negated, args + [arg]);
    assert args == [] ==> Comparisons(c, direct) == [];
    assert Comparisons(c', direct) == Comparisons(c, direct) + [Comparison(name, negated, direct, arg)];
    JoinedAppend(Comparisons(c, direct), Comparison(name, negated, direct, arg), Separator(negated));
  }

  lemma CloseText(c: Clause, direct: bool)
    ensures ClausePart(c, direct) == Part(OpenText(c, direct) + ")", WhereArgs(Comparisons(c, direct)))
  {
    hide Joined, Comparisons;
  }

  lemma OperationText(negated: bool, direct: bool, arg: string)
    ensures Operation(negated, direct, arg) ==
            (if negated then " != " else " = ") + (if direct then "" else "?") + (if direct then "'" + arg + "'" else "")
  {
  }

  /** The values one round looks at: the plain ones, then those negated. */
  function RoundValues(values: seq<string>, negated: bool): seq<string> {
    if negated then Negatives(values) else Positives(values)
  }

  lemma RoundStep(p: Param, negated: bool, i: nat)
    requires i < |p.values|
    ensures var v, now, before := p.values[i], RoundValues(p.values[..i + 1], negated), RoundValues(p.values[..i], negated);
            && now == (if Negated(v) == negated then before + [TrimBangs(v)] else before)
            && ArgsOf(p, now) ==
               (if Negated(v) == negated then ArgsOf(p, before) + [ArgOf(p, TrimBangs(v))] else ArgsOf(p, before))
  {
    assert p.values[..i + 1][..i] == p.values[..i];
  }

  predicate BadIn(p: Param, negated: bool, n: nat)
    requires n <= |p.values|
  {
    exists i :: 0 <= i < n && Negated(p.values[i]) == negated && BadValue(p, p.values[i])
  }

  function RoundClause(p: Param, negated: bool): seq<Clause> {
    var args := ArgsOf(p, RoundValues(p.values, negated));
    if args == [] then [] else [Clause(p.name, negated, args)]
  }

  /** A round in progress: nothing added yet, or an open clause with the values so far. */
  ghost predicate InRound(before: (string, seq<string>), opening: string, c: Clause, direct: bool,
                          query: string, args: seq<string>)
  {
    if c.args == [] then (query, args) == before
    else query == before.0 + opening + OpenText(c, direct) && args == before.1 + WhereArgs(Comparisons(c, direct))
  }

  lemma InRoundStep(before: (string, seq<string>), opening: string, c: Clause, direct: bool,
                    query: string, args: seq<string>, arg: string, query': string, args': seq<string>)
    requires InRound(before, opening, c, direct, query, args)
    requires query' == query + (if c.args == [] then opening + "(" else Separator(c.negated))
                       + (c.name + Operation(c.negated, direct, arg))
    requires args' == args + if direct then [] else [arg]
    ensures InRound(before, opening, Clause(c.name, c.negated, c.args + [arg]), direct, query', args')
  {
    hide Operation, OpenText, Comparisons, WhereArgs, Separator;
    OpenStep(c.name, c.negated, c.args, arg, direct);
    var added := c.name + Operation(c.negated, direct, arg);
    if c.args == [] {
      assert query' == before.0 + opening + ("(" + "" + added);
    } else {
      assert query' == before.0 + opening + (OpenText(c, direct) + Separator(c.negated) + added);
    }
  }

  lemma NoValues(p: Param, negated: bool)
    ensures p.values[..0] == [] && ArgsOf(p, RoundValues(p.values[..0], negated)) == [] && !BadIn(p, negated, 0)
  {
  }

  lemma NotYet(before: (string, seq<string>), opening: string, c: Clause, direct: bool)
    requires c.args == []
    ensures InRound(before, opening, c, direct, before.0, before.1)
  {
  }

  lemma EndRound(before: (string, seq<string>), opening: string, c: Clause, direct: bool, query: string, args: seq<string>)
    requires InRound(before, opening, c, direct, query, args)
    ensures if c.args == [] then (query, args) == before
            else query + ")" == before.0 + opening + ClausePart(c, direct).text && args == before.1 + ClausePart(c, direct).args
  {
    CloseText(c, direct);
    hide OpenText, ClausePart, Comparisons, WhereArgs;
  }

  lemma BadStep(p: Param, negated: bool, i: nat)
    requires i < |p.values|
    ensures BadIn(p, negated, i + 1) <==> BadIn(p, negated, i) || (Negated(p.values[i]) == negated && BadValue(p, p.values[i]))
    ensures BadIn(p, negated, i + 1) ==> BadIn(p, negated, |p.values|)
  {
    hide BadValue, Negated;
  }

  /** A call in progress: the text, arguments and first-flag after some clauses. */
  ghost predicate InCall(before: (string, seq<string>, bool), cs: seq<Clause>, either: bool, direct: bool,
                         query: string, args: seq<string>, first: bool) {
    && query == before.0 + SoFar(cs, before.2, either, direct)
    && args == before.1 + WhereArgs(ClauseParts(cs, direct))
    && first == (before.2 && cs == [])
  }

  lemma NothingAdded(params: seq<Param>, before: (string, seq<string>, bool), either: bool, direct: bool)
    ensures InCall(before, [], either, direct, before.0, before.1, before.2)
    ensures AllClauses(params[..0]) == [] && !AnyBad(params[..0])
  {
  }

  lemma InCallStep(before: (string, seq<string>, bool), cs: seq<Clause>, either: bool, direct: bool,
                   now: (string, seq<string>, bool), c: Clause, query: string, args: seq<string>, first: bool)
    requires InCall(before, cs, either, direct, now.0, now.1, now.2)
    requires query == now.0 + Opening(now.2, cs == [], either) + ClausePart(c, direct).text
    requires args == now.1 + ClausePart(c, direct).args && first == (now.2 && cs != [])
    ensures InCall(before, cs + [c], either, direct, query, args, first)
  {
    hide ClausePart, WhereArgs, ClauseParts, SoFar, Opening;
    SoFarStep(cs, c, before.2, either, direct);
    SameOpening(now.2, before.2, cs == [], either);
    Regroup(before.0, SoFar(cs, before.2, either, direct), Opening(before.2, cs == [], either), ClausePart(c, direct).text, "");
  }

  lemma SameOpening(first: bool, first': bool, none: bool, either: bool)
    requires none ==> first == first'
    ensures Opening(first, none, either) == Opening(first', none, either)
  {
  }

  lemma ParamStep(params: seq<Param>, j: nat)
    requires j < |params|
    ensures AllClauses(params[..j + 1]) == AllClauses(params[..j]) + ParamClauses(params[j])
    ensures ParamClauses(params[j]) == RoundClause(params[j], false) + RoundClause(params[j], true)
    ensures var p := params[j];
            AnyBad(params[..j + 1]) <==> AnyBad(params[..j]) || BadIn(p, false, |p.values|) || BadIn(p, true, |p.values|)
    ensures AnyBad(params[..j + 1]) ==> AnyBad(params)
  {
    var now := params[..j + 1];
    assert now[..j] == params[..j] && now[j] == params[j];
    hide BadValue, Negated, ArgsOf, Positives, Negatives;
    assert forall k :: 0 <= k < j ==> now[k] == params[..j][k];
  }

  lemma BothClauses(p: Param)
    ensures ParamClauses(p) == RoundClause(p, false) + RoundClause(p, true)
  {
    hide ArgsOf;
  }

  lemma WasFirst(before: (string, seq<string>, bool), cs: seq<Clause>, either: bool, direct: bool,
                 query: string, args: seq<string>, first: bool)
    requires InCall(before, cs, either, direct, query, args, first)
    ensures first == (before.2 && cs == [])
  {
  }

  /** The text of a query with some conditions. */
  function QueryText(base: string, parts: seq<Part>): string {
    base + (if parts == [] then "" else " WHERE " + WhereText(parts))
  }

  lemma QueryAppend(base: string, parts: seq<Part>, parts': seq<Part>)
    requires parts' != []
    ensures QueryText(base, parts + parts') ==
            QueryText(base, parts) + ((if parts == [] then " WHERE " else SEPARATOR) + WhereText(parts'))
  {
    hide WhereText;
    WhereTextAppend(parts, parts');
    if parts == [] {
      assert parts + parts' == parts';
    } else {
      Regroup(base, " WHERE ", WhereText(parts), SEPARATOR, WhereText(parts'));
    }
  }

  /** When all clauses are there and the group is closed, the query has its new parts. */
  lemma CallDone(base: string, parts: seq<Part>, params: seq<Param>, either: bool, direct: bool,
                 query: string, args: seq<string>, first: bool)
    requires InCall((QueryText(base, parts), WhereArgs(parts), parts == []), AllClauses(params), either, direct,
                    query, args, first)
    ensures var parts' := parts + Added(params, either, direct);
            && query + (if either && AllClauses(params) != [] then ")" else "") == QueryText(base, parts')
            && args == WhereArgs(parts') && first == (parts' == [])
  {
    hide AllClauses, ClauseParts, WhereText, WhereArgs, Added, SoFar, QueryText;
    var cs, added := AllClauses(params), Added(params, either, direct);
    AddedText(params, parts == [], either, direct);
    WhereTextAppend(parts, added);
    if cs == [] {
      assert parts + added == parts;
    } else {
      QueryAppend(base, parts, added);
      Regroup(QueryText(base, parts), SoFar(cs, parts == [], either, direct), if either then ")" else "", "", "");
    }
  }

  lemma Regroup(a: string, b: string, c: string, d: string, e: string)
    ensures a + (b + c) + d + e == a + b + c + (d + e)
    ensures a + b + (c + d + e) == a + b + c + (d + e)
    ensures a + b + c + d == a + (b + c + d) && a + b + c == a + (b + c)
  {
  }

  lemma AddedText(params: seq<Param>, first: bool, either: bool, direct: bool)
    ensures var cs, added := AllClauses(params), Added(params, either, direct);
            && WhereArgs(added) == WhereArgs(ClauseParts(cs, direct)) && (added == [] <==> cs == [])
            && SoFar(cs, first, either, direct) + (if either && cs != [] then ")" else "")
               == if cs == [] then "" else (if first then " WHERE " else SEPARATOR) + WhereText(added)
  {
    var cs, added := AllClauses(params), Added(params, either, direct);
    var parts := ClauseParts(cs, direct);
    assert |parts| == |cs|;
    hide AllClauses, ClauseParts, Joined, ClausePart, WhereText, WhereArgs;
    if cs == [] {
    } else if either {
      GroupText(parts);
      hide Grouped;
      Regroup(if first then " WHERE " else SEPARATOR, "(", Joined(parts, " OR "), ")", "");
    } else {
      JoinedIsWhere(parts);
    }
  }

  lemma GroupText(parts: seq<Part>)
    ensures WhereText([Grouped(parts, false)]) == "(" + Joined(parts, " OR ") + ")"
    ensures WhereArgs([Grouped(parts, false)]) == WhereArgs(parts)
  {
    hide Joined;
    assert WhereArgs([Grouped(parts, false)]) == WhereArgs(parts) + WhereArgs([]);
  }

  lemma OneClause(p: Param, negated: bool)
    ensures RoundClause(p, negated) != [] ==> RoundClause(p, negated) == [RoundClause(p, negated)[0]]
  {
    hide ArgsOf, RoundValues;
  }

  class PreparedQuery {
    var query: string
    var args: seq<string>
    var first: bool
    var noArgs: bool
    ghost var base: string
    ghost var parts: seq<Part>

    /** The query is its base and a WHERE text, if it has conditions. */
    ghost predicate Valid()
      reads this
    {
      && (first <==> parts == [])
      && query == QueryText(base, parts)
      && args == WhereArgs(parts)
    }

    constructor (baseQuery: string)
      ensures Valid() && parts == [] && base == baseQuery && !noArgs
    {
      query, args, first, noArgs := baseQuery, [], true, false;
      base, parts := baseQuery, [];
    }

    method SetDirectQuery(val: bool)
      modifies `noArgs
      ensures noArgs == val
    {
      noArgs := val;
    }

    /** What precedes the first value of a round. */
    method StartRound(firstForFunc: bool, doOr: bool)
      modifies `query, `first
      ensures query == old(query) + Opening(old(first), firstForFunc, doOr) + "("
      ensures first == (old(first) && !firstForFunc)
    {
      if firstForFunc {
        if first {
          query := query + " WHERE (";
          first := false;
        } else {
          query := query + " AND (";
        }
        if doOr {
          query := query + "(";
        }
      } else if doOr {
        query := query + " OR (";
      } else {
        query := query + " AND (";
      }
    }

    /** One value: its comparison and, unless it is quoted, its argument. */
    method AddValue(name: string, negated: bool, arg: string)
      modifies `query, `args
      ensures query == old(query) + (name + Operation(negated, noArgs, arg))
      ensures args == old(args) + if noArgs then [] else [arg]
    {
      var isMatch := (if negated then " != " else " = ") + (if noArgs then "" else "?");
      query := query + name + isMatch;
      if noArgs {
        query := query + "'" + arg + "'";
      } else {
        args := args + [arg];
      }
      OperationText(negated, noArgs, arg);
    }

    /** One value of a round, unless its function refuses it. */
    method TakeValue(p: Param, negated: bool, doOr: bool, firstForFunc: bool, isFirst: bool, param: string,
                     ghost before: (string, seq<string>), ghost opening: string, ghost c: Clause)
      returns (ok: bool)
      requires c.name == p.name && c.negated == negated && isFirst == (c.args == [])
      requires isFirst ==> opening == Opening(first, firstForFunc, doOr)
      requires InRound(before, opening, c, noArgs, query, args)
      modifies `query, `args, `first
      ensures ok <==> !BadValue(p, param)
      ensures ok ==> InRound(before, opening, Clause(p.name, negated, c.args + [ArgOf(p, TrimBangs(param))]), noArgs, query, args)
      ensures first == (old(first) && !(isFirst && firstForFunc))
    {
      hide Operation, TrimBangs, ArgOf, OpenText, Comparisons, Opening, Separator, InRound;
      var orOper := Separator(negated);
      var val := TrimBangs(param);
      ghost var query0, args0 := query, args;
      if isFirst {
        StartRound(firstForFunc, doOr);
      } else {
        query := query + orOper;
      }
      var arg := ArgOf(p, val);
      if p.parse.Some? && arg == "" && val != "" {
        return false;
      }
      AddValue(p.name, negated, arg);
      Regroup(query0, opening, "(", p.name + Operation(negated, noArgs, arg), "");
      assert query == query0 + (if c.args == [] then opening + "(" else Separator(negated))
                      + (p.name + Operation(negated, noArgs, arg));
      InRoundStep(before, opening, c, noArgs, query0, args0, arg, query, args);
      ok := true;
    }

    /** One of the two rounds over the values of a column. */
    method DoRound(p: Param, negated: bool, doOr: bool, firstForFunc: bool) returns (ok: bool, any: bool)
      modifies `query, `args, `first
      ensures ok <==> !BadIn(p, negated, |p.values|)
      ensures ok ==> (any <==> RoundClause(p, negated) != [])
      ensures ok ==> first == (old(first) && !(any && firstForFunc))
      ensures ok && any ==>
                var c := RoundClause(p, negated)[0];
                && query == old(query) + Opening(old(first), firstForFunc, doOr) + ClausePart(c, noArgs).text
                && args == old(args) + ClausePart(c, noArgs).args
      ensures ok && !any ==> query == old(query) && args == old(args)
    {
      hide WhereArgs, TrimBangs, ArgOf, OpenText, ClausePart, Comparisons, Opening, BadIn, BadValue, Positives, Negatives,
        InRound, ArgsOf, RoundValues, Negated;
      var firstForRound := -1;
      any := false;
      ghost var before, opening, c := (query, args), Opening(first, firstForFunc, doOr), Clause(p.name, negated, []);
      NoValues(p, negated);
      NotYet(before, opening, c, noArgs);
      for i := 0 to |p.values|
        invariant c.name == p.name && c.negated == negated && c.args == ArgsOf(p, RoundValues(p.values[..i], negated))
        invariant !BadIn(p, negated, i)
        invariant if c.args == [] then firstForRound == -1 && !any else 0 <= firstForRound < i && any
        invariant first == (old(first) && !(any && firstForFunc))
        invariant InRound(before, opening, c, noArgs, query, args)
      {
        RoundStep(p, negated, i);
        BadStep(p, negated, i);
        if Negated(p.values[i]) == negated {
          if firstForRound == -1 {
            firstForRound := i;
          }
          var fine := TakeValue(p, negated, doOr, firstForFunc, i == firstForRound, p.values[i], before, opening, c);
          if !fine {
            return false, any;
          }
          any := true;
          c := Clause(p.name, negated, c.args + [ArgOf(p, TrimBangs(p.values[i]))]);
        }
      }
      assert p.values[..|p.values|] == p.values;
      EndRound(before, opening, c, noArgs, query, args);
      if any {
        query := query + ")";
      }
      ok := true;
    }

    /** A round within a call. */
    method NextRound(p: Param, negated: bool, doOr: bool, firstForFunc: bool,
                     ghost before: (string, seq<string>, bool), ghost cs: seq<Clause>)
      returns (ok: bool, any: bool)
      requires InCall(before, cs, doOr, noArgs, query, args, first) && firstForFunc == (cs == [])
      modifies `query, `args, `first
      ensures ok <==> !BadIn(p, negated, |p.values|)
      ensures ok ==> (any <==> RoundClause(p, negated) != [])
      ensures ok ==> InCall(before, cs + RoundClause(p, negated), doOr, noArgs, query, args, first)
    {
      hide AnyBad, BadIn, AllClauses, RoundClause, WhereText, WhereArgs, Added, Opening, ClausePart, SoFar, ClauseParts;
      ghost var now := (query, args, first);
      WasFirst(before, cs, doOr, noArgs, query, args, first);
      ok, any := DoRound(p, negated, doOr, firstForFunc);
      if ok {
        OneClause(p, negated);
        if any {
          InCallStep(before, cs, doOr, noArgs, now, RoundClause(p, negated)[0], query, args, first);
        } else {
          assert cs + RoundClause(p, negated) == cs;
        }
      }
    }

    /** Both rounds over the values of a column. */
    method BothRounds(p: Param, doOr: bool, firstForFunc: bool,
                      ghost before: (string, seq<string>, bool), ghost cs: seq<Clause>)
      returns (ok: bool, any: bool)
      requires InCall(before, cs, doOr, noArgs, query, args, first) && firstForFunc == (cs == [])
      modifies `query, `args, `first
      ensures ok <==> !BadIn(p, false, |p.values|) && !BadIn(p, true, |p.values|)
      ensures ok ==> (any <==> ParamClauses(p) != [])
      ensures ok ==> InCall(before, cs + ParamClauses(p), doOr, noArgs, query, args, first)
    {
      hide InCall, BadIn, RoundClause, ParamClauses;
      BothClauses(p);
      ok, any := NextRound(p, false, doOr, firstForFunc, before, cs);
      if ok {
        ghost var cs1 := cs + RoundClause(p, false);
        var more;
        ok, more := NextRound(p, true, doOr, firstForFunc && !any, before, cs1);
        any := any || more;
        assert cs1 + RoundClause(p, true) == cs + ParamClauses(p);
      }
    }

    /** `doQueryArgSet`: the clauses of some columns, joined with AND like everything before them
        or as one group with OR. A value that its function refuses ends the query. */
    method DoQueryArgSet(params: seq<Param>, doOr: bool) returns (ok: bool)
      requires Valid()
      modifies this
      ensures noArgs == old(noArgs) && base == old(base)
      ensures ok <==> !AnyBad(params)
      ensures ok ==> Valid() && parts == old(parts) + Added(params, doOr, noArgs)
    {
      hide AnyBad, BadIn, AllClauses, InCall, RoundClause, ParamClauses, WhereText, WhereArgs, Added, Opening, ClausePart;
      var firstForFunc, closeOuter := true, false;
      ghost var before := (query, args, first);
      ghost var cs: seq<Clause> := [];
      NothingAdded(params, before, doOr, noArgs);
      for j := 0 to |params|
        invariant cs == AllClauses(params[..j]) && !AnyBad(params[..j])
        invariant InCall(before, cs, doOr, noArgs, query, args, first)
        invariant firstForFunc == (cs == []) && closeOuter == (doOr && cs != [])
        invariant noArgs == old(noArgs) && base == old(base) && parts == old(parts)
      {
        ParamStep(params, j);
        var fine, any := BothRounds(params[j], doOr, firstForFunc, before, cs);
        if !fine {
          return false;
        }
        cs := cs + ParamClauses(params[j]);
        firstForFunc := firstForFunc && !any;
        closeOuter := closeOuter || (any && doOr);
      }
      assert params[..|params|] == params;
      CallDone(base, parts, params, doOr, noArgs, query, args, first);
      if closeOuter {
        query := query + ")";
      }
      parts := parts + Added(params, doOr, noArgs);
      ok := true;
    }
  }
}
