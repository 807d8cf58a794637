/** The component filter's NID condition: text with hand-placed parentheses for ranges, and
    the plain column condition with negations. */
module NidQuery {
  import opened Wrappers
  import opened SqlText
  import opened SqlPieces
  import opened WhereClause
  import opened Alternatives
  import opened ColumnFilter

  // ---- What a filter selects ----

  /** The bigint of a filter value; -1 stands for values the database refuses. */
  function Nid(s: string): int {
    if ParseBigint(s).Some? then ParseBigint(s).value else -1
  }

  predicate InRange(start: seq<string>, end: seq<string>, i: nat, n: int)
    requires i < |start|
  {
    Nid(start[i]) <= n && (i < |end| ==> n <= Nid(end[i]))
  }

  /** One of the ranges, half-open leftovers or single NIDs covers n. */
  ghost predicate Covers(start: seq<string>, end: seq<string>, nid: seq<string>, n: int) {
    || (exists i :: 0 <= i < |start| && InRange(start, end, i, n))
    || (exists i :: |start| <= i < |end| && n <= Nid(end[i]))
    || (exists i :: 0 <= i < |nid| && n == Nid(nid[i]))
  }

  /** What the range condition selects: without any start, only non-negative NIDs. */
  ghost predicate Selects(start: seq<string>, end: seq<string>, nid: seq<string>, n: int) {
    Covers(start, end, nid, n) && (start == [] ==> n >= 0)
  }

  predicate AllNumeric(args: seq<string>) {
    forall i :: 0 <= i < |args| ==> ParseBigint(args[i]).Some?
  }

  // ---- The alternatives of a range condition ----

  function RangeAlt(col: string, start: seq<string>, end: seq<string>, i: nat): Alt
    requires i < |start|
  {
    if i < |end| then Alt(Group(AndOf(Cmp(col, Ge, Arg), Cmp(col, Le, Arg))), [start[i], end[i]])
    else Alt(Group(Cmp(col, Ge, Arg)), [start[i]])
  }

  function Alts(col: string, start: seq<string>, end: seq<string>, nid: seq<string>): seq<Alt> {
    seq(|start|, i requires 0 <= i < |start| => RangeAlt(col, start, end, i))
    + (if |end| > |start| then
         seq(|end| - |start|, i requires 0 <= i < |end| - |start| => Alt(Cmp(col, Le, Arg), [end[|start| + i]]))
       else [])
    + seq(|nid|, i requires 0 <= i < |nid| => Alt(Cmp(col, Eq, Arg), [nid[i]]))
  }

  // ---- The condition as a whole ----

  function NidExpr(col: string, start: seq<string>, end: seq<string>, nid: seq<string>): Expr
    requires start != [] || end != []
  {
    var alts := Alts(col, start, end, nid);
    if start == [] then AndOf(Group(OrExpr(alts)), Cmp(col, Ge, Const(0))) else Group(OrExpr(alts))
  }

  /** How many starts and ends come before the single NIDs. */
  function RangeCount(start: seq<string>, end: seq<string>): nat {
    if |end| > |start| then |end| else |start|
  }

  predicate AltCovers(start: seq<string>, end: seq<string>, nid: seq<string>, k: nat, n: int)
    requires k < RangeCount(start, end) + |nid|
  {
    if k < |start| then InRange(start, end, k, n)
    else if k < RangeCount(start, end) then n <= Nid(end[k])
    else n == Nid(nid[k - RangeCount(start, end)])
  }

  function AltArgs(start: seq<string>, end: seq<string>, nid: seq<string>, k: nat): seq<string>
    requires k < RangeCount(start, end) + |nid|
  {
    if k < |start| then if k < |end| then [start[k], end[k]] else [start[k]]
    else if k < RangeCount(start, end) then [end[k]]
    else [nid[k - RangeCount(start, end)]]
  }

  lemma CoversIsSomeAlt(start: seq<string>, end: seq<string>, nid: seq<string>, n: int)
    ensures Covers(start, end, nid, n) <==>
            exists k: nat :: k < RangeCount(start, end) + |nid| && AltCovers(start, end, nid, k, n)
  {
    hide Nid;
    var m := RangeCount(start, end);
    if Covers(start, end, nid, n) {
      if i: nat :| i < |start| && InRange(start, end, i, n) {
        assert AltCovers(start, end, nid, i, n);
      } else if i: nat :| |start| <= i < |end| && n <= Nid(end[i]) {
        assert AltCovers(start, end, nid, i, n);
      } else {
        var i: nat :| i < |nid| && n == Nid(nid[i]);
        assert AltCovers(start, end, nid, m + i, n);
      }
    }
    if k: nat :| k < m + |nid| && AltCovers(start, end, nid, k, n) {
      if k >= m {
        assert n == Nid(nid[k - m]);
      }
    }
  }

  lemma ArgsNumeric(start: seq<string>, end: seq<string>, nid: seq<string>)
    ensures (forall k: nat :: k < RangeCount(start, end) + |nid| ==> AllNumeric(AltArgs(start, end, nid, k)))
            <==> AllNumeric(start) && AllNumeric(end) && AllNumeric(nid)
  {
    var m := RangeCount(start, end);
    if forall k: nat :: k < m + |nid| ==> AllNumeric(AltArgs(start, end, nid, k)) {
      forall i: nat | i < |start| ensures ParseBigint(start[i]).Some? {
        assert AltArgs(start, end, nid, i)[0] == start[i];
      }
      forall i: nat | i < |end| ensures ParseBigint(end[i]).Some? {
        var args := AltArgs(start, end, nid, i);
        assert args[|args| - 1] == end[i];
      }
      forall i: nat | i < |nid| ensures ParseBigint(nid[i]).Some? {
        assert AltArgs(start, end, nid, m + i)[0] == nid[i];
      }
    }
  }

  lemma AltsCount(col: string, start: seq<string>, end: seq<string>, nid: seq<string>)
    ensures |Alts(col, start, end, nid)| == RangeCount(start, end) + |nid|
  {
  }

  lemma AltAt(col: string, start: seq<string>, end: seq<string>, nid: seq<string>, k: nat)
    requires k < RangeCount(start, end) + |nid|
    ensures |Alts(col, start, end, nid)| == RangeCount(start, end) + |nid|
    ensures Alts(col, start, end, nid)[k] ==
            if k < |start| && k < |end| then Alt(Group(AndOf(Cmp(col, Ge, Arg), Cmp(col, Le, Arg))), [start[k], end[k]])
            else if k < |start| then Alt(Group(Cmp(col, Ge, Arg)), [start[k]])
            else if k < |end| then Alt(Cmp(col, Le, Arg), [end[k]])
            else Alt(Cmp(col, Eq, Arg), [nid[k - RangeCount(start, end)]])
  {
  }

  lemma AltMeans(col: string, start: seq<string>, end: seq<string>, nid: seq<string>, row: Row, k: nat)
    requires col in row && row[col].IntVal? && k < RangeCount(start, end) + |nid|
    ensures |Alts(col, start, end, nid)| == RangeCount(start, end) + |nid|
    ensures var alt := Alts(col, start, end, nid)[k];
            && IsAtom(alt.e) && |alt.args| == Placeholders(alt.e)
            && alt.args == AltArgs(start, end, nid, k)
            && (Accepts(alt.e, alt.args, row) <==> AllNumeric(alt.args))
            && (Accepts(alt.e, alt.args, row) ==>
                  (Holds(alt.e, alt.args, row) <==> AltCovers(start, end, nid, k, row[col].n)))
  {
    var alt := Alts(col, start, end, nid)[k];
    if k < |start| {
      assert alt == RangeAlt(col, start, end, k);
      BoundsMean(col, start[k], if k < |end| then end[k] else start[k], row);
    }
  }

  /** The two parenthesized bounds of a range, and a lone lower bound. */
  lemma BoundsMean(col: string, lo: string, hi: string, row: Row)
    requires col in row && row[col].IntVal?
    ensures var e, args := Group(AndOf(Cmp(col, Ge, Arg), Cmp(col, Le, Arg))), [lo, hi];
            && IsAtom(e) && Placeholders(e) == 2
            && (Accepts(e, args, row) <==> AllNumeric(args))
            && (Accepts(e, args, row) ==> (Holds(e, args, row) <==> Nid(lo) <= row[col].n <= Nid(hi)))
    ensures var e, args := Group(Cmp(col, Ge, Arg)), [lo];
            && IsAtom(e) && Placeholders(e) == 1
            && (Accepts(e, args, row) <==> AllNumeric(args))
            && (Accepts(e, args, row) ==> (Holds(e, args, row) <==> Nid(lo) <= row[col].n))
  {
    var a, b := Cmp(col, Ge, Arg), Cmp(col, Le, Arg);
    var both, args := AndOf(a, b), [lo, hi];
    hide ParseBigint;
    assert Placeholders(a) == 1 && Placeholders(b) == 1 && Placeholders(both) == 2;
    assert IsAtom(a) && IsAnd(b) && IsAnd(both) && IsOr(both) && IsOr(a);
    assert args[..1] == [lo] && args[1..] == [hi];
    assert Accepts(both, args, row) <==> Accepts(a, [lo], row) && Accepts(b, [hi], row);
    assert AllNumeric(args) <==> ParseBigint(args[0]).Some? && ParseBigint(args[1]).Some?;
    assert Accepts(Group(both), args, row) <==> Accepts(both, args, row);
    if Accepts(both, args, row) {
      assert Holds(a, [lo], row) <==> row[col].n >= Nid(lo);
      assert Holds(b, [hi], row) <==> row[col].n <= Nid(hi);
      assert Holds(both, args, row) <==> Holds(a, [lo], row) && Holds(b, [hi], row);
    }
    assert AllNumeric([lo]) <==> ParseBigint([lo][0]).Some?;
    assert Accepts(Group(a), [lo], row) <==> Accepts(a, [lo], row);
  }

  lemma AltsMean(col: string, start: seq<string>, end: seq<string>, nid: seq<string>, row: Row)
    requires start != [] || end != []
    requires col in row && row[col].IntVal?
    ensures var e, args := OrExpr(Alts(col, start, end, nid)), OrArgs(Alts(col, start, end, nid));
            && Placeholders(e) == |args|
            && (Accepts(e, args, row) <==> AllNumeric(start) && AllNumeric(end) && AllNumeric(nid))
            && (Accepts(e, args, row) ==> (Holds(e, args, row) <==> Covers(start, end, nid, row[col].n)))
  {
    hide Accepts, Holds, Placeholders, Alts, OrExpr, OrArgs, IsAtom, AltCovers, AltArgs, AllNumeric, Covers;
    var alts, n := Alts(col, start, end, nid), row[col].n;
    AltsCount(col, start, end, nid);
    assert |alts| == RangeCount(start, end) + |nid|;
    forall k: nat | k < |alts|
      ensures IsAtom(alts[k].e) && |alts[k].args| == Placeholders(alts[k].e)
      ensures Accepts(alts[k].e, alts[k].args, row) <==> AllNumeric(AltArgs(start, end, nid, k))
      ensures Accepts(alts[k].e, alts[k].args, row) ==>
                (Holds(alts[k].e, alts[k].args, row) <==> AltCovers(start, end, nid, k, n))
    {
      AltMeans(col, start, end, nid, row, k);
    }
    OrMeans(alts, row);
    ArgsNumeric(start, end, nid);
    CoversIsSomeAlt(start, end, nid, n);
  }

  lemma NidExprMeans(col: string, start: seq<string>, end: seq<string>, nid: seq<string>, row: Row)
    requires start != [] || end != []
    requires col in row && row[col].IntVal?
    ensures var e, args := NidExpr(col, start, end, nid), OrArgs(Alts(col, start, end, nid));
            && Placeholders(e) == |args|
            && (Accepts(e, args, row) <==> AllNumeric(start) && AllNumeric(end) && AllNumeric(nid))
            && (Accepts(e, args, row) ==> (Holds(e, args, row) <==> Selects(start, end, nid, row[col].n)))
  {
    AltsMean(col, start, end, nid, row);
    var args := OrArgs(Alts(col, start, end, nid));
    assert args[..|args|] == args && args[|args|..] == [];
  }

  // ---- The text ----

  /** After the given alternatives: one open parenthesis, then they joined with OR. */
  ghost predicate Building(query: string, args: seq<string>, done: seq<Alt>) {
    && args == OrArgs(done) && EndsClean(query)
    && (done == [] ==> query == "")
    && (done != [] ==> Lex(query) == [LParen] + OrTokens(done))
  }

  /** Tokens of an alternative's text before its comparison's operator. */
  function Opening(done: seq<Alt>): seq<Token> {
    [if done == [] then LParen else Or]
  }

  lemma AddAlt(query: string, args: seq<string>, done: seq<Alt>, alt: Alt, next: string)
    requires Building(query, args, done) && EndsClean(next)
    requires Lex(next) == Lex(query) + Opening(done) + Print(alt.e)
    requires next != ""
    ensures Building(next, args + alt.args, done + [alt])
  {
    hide Lex, OrTokens, OrArgs, Print;
    OrAppend(done, alt);
    if done == [] {
      LexNothing();
      assert Lex(next) == [LParen] + Print(alt.e);
    } else {
      assert Lex(next) == [LParen] + (OrTokens(done) + [Or] + Print(alt.e));
    }
  }

  /** Adding `opener col op ?`, where the opener is "(" or "OR". */
  lemma AddComparison(query: string, args: seq<string>, done: seq<Alt>, col: string, op: Op, arg: string,
                      opener: string, piece: string)
    requires IsColumnName(col) && Building(query, args, done)
    requires EndsClean(opener) && opener != "" && IsDelimiter(opener[0]) && Lex(opener) == Opening(done)
    requires EndsClean(piece) && piece != "" && piece[0] == ' ' && Lex(piece) == [Compare(op), Placeholder]
    ensures Building(query + opener + col + piece, args + [arg], done + [Alt(Cmp(col, op, Arg), [arg])])
  {
    LexAppend(query, opener);
    LexComparison(query + opener, col, piece, [Compare(op), Placeholder]);
    AddAlt(query, args, done, Alt(Cmp(col, op, Arg), [arg]), query + opener + col + piece);
  }

  /** Adding a range: its opener, its lower bound, and its upper bound or just a parenthesis. */
  lemma AddRange(query: string, args: seq<string>, done: seq<Alt>, col: string, alt: Alt,
                 opener: string, atLeast: string, close: string)
    requires IsColumnName(col) && Building(query, args, done)
    requires EndsClean(opener) && opener != "" && IsDelimiter(opener[0]) && Lex(opener) == Opening(done) + [LParen]
    requires EndsClean(atLeast) && atLeast != "" && atLeast[0] == ' ' && Lex(atLeast) == [Compare(Ge), Placeholder]
    requires EndsClean(close) && close != "" && IsDelimiter(close[0])
    requires Print(alt.e) == [LParen, Column(col), Compare(Ge), Placeholder] + Lex(close)
    ensures Building(query + opener + col + atLeast + close, args + alt.args, done + [alt])
  {
    hide Lex, OrTokens, OrArgs, Print, IsColumnName, Building;
    var lower := query + opener + col + atLeast;
    LexAppend(query, opener);
    LexComparison(query + opener, col, atLeast, [Compare(Ge), Placeholder]);
    LexAppend(lower, close);
    assert Lex(lower + close) == Lex(query) + Opening(done) + Print(alt.e);
    AddAlt(query, args, done, alt, lower + close);
  }

  lemma LexUpperBound(col: string, andWord: string, atMost: string)
    requires IsColumnName(col)
    requires EndsClean(andWord) && andWord != "" && Lex(andWord) == [And]
    requires atMost != "" && atMost[0] == ' ' && Lex(atMost) == [Compare(Le), Placeholder, RParen]
    ensures Lex(andWord + col + atMost) == [And, Column(col), Compare(Le), Placeholder, RParen]
  {
    LexComparison(andWord, col, atMost, [Compare(Le), Placeholder, RParen]);
  }

  lemma PrintRange(col: string)
    ensures Print(Group(AndOf(Cmp(col, Ge, Arg), Cmp(col, Le, Arg)))) ==
            [LParen, Column(col), Compare(Ge), Placeholder, And, Column(col), Compare(Le), Placeholder, RParen]
    ensures Print(Group(Cmp(col, Ge, Arg))) == [LParen, Column(col), Compare(Ge), Placeholder, RParen]
  {
    assert Print(AndOf(Cmp(col, Ge, Arg), Cmp(col, Le, Arg))) ==
           Print(Cmp(col, Ge, Arg)) + [And] + Print(Cmp(col, Le, Arg));
  }

  /** Opens the range with the given number and adds its lower and, if paired, upper bound. */
  method RangePiece(query: string, col: string, ghost args: seq<string>, ghost done: seq<Alt>, i: nat,
                    paired: bool, lo: string, hi: string)
    returns (next: string)
    requires IsColumnName(col) && Building(query, args, done) && (i > 0 <==> done != [])
    ensures var alt := if paired then Alt(Group(AndOf(Cmp(col, Ge, Arg), Cmp(col, Le, Arg))), [lo, hi])
                       else Alt(Group(Cmp(col, Ge, Arg)), [lo]);
            Building(next, args + alt.args, done + [alt])
  {
    hide Lex, OrTokens, OrArgs, IsColumnName, Building, Print;
    PrintRange(col);
    var opener := if i > 0 then " OR (" else "((";
    LexOrParen();
    LexTwoParens();
    var close := if paired then " AND " + col + " <= ?)" else ")";
    LexAtLeast();
    if paired {
      LexAndWord();
      LexAtMostClose();
      LexUpperBound(col, " AND ", " <= ?)");
      assert Lex(close) == [And, Column(col), Compare(Le), Placeholder, RParen];
    } else {
      LexCloseParen();
    }
    ghost var alt := if paired then Alt(Group(AndOf(Cmp(col, Ge, Arg), Cmp(col, Le, Arg))), [lo, hi])
                     else Alt(Group(Cmp(col, Ge, Arg)), [lo]);
    AddRange(query, args, done, col, alt, opener, " >= ?", close);
    next := query + opener + col + " >= ?" + close;
  }

  lemma BuildingNothing()
    ensures Building("", [], [])
  {
  }

  method EndPiece(query: string, col: string, ghost args: seq<string>, ghost done: seq<Alt>, i: nat, hi: string)
    returns (next: string)
    requires IsColumnName(col) && Building(query, args, done) && (i > 0 <==> done != [])
    ensures Building(next, args + [hi], done + [Alt(Cmp(col, Le, Arg), [hi])])
  {
    hide Lex, OrTokens, OrArgs, IsColumnName, Building, Print;
    var opener := if i > 0 then " OR " else " (";
    LexOrWord();
    LexSpaceParen();
    LexAtMost();
    AddComparison(query, args, done, col, Le, hi, opener, " <= ?");
    next := query + opener + col + " <= ?";
  }

  method SinglePiece(query: string, col: string, ghost args: seq<string>, ghost done: seq<Alt>, one: string)
    returns (next: string)
    requires IsColumnName(col) && Building(query, args, done) && done != []
    ensures Building(next, args + [one], done + [Alt(Cmp(col, Eq, Arg), [one])])
  {
    hide Lex, OrTokens, OrArgs, IsColumnName, Building, Print;
    LexOrWord();
    LexEqual();
    AddComparison(query, args, done, col, Eq, one, " OR ", " = ?");
    next := query + " OR " + col + " = ?";
  }

  /** Closes the alternatives and, without any start, asks for non-negative NIDs. */
  method ClosePiece(query: string, col: string, args: seq<string>, start: seq<string>, end: seq<string>,
                    nid: seq<string>)
    returns (part: Part)
    requires IsColumnName(col) && (start != [] || end != [])
    requires Building(query, args, Alts(col, start, end, nid))
    ensures Reads(part, NidExpr(col, start, end, nid))
    ensures part.args == OrArgs(Alts(col, start, end, nid))
  {
    hide Lex, OrTokens, OrArgs, IsColumnName, Print, Alts, NidExpr;
    ghost var alts := Alts(col, start, end, nid);
    AltsCount(col, start, end, nid);
    var close := if |start| == 0 then ") AND " + col + " >= 0" else ")";
    if |start| == 0 {
      LexCloseAnd();
      LexNonNegative();
      LexComparison(") AND ", col, " >= 0", [Compare(Ge), Number(0)]);
    } else {
      LexCloseParen();
    }
    LexAppend(query, close);
    NidExprPrints(col, start, end, nid);
    part := Part(query + close, args);
  }

  lemma NidExprPrints(col: string, start: seq<string>, end: seq<string>, nid: seq<string>)
    requires start != [] || end != []
    ensures var e, alts := NidExpr(col, start, end, nid), Alts(col, start, end, nid);
            && IsAnd(e) && Placeholders(e) == |OrArgs(alts)|
            && Print(e) == [LParen] + OrTokens(alts) +
                           (if start == [] then [RParen, And, Column(col), Compare(Ge), Number(0)] else [RParen])
  {
    var alts := Alts(col, start, end, nid);
    AltsCount(col, start, end, nid);
    forall k: nat | k < |alts| ensures IsAtom(alts[k].e) && |alts[k].args| == Placeholders(alts[k].e) {
      AltMeans(col, start, end, nid, map[col := IntVal(0)], k);
    }
    OrMeans(alts, map[col := IntVal(0)]);
    var g, c := Group(OrExpr(alts)), Cmp(col, Ge, Const(0));
    assert Print(g) == [LParen] + OrTokens(alts) + [RParen];
    assert Print(AndOf(g, c)) == Print(g) + [And] + Print(c);
    assert IsAtom(g) && IsAnd(c) && IsAnd(AndOf(g, c));
    assert Placeholders(AndOf(g, c)) == Placeholders(g) + Placeholders(c);
  }

  /** The range condition of a filter with starts or ends, grown piece by piece. */
  method NidRangeClause(col: string, start: seq<string>, end: seq<string>, nid: seq<string>)
    returns (part: Part)
    requires IsColumnName(col) && (start != [] || end != [])
    ensures Reads(part, NidExpr(col, start, end, nid))
    ensures part.args == OrArgs(Alts(col, start, end, nid))
  {
    hide Lex, OrTokens, OrArgs, IsColumnName, Building, Print, Reads, NidExpr, EndsClean, Alts, RangeAlt;
    var query, args := "", [];
    ghost var alts := Alts(col, start, end, nid);
    ghost var m := RangeCount(start, end);
    AltsCount(col, start, end, nid);
    BuildingNothing();
    for i := 0 to |start|
      invariant Building(query, args, alts[..i])
    {
      ghost var before := args;
      AltAt(col, start, end, nid, i);
      query := RangePiece(query, col, args, alts[..i], i, |end| >= i + 1, start[i],
                          if |end| >= i + 1 then end[i] else "");
      args := args + [start[i]];
      if |end| >= i + 1 {
        args := args + [end[i]];
        assert args == before + [start[i], end[i]];
      }
      assert alts[..i + 1] == alts[..i] + [alts[i]];
    }
    var i := |start|;
    while i < |end|
      invariant |start| <= i <= m
      invariant Building(query, args, alts[..i])
    {
      query := EndPiece(query, col, args, alts[..i], i, end[i]);
      args := args + [end[i]];
      AltAt(col, start, end, nid, i);
      assert alts[..i + 1] == alts[..i] + [alts[i]];
      i := i + 1;
    }
    for i := 0 to |nid|
      invariant Building(query, args, alts[..m + i])
    {
      query := SinglePiece(query, col, args, alts[..m + i], nid[i]);
      args := args + [nid[i]];
      AltAt(col, start, end, nid, m + i);
      assert alts[..m + i + 1] == alts[..m + i] + [alts[m + i]];
    }
    assert alts[..m + |nid|] == alts;
    part := ClosePiece(query, col, args, start, end, nid);
  }

  // ---- The condition in a query ----

  /** The NID fields of a component filter. */
  datatype NidFilter = NidFilter(start: seq<string>, end: seq<string>, nid: seq<string>)

  predicate HasRanges(f: NidFilter) {
    f.start != [] || f.end != []
  }

  /** A query with the NID condition of a filter added. */
  ghost predicate NidWhere(q: seq<Part>, q': seq<Part>, col: string, f: NidFilter) {
    if HasRanges(f) then
      && |q'| == |q| + 1 && q' == q + [q'[|q|]]
      && Reads(q'[|q|], NidExpr(col, f.start, f.end, f.nid))
      && q'[|q|].args == OrArgs(Alts(col, f.start, f.end, f.nid))
    else q' == q + ColumnParts(col, f.nid)
  }

  method WhereComponentNIDCol(q: seq<Part>, alias: string, f: Option<NidFilter>) returns (q': seq<Part>)
    requires IsColumnName(alias + ".nid")
    ensures if f.None? then q' == q else NidWhere(q, q', alias + ".nid", f.value)
  {
    if f.None? {
      return q;
    }
    var nidCol := alias + ".nid";
    var f := f.value;
    if |f.start| > 0 || |f.end| > 0 {
      var part := NidRangeClause(nidCol, f.start, f.end, f.nid);
      q' := q + [part];
    } else if |f.nid| > 0 {
      q' := WhereComponentCol(q, nidCol, Some(f.nid));
    } else {
      q' := q;
    }
  }

  function NidExprs(col: string, f: NidFilter): seq<Expr> {
    if HasRanges(f) then [NidExpr(col, f.start, f.end, f.nid)] else ColumnExprs(col, f.nid)
  }

  /** The database can convert all the filter's values. */
  predicate NidAccepted(f: NidFilter) {
    if HasRanges(f) then AllNumeric(f.start) && AllNumeric(f.end) && AllNumeric(f.nid)
    else AllNumeric(Positives(f.nid)) && AllNumeric(Negatives(f.nid))
  }

  lemma ConvertsIsNumeric(args: seq<string>, n: int)
    ensures AllNumeric(args) <==> forall a :: a in args ==> Converts(IntVal(n), a)
  {
    hide ParseBigint;
    if forall a :: a in args ==> Converts(IntVal(n), a) {
      forall i | 0 <= i < |args| ensures ParseBigint(args[i]).Some? {
        assert args[i] in args;
      }
    }
  }

  /** What the whole filter selects: ranges, half-open leftovers and single NIDs; or, without
      ranges, the NIDs listed, except those negated. */
  ghost predicate NidSelects(f: NidFilter, n: int) {
    if HasRanges(f) then Selects(f.start, f.end, f.nid, n)
    else ColumnConverts(f.nid, IntVal(n)) && ColumnSelects(f.nid, IntVal(n))
  }

  lemma NidPartMeans(q: seq<Part>, es: seq<Expr>, q': seq<Part>, col: string, f: NidFilter, row: Row)
    requires AllRead(q, es) && IsColumnName(col) && col in row && row[col].IntVal? && NidWhere(q, q', col, f)
    ensures AllRead(q', es + NidExprs(col, f))
    ensures AllAccept(q', es + NidExprs(col, f), row) <==> AllAccept(q, es, row) && NidAccepted(f)
    ensures AllAccept(q', es + NidExprs(col, f), row) ==>
              (AllHold(q', es + NidExprs(col, f), row) <==> AllHold(q, es, row) && NidSelects(f, row[col].n))
  {
    hide AllRead, AllAccept, AllHold, Accepts, Holds, NidExpr, Alts, OrArgs, IsColumnName, Selects, ColumnSelects, Reads;
    if HasRanges(f) {
      NidExprMeans(col, f.start, f.end, f.nid, row);
      AllAppend(q, es, q'[|q|], NidExpr(col, f.start, f.end, f.nid), row);
    } else {
      ColumnMeans(q, es, col, f.nid, row);
      ConvertsIsNumeric(Positives(f.nid), row[col].n);
      ConvertsIsNumeric(Negatives(f.nid), row[col].n);
    }
  }

  /** The generated WHERE text, with the NID condition among any other conditions: it parses,
      takes one argument per placeholder, is accepted exactly when all values are numbers the
      database can hold, and then selects what the filter describes among what the other
      conditions select. */
  lemma NidFilterSelects(q: seq<Part>, es: seq<Expr>, q': seq<Part>, col: string, f: NidFilter, row: Row)
    requires AllRead(q, es) && IsColumnName(col) && col in row && row[col].IntVal?
    requires NidWhere(q, q', col, f) && q' != []
    ensures var e := Parse(Lex(WhereText(q')));
            && e.Some? && |WhereArgs(q')| == Placeholders(e.value)
            && (Accepts(e.value, WhereArgs(q'), row) <==> AllAccept(q, es, row) && NidAccepted(f))
            && (Accepts(e.value, WhereArgs(q'), row) ==>
                  (Holds(e.value, WhereArgs(q'), row) <==> AllHold(q, es, row) && NidSelects(f, row[col].n)))
  {
    hide Parse, Lex, WhereText, WhereArgs, Accepts, Holds, NidExprs, NidWhere, NidSelects, NidAccepted;
    NidPartMeans(q, es, q', col, f, row);
    WhereIsConjunction(q', es + NidExprs(col, f), row);
    WherePrints(q', es + NidExprs(col, f));
  }
}
