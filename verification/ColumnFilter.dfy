/** Filtering a column by a list of values, some of them negated with a leading `!`. */
module ColumnFilter {
  import opened Wrappers
  import opened SqlText
  import opened SqlPieces
  import opened WhereClause

  predicate Negated(arg: string) {
    arg != "" && arg[0] == '!'
  }

  /** `strings.TrimLeft(arg, "!")` */
  function TrimBangs(arg: string): (r: string)
    ensures !Negated(r)
  {
    if Negated(arg) then TrimBangs(arg[1..]) else arg
  }

  function Positives(args: seq<string>): seq<string> {
    if args == [] then []
    else
      var n := |args| - 1;
      if Negated(args[n]) then Positives(args[..n]) else Positives(args[..n]) + [args[n]]
  }

  function Negatives(args: seq<string>): seq<string> {
    if args == [] then []
    else
      var n := |args| - 1;
      if Negated(args[n]) then Negatives(args[..n]) + [TrimBangs(args[n])] else Negatives(args[..n])
  }

  method SplitSliceWithNegations(args: seq<string>) returns (pos: seq<string>, neg: seq<string>)
    ensures pos == Positives(args) && neg == Negatives(args)
  {
    pos, neg := [], [];
    for i := 0 to |args|
      invariant pos == Positives(args[..i]) && neg == Negatives(args[..i])
    {
      var arg := args[i];
      assert args[..i + 1][..i] == args[..i];
      if Negated(arg) {
        neg := neg + [TrimBangs(arg)];
      } else {
        pos := pos + [arg];
      }
    }
    assert args[..|args|] == args;
  }

  /** The two lists hold exactly the plain values and the values that were negated. */
  lemma {:induction false} SplitKeepsAll(args: seq<string>, x: string)
    ensures x in Positives(args) <==> x in args && !Negated(x)
    ensures x in Negatives(args) <==> exists arg :: arg in args && Negated(arg) && x == TrimBangs(arg)
    ensures |Positives(args)| + |Negatives(args)| == |args|
  {
    if args != [] {
      var n := |args| - 1;
      assert args == args[..n] + [args[n]];
      SplitKeepsAll(args[..n], x);
    }
  }

  // ---- The text of a list condition ----

  function PlaceholderText(count: nat): string {
    if count <= 1 then "?" else "?," + PlaceholderText(count - 1)
  }

  lemma {:induction false} LexPlaceholderText(count: nat)
    requires count > 0
    ensures Lex(PlaceholderText(count)) == PlaceholderList(count)
  {
    if count == 1 {
      LexPlaceholder();
    } else {
      hide Lex;
      LexPlaceholderText(count - 1);
      LexPlaceholderComma();
      LexAppend("?,", PlaceholderText(count - 1));
    }
  }

  function ListText(col: string, negated: bool, count: nat): string {
    col + (if negated then " NOT" + " IN (" else " IN (") + PlaceholderText(count) + ")"
  }

  lemma LexList(col: string, opener: string, ts: seq<Token>, list: string, close: string)
    requires IsColumnName(col)
    requires opener != "" && opener[0] == ' ' && IsDelimiter(opener[|opener| - 1]) && Lex(opener) == ts
    requires close != "" && IsDelimiter(close[0]) && Lex(close) == [RParen]
    ensures Lex(col + opener + list + close) == [Column(col)] + ts + Lex(list) + [RParen]
  {
    LexColumn(col);
    hide Lex, IsColumnName;
    LexAppend(col, opener);
    LexAppend(col + opener, list);
    LexAppend(col + opener + list, close);
  }

  lemma LexNotInOpen()
    ensures Lex(" NOT" + " IN (") == [Not, In, LParen]
  {
    LexNotWord();
    LexInOpen();
    hide Lex;
    LexAppend(" NOT", " IN (");
  }

  lemma ListReads(col: string, negated: bool, args: seq<string>)
    requires IsColumnName(col) && args != []
    ensures Reads(Part(ListText(col, negated, |args|), args), InList(col, negated, |args|))
  {
    hide Lex, PlaceholderText, PlaceholderList, IsColumnName;
    LexPlaceholderText(|args|);
    LexCloseParen();
    var list := PlaceholderText(|args|);
    if negated {
      LexNotInOpen();
      LexList(col, " NOT" + " IN (", [Not, In, LParen], list, ")");
      assert Print(InList(col, true, |args|)) == [Column(col)] + [Not, In, LParen] + PlaceholderList(|args|) + [RParen];
      assert ListText(col, true, |args|) == col + (" NOT" + " IN (") + list + ")";
    } else {
      LexInOpen();
      LexList(col, " IN (", [In, LParen], list, ")");
      assert Print(InList(col, false, |args|)) == [Column(col)] + [In, LParen] + PlaceholderList(|args|) + [RParen];
      assert ListText(col, false, |args|) == col + " IN (" + list + ")";
    }
    assert IsAtom(InList(col, negated, |args|));
  }

  // ---- The two conditions of a column ----

  function ColumnParts(col: string, args: seq<string>): seq<Part> {
    var pos, neg := Positives(args), Negatives(args);
    (if pos != [] then [Part(ListText(col, false, |pos|), pos)] else [])
    + (if neg != [] then [Part(ListText(col, true, |neg|), neg)] else [])
  }

  function ColumnExprs(col: string, args: seq<string>): seq<Expr> {
    var pos, neg := Positives(args), Negatives(args);
    (if pos != [] then [InList(col, false, |pos|)] else [])
    + (if neg != [] then [InList(col, true, |neg|)] else [])
  }

  /** The values a column must have for the filter to select its row. */
  predicate ColumnConverts(args: seq<string>, v: Val) {
    && (forall p :: p in Positives(args) ==> Converts(v, p))
    && (forall m :: m in Negatives(args) ==> Converts(v, m))
  }

  predicate ColumnSelects(args: seq<string>, v: Val)
    requires ColumnConverts(args, v)
  {
    && (Positives(args) == [] || exists p :: p in Positives(args) && Equals(v, p))
    && (forall m :: m in Negatives(args) ==> !Equals(v, m))
  }

  method WhereComponentCol(q: seq<Part>, col: string, args: Option<seq<string>>) returns (q': seq<Part>)
    ensures q' == if args.None? then q else q + ColumnParts(col, args.value)
  {
    if args.None? {
      return q;
    }
    q' := q;
    var pos, neg := SplitSliceWithNegations(args.value);
    if |pos| > 0 {
      q' := q' + [Part(ListText(col, false, |pos|), pos)];
    }
    if |neg| > 0 {
      q' := q' + [Part(ListText(col, true, |neg|), neg)];
    }
  }

  lemma InListMeans(col: string, negated: bool, args: seq<string>, row: Row)
    requires col in row && args != []
    ensures Accepts(InList(col, negated, |args|), args, row) <==> forall a :: a in args ==> Converts(row[col], a)
    ensures Accepts(InList(col, negated, |args|), args, row) ==>
              (Holds(InList(col, negated, |args|), args, row) <==>
               (exists a :: a in args && Equals(row[col], a)) != negated)
  {
  }

  /** Added to any query, the conditions of a column select the rows whose value is one of the
      plain values, if there are any, and none of the negated ones. */
  lemma ColumnMeans(q: seq<Part>, es: seq<Expr>, col: string, args: seq<string>, row: Row)
    requires AllRead(q, es) && IsColumnName(col) && col in row
    ensures AllRead(q + ColumnParts(col, args), es + ColumnExprs(col, args))
    ensures AllAccept(q + ColumnParts(col, args), es + ColumnExprs(col, args), row) <==>
            AllAccept(q, es, row) && ColumnConverts(args, row[col])
    ensures AllAccept(q + ColumnParts(col, args), es + ColumnExprs(col, args), row) ==>
              (AllHold(q + ColumnParts(col, args), es + ColumnExprs(col, args), row) <==>
               AllHold(q, es, row) && ColumnSelects(args, row[col]))
  {
    hide AllRead, AllAccept, AllHold, Accepts, Holds, Reads, ListText, Positives, Negatives, IsColumnName;
    var pos, neg := Positives(args), Negatives(args);
    var q', es' := q, es;
    if pos != [] {
      ListReads(col, false, pos);
      InListMeans(col, false, pos, row);
      AllAppend(q, es, Part(ListText(col, false, |pos|), pos), InList(col, false, |pos|), row);
      q', es' := q + [Part(ListText(col, false, |pos|), pos)], es + [InList(col, false, |pos|)];
    }
    if neg != [] {
      ListReads(col, true, neg);
      InListMeans(col, true, neg, row);
      AllAppend(q', es', Part(ListText(col, true, |neg|), neg), InList(col, true, |neg|), row);
      q', es' := q' + [Part(ListText(col, true, |neg|), neg)], es' + [InList(col, true, |neg|)];
    }
    assert q' == q + ColumnParts(col, args) && es' == es + ColumnExprs(col, args);
  }
}
