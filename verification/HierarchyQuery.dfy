/** Queries for xnames and everything under them. */
module HierarchyQuery {
  import opened Wrappers
  import opened SqlText
  import opened SqlPieces
  import opened Alternatives
  import opened WhereClause
  import opened ColumnFilter
  import opened XnameTree
  import SimilarTo

  // ---- A list of ids ----

  function SubtreeAlt(col: string, id: string): Alt {
    Alt(Group(Resembles(col)), [id + SimilarTo.SUFFIX])
  }

  function SubtreeAlts(col: string, ids: seq<string>): seq<Alt> {
    seq(|ids|, i requires 0 <= i < |ids| => SubtreeAlt(col, ids[i]))
  }

  ghost predicate Building(query: string, args: seq<string>, done: seq<Alt>) {
    && args == OrArgs(done) && EndsClean(query)
    && Lex(query) == OrTokens(done) && (done == [] ==> query == "")
  }

  lemma BuildingNothing()
    ensures Building("", [], [])
  {
  }

  /** One more pattern condition. */
  lemma AddSubtree(query: string, args: seq<string>, done: seq<Alt>, col: string, id: string,
                   opener: string, similar: string, close: string)
    requires IsColumnName(col) && Building(query, args, done)
    requires opener != "" && IsDelimiter(opener[0]) && EndsClean(opener)
    requires Lex(opener) == (if done == [] then [LParen] else [Or, LParen])
    requires similar != "" && similar[0] == ' ' && Lex(similar) == [Similar]
    requires EndsClean(close) && close != "" && close[0] == ' ' && Lex(close) == [To, Placeholder, RParen]
    ensures Building(query + opener + col + similar + close, args + [id + SimilarTo.SUFFIX], done + [SubtreeAlt(col, id)])
  {
    var next := query + opener + col + similar + close;
    hide Lex, IsColumnName, OrTokens, OrArgs, Print;
    assert CleanCut(query, opener) && CleanCut(query + opener + col + similar, close) && EndsClean(query + opener);
    assert EndsClean(next);
    hide IsDelimiter, EndsClean;
    LexAppend(query, opener);
    LexComparison(query + opener, col, similar, [Similar]);
    LexAppend(query + opener + col + similar, close);
    hide CleanCut;
    OrAppend(done, SubtreeAlt(col, id));
    PrintSubtree(col);
    OrNothing();
    assert Lex(next) == Lex(query) + Lex(opener) + [Column(col)] + [Similar] + Lex(close);
  }

  lemma PrintSubtree(col: string)
    ensures Print(Group(Resembles(col))) == [LParen, Column(col), Similar, To, Placeholder, RParen]
  {
  }

  lemma OrNothing()
    ensures OrTokens([]) == [] && OrArgs([]) == [] && Lex("") == []
  {
  }

  /** The pattern conditions of a list of normalized ids. */
  method SubtreeFilter(idCol: string, ids: seq<string>) returns (part: Part)
    requires IsColumnName(idCol) && ids != []
    ensures Lex(part.text) == OrTokens(SubtreeAlts(idCol, ids)) && part.args == OrArgs(SubtreeAlts(idCol, ids))
  {
    hide Lex, IsColumnName, OrTokens, OrArgs, Building, EndsClean;
    var filterQuery, args := "", [];
    ghost var alts := SubtreeAlts(idCol, ids);
    BuildingNothing();
    var i := 0;
    while i < |ids|
      invariant 0 <= i <= |ids|
      invariant Building(filterQuery, args, alts[..i])
    {
      filterQuery := NextSubtree(filterQuery, args, alts[..i], idCol, ids[i], i);
      args := args + [ids[i] + SimilarTo.SUFFIX];
      assert alts[..i + 1] == alts[..i] + [SubtreeAlt(idCol, ids[i])];
      i := i + 1;
    }
    assert alts[..i] == alts;
    part := Part(filterQuery, args);
    Built(filterQuery, args, alts);
  }

  lemma Built(query: string, args: seq<string>, done: seq<Alt>)
    requires Building(query, args, done)
    ensures Lex(query) == OrTokens(done) && args == OrArgs(done)
  {
  }

  method NextSubtree(query: string, ghost args: seq<string>, ghost done: seq<Alt>, idCol: string, id: string, i: nat)
    returns (next: string)
    requires IsColumnName(idCol) && Building(query, args, done) && (i > 0 <==> done != [])
    ensures Building(next, args + [id + SimilarTo.SUFFIX], done + [SubtreeAlt(idCol, id)])
  {
    LexOrParen();
    LexOpenParen();
    LexSimilarWord();
    LexToArg();
    hide Lex, IsColumnName, OrTokens, OrArgs, Building;
    var opener := if i > 0 then " OR (" else "(";
    AddSubtree(query, args, done, idCol, id, opener, " SIMILAR", " TO ?)");
    next := query + opener + idCol + " SIMILAR" + " TO ?)";
  }

  /** The outer condition of a hierarchy query: subtrees when the components are also filtered
      by type, and just the ids otherwise. Without ids there is none. */
  method SelectComponentsHierarchy(idCol: string, ids: seq<string>, byType: bool) returns (where: Option<Part>)
    requires IsColumnName(idCol)
    ensures where.None? <==> ids == []
    ensures where.Some? && byType ==>
              Lex(where.value.text) == OrTokens(SubtreeAlts(idCol, ids)) && where.value.args == OrArgs(SubtreeAlts(idCol, ids))
    ensures where.Some? && !byType ==> where.value == Part(ListText(idCol, false, |ids|), ids)
  {
    if |ids| == 0 {
      return None;
    }
    if byType {
      var part := SubtreeFilter(idCol, ids);
      return Some(part);
    }
    return Some(Part(ListText(idCol, false, |ids|), ids));
  }

  // ---- What is selected ----

  lemma SubtreeAltMeans(col: string, a: seq<Segment>, b: seq<Segment>, row: Row)
    requires XnameOk(a) && XnameOk(b) && col in row && row[col] == StrVal(Render(b))
    ensures var alt := SubtreeAlt(col, Render(a));
            && IsAtom(alt.e) && |alt.args| == Placeholders(alt.e) && Accepts(alt.e, alt.args, row)
            && (Holds(alt.e, alt.args, row) <==> a <= b)
  {
    PatternIsSubtree(a, b);
    var e, args := Resembles(col), [Render(a) + SimilarTo.SUFFIX];
    assert IsAtom(e) && IsAnd(e) && IsOr(e) && Placeholders(e) == 1;
    assert Accepts(e, args, row);
  }

  lemma AltsAre(col: string, xs: seq<seq<Segment>>, b: seq<Segment>, row: Row)
    requires (forall x :: x in xs ==> XnameOk(x)) && XnameOk(b) && col in row && row[col] == StrVal(Render(b))
    ensures var alts := SubtreeAlts(col, RenderAll(xs));
            && |alts| == |xs| && WellFormed(alts)
            && forall k :: 0 <= k < |xs| ==>
                 Accepts(alts[k].e, alts[k].args, row) && (Holds(alts[k].e, alts[k].args, row) <==> xs[k] <= b)
  {
    hide Accepts, Holds, XnameOk, IsAtom, Placeholders;
    var alts := SubtreeAlts(col, RenderAll(xs));
    forall k: nat | k < |xs|
      ensures IsAtom(alts[k].e) && |alts[k].args| == Placeholders(alts[k].e) && Accepts(alts[k].e, alts[k].args, row)
      ensures Holds(alts[k].e, alts[k].args, row) <==> xs[k] <= b
    {
      assert xs[k] in xs;
      SubtreeAltMeans(col, xs[k], b, row);
    }
  }

  /** With a type, a hierarchy query selects the union of the subtrees of its ids. */
  lemma SubtreesAreSelected(col: string, xs: seq<seq<Segment>>, part: Part, b: seq<Segment>, row: Row)
    requires xs != [] && (forall x :: x in xs ==> XnameOk(x)) && XnameOk(b)
    requires col in row && row[col] == StrVal(Render(b))
    requires Lex(part.text) == OrTokens(SubtreeAlts(col, RenderAll(xs))) && part.args == OrArgs(SubtreeAlts(col, RenderAll(xs)))
    ensures var e := Parse(Lex(part.text));
            && e.Some? && Accepts(e.value, part.args, row)
            && (Holds(e.value, part.args, row) <==> exists x :: x in xs && x <= b)
  {
    hide Lex, Accepts, Holds, OrTokens, OrArgs, Parse, Print, XnameOk, IsAtom, Placeholders, SubtreeAlts;
    var alts := SubtreeAlts(col, RenderAll(xs));
    AltsAre(col, xs, b, row);
    OrMeans(alts, row);
    ParsePrint(OrExpr(alts));
    if x :| x in xs && x <= b {
      var k :| 0 <= k < |xs| && xs[k] == x;
      assert Holds(alts[k].e, alts[k].args, row);
    }
    if k: nat :| k < |alts| && Holds(alts[k].e, alts[k].args, row) {
      assert xs[k] in xs;
    }
  }

  /** Without a type, it selects its ids. */
  lemma IdsAreSelected(col: string, xs: seq<seq<Segment>>, b: seq<Segment>, row: Row)
    requires xs != [] && (forall x :: x in xs ==> XnameOk(x)) && XnameOk(b)
    requires IsColumnName(col) && col in row && row[col] == StrVal(Render(b))
    ensures var part := Part(ListText(col, false, |xs|), RenderAll(xs)); var e := Parse(Lex(part.text));
            && e.Some? && Accepts(e.value, part.args, row)
            && (Holds(e.value, part.args, row) <==> b in xs)
  {
    var ids := RenderAll(xs);
    ListReads(col, false, ids);
    InListMeans(col, false, ids, row);
    assert IsOr(InList(col, false, |ids|));
    ParsePrint(InList(col, false, |ids|));
    if Render(b) in ids {
      var k :| 0 <= k < |xs| && Render(xs[k]) == Render(b);
      assert xs[k] in xs;
      RenderInjective(xs[k], b);
    }
    if b in xs {
      var k :| 0 <= k < |xs| && xs[k] == b;
      assert ids[k] == Render(b);
    }
  }

  // ---- Subtrees and types ----

  /** The text and arguments of a filter by types, after those of its ids if there are any. */
  ghost predicate IsTypedFilter(part: Part, idCol: string, typeCol: string, ids: seq<string>, types: seq<string>) {
    if ids == [] then IsColumnName(typeCol) && part == Part(ListText(typeCol, false, |types|), types)
    else
      && Lex(part.text) == OrTokens(SubtreeAlts(idCol, ids)) + [And] + Print(InList(typeCol, false, |types|))
      && part.args == OrArgs(SubtreeAlts(idCol, ids)) + types
  }

  /** The filter of a hardware inventory query by ids with their subtrees and by types, each if
      there are any. The two are put one after the other. */
  method LocationFilter(idCol: string, typeCol: string, ids: seq<string>, types: seq<string>) returns (where: Option<Part>)
    requires IsColumnName(idCol) && IsColumnName(typeCol)
    ensures where.None? <==> ids == [] && types == []
    ensures types != [] ==> IsTypedFilter(where.value, idCol, typeCol, ids, types)
    ensures ids != [] && types == [] ==>
              Lex(where.value.text) == OrTokens(SubtreeAlts(idCol, ids)) && where.value.args == OrArgs(SubtreeAlts(idCol, ids))
  {
    hide Lex, IsColumnName, OrTokens, OrArgs, Print, ListText;
    var filterQuery, args := "", [];
    if |ids| > 0 {
      var part := SubtreeFilter(idCol, ids);
      filterQuery, args := part.text, part.args;
      SubtreesSaySomething(filterQuery, idCol, ids);
    }
    if |types| > 0 {
      var typeQuery := ListText(typeCol, false, |types|);
      ListReads(typeCol, false, types);
      if |filterQuery| == 0 {
        filterQuery := typeQuery;
      } else {
        LexAndWord();
        LexAppend(filterQuery, " AND ");
        LexAppend(filterQuery + " AND ", typeQuery);
        filterQuery := filterQuery + " AND " + typeQuery;
      }
      args := args + types;
      assert ids == [] ==> args == types;
    }
    where := if |ids| > 0 || |types| > 0 then Some(Part(filterQuery, args)) else None;
  }

  lemma SubtreesSaySomething(text: string, col: string, ids: seq<string>)
    requires ids != [] && Lex(text) == OrTokens(SubtreeAlts(col, ids))
    ensures text != ""
  {
    PrintSubtree(col);
    assert SubtreeAlts(col, ids)[0] == SubtreeAlt(col, ids[0]);
    assert OrTokens(SubtreeAlts(col, ids))[0] == LParen;
    OrNothing();
  }

  /** How alternatives followed by AND and a condition are read: it belongs to the last one. */
  function LastTyped(alts: seq<Alt>, e: Expr): Expr
    requires alts != []
  {
    if |alts| == 1 then AndOf(alts[0].e, e) else OrOf(alts[0].e, LastTyped(alts[1..], e))
  }

  lemma AndSplit(a: Expr, b: Expr, args: seq<string>, args': seq<string>, row: Row)
    requires |args| == Placeholders(a) && |args'| == Placeholders(b)
    ensures Accepts(AndOf(a, b), args + args', row) <==> Accepts(a, args, row) && Accepts(b, args', row)
    ensures Accepts(AndOf(a, b), args + args', row) ==>
              (Holds(AndOf(a, b), args + args', row) <==> Holds(a, args, row) && Holds(b, args', row))
  {
    assert (args + args')[..|args|] == args && (args + args')[|args|..] == args';
  }

  lemma OrSplit(a: Expr, b: Expr, args: seq<string>, args': seq<string>, row: Row)
    requires |args| == Placeholders(a) && |args'| == Placeholders(b)
    ensures Accepts(OrOf(a, b), args + args', row) <==> Accepts(a, args, row) && Accepts(b, args', row)
    ensures Accepts(OrOf(a, b), args + args', row) ==>
              (Holds(OrOf(a, b), args + args', row) <==> Holds(a, args, row) || Holds(b, args', row))
  {
    assert (args + args')[..|args|] == args && (args + args')[|args|..] == args';
  }

  lemma {:induction false} LastTypedPrints(alts: seq<Alt>, e: Expr)
    requires alts != [] && WellFormed(alts) && IsAtom(e)
    ensures var all := LastTyped(alts, e);
            && IsOr(all) && Print(all) == OrTokens(alts) + [And] + Print(e)
            && Placeholders(all) == |OrArgs(alts)| + Placeholders(e)
  {
    if |alts| == 1 {
      assert OrArgs(alts) == alts[0].args + OrArgs([]) == alts[0].args;
    } else {
      LastTypedPrints(alts[1..], e);
      assert OrTokens(alts) + [And] + Print(e) == Print(alts[0].e) + [Or] + (OrTokens(alts[1..]) + [And] + Print(e));
    }
  }

  lemma {:induction false} LastTypedMeans(alts: seq<Alt>, e: Expr, args: seq<string>, row: Row)
    requires alts != [] && WellFormed(alts) && IsAtom(e) && |args| == Placeholders(e)
    ensures var all, n := LastTyped(alts, e), |alts| - 1;
            && (Accepts(all, OrArgs(alts) + args, row) <==>
                (forall k :: 0 <= k < |alts| ==> Accepts(alts[k].e, alts[k].args, row)) && Accepts(e, args, row))
            && (Accepts(all, OrArgs(alts) + args, row) ==>
                  (Holds(all, OrArgs(alts) + args, row) <==>
                   || (exists k :: 0 <= k < n && Holds(alts[k].e, alts[k].args, row))
                   || (Holds(alts[n].e, alts[n].args, row) && Holds(e, args, row))))
  {
    hide Accepts, Holds, Placeholders, IsAtom, IsOr, Print, OrTokens;
    var first := alts[0];
    if |alts| == 1 {
      assert OrArgs(alts) == first.args + OrArgs([]) == first.args;
      AndSplit(first.e, e, first.args, args, row);
    } else {
      var rest := alts[1..];
      LastTypedMeans(rest, e, args, row);
      LastTypedPrints(rest, e);
      OrSplit(first.e, LastTyped(rest, e), first.args, OrArgs(rest) + args, row);
      assert OrArgs(alts) + args == first.args + (OrArgs(rest) + args);
      assert forall k :: 0 <= k < |rest| ==> rest[k] == alts[k + 1];
      assert forall k :: 0 < k < |alts| ==> alts[k] == rest[k - 1];
    }
  }

  /** The locations that the filter finds: those at or under the last id that have one of the
      types, but all at or under the other ids. Without ids only the types count. */
  ghost predicate IsFound(xs: seq<seq<Segment>>, types: seq<string>, b: seq<Segment>, hmsType: string) {
    var n := |xs| - 1;
    if xs == [] then hmsType in types
    else (exists k :: 0 <= k < n && xs[k] <= b) || (xs[n] <= b && hmsType in types)
  }

  /** What the text of ids and types finds. */
  lemma TypedSubtreesAreSelected(idCol: string, typeCol: string, xs: seq<seq<Segment>>, types: seq<string>, part: Part,
                                 b: seq<Segment>, hmsType: string, row: Row)
    requires types != [] && (forall x :: x in xs ==> XnameOk(x)) && XnameOk(b)
    requires idCol in row && row[idCol] == StrVal(Render(b)) && typeCol in row && row[typeCol] == StrVal(hmsType)
    requires IsTypedFilter(part, idCol, typeCol, RenderAll(xs), types)
    ensures var e := Parse(Lex(part.text));
            && e.Some? && Accepts(e.value, part.args, row)
            && (Holds(e.value, part.args, row) <==> IsFound(xs, types, b, hmsType))
  {
    hide Lex, Accepts, Holds, OrTokens, OrArgs, Parse, Print, XnameOk, IsAtom, Placeholders, SubtreeAlts, ListText, IsColumnName;
    var alts, e := SubtreeAlts(idCol, RenderAll(xs)), InList(typeCol, false, |types|);
    TypeMeans(typeCol, types, hmsType, row);
    if xs == [] {
      ListReads(typeCol, false, types);
      AtomIsOr(e);
      ParsePrint(e);
    } else {
      AltsAre(idCol, xs, b, row);
      LastTypedPrints(alts, e);
      LastTypedMeans(alts, e, types, row);
      ParsePrint(LastTyped(alts, e));
    }
  }

  lemma AtomIsOr(e: Expr)
    requires IsAtom(e)
    ensures IsOr(e)
  {
  }

  lemma TypeMeans(typeCol: string, types: seq<string>, hmsType: string, row: Row)
    requires types != [] && typeCol in row && row[typeCol] == StrVal(hmsType)
    ensures var e := InList(typeCol, false, |types|);
            && IsAtom(e) && Placeholders(e) == |types| && Accepts(e, types, row)
            && (Holds(e, types, row) <==> hmsType in types)
  {
    InListMeans(typeCol, false, types, row);
  }

  /** At or under one of the ids, or anywhere without ids. */
  ghost predicate AtOrUnder(xs: seq<seq<Segment>>, b: seq<Segment>) {
    xs == [] || exists x :: x in xs && x <= b
  }

  /** The types narrow all that is at or under the ids if and only if there is at most one id, as
      long as some type is not asked for. */
  lemma TypesNeedOneId(xs: seq<seq<Segment>>, types: seq<string>, other: string)
    requires (forall x :: x in xs ==> XnameOk(x)) && other !in types
    ensures (forall b, t :: XnameOk(b) ==> (IsFound(xs, types, b, t) <==> AtOrUnder(xs, b) && t in types)) <==> |xs| <= 1
  {
    hide XnameOk;
    if |xs| == 1 {
      assert forall x :: x in xs ==> x == xs[0];
      assert xs[0] in xs;
    } else if |xs| > 1 {
      assert xs[0] in xs && xs[0] <= xs[0];
      assert IsFound(xs, types, xs[0], other);
    }
  }

  lemma WhereTwo(p: Part, col: string, values: seq<string>)
    requires p.text != "" && IsColumnName(col) && values != []
    ensures var ps := [p, Part(ListText(col, false, |values|), values)];
            && Lex(WhereText(ps)) == Lex(p.text) + [And] + Print(InList(col, false, |values|))
            && WhereArgs(ps) == p.args + values
  {
    var list := Part(ListText(col, false, |values|), values);
    hide Lex, ListText, Print, IsColumnName;
    ListReads(col, false, values);
    LexAndWord();
    LexAppend(p.text, SEPARATOR);
    LexAppend(p.text + SEPARATOR, list.text);
    assert [p, list][1..] == [list] && [list][1..] == [];
    assert WhereText([p, list]) == p.text + SEPARATOR + WhereText([list]);
    assert WhereArgs([p, list]) == p.args + WhereArgs([list]) && WhereArgs([list]) == values + WhereArgs([]);
  }

  /** A partition added to the ids of a query with children is read the same way: it narrows the
      subtree of the last id only. */
  lemma PartitionNarrowsLastId(idCol: string, partCol: string, xs: seq<seq<Segment>>, partitions: seq<string>, part: Part,
                               b: seq<Segment>, partition: string, row: Row)
    requires xs != [] && partitions != [] && (forall x :: x in xs ==> XnameOk(x)) && XnameOk(b) && IsColumnName(partCol)
    requires idCol in row && row[idCol] == StrVal(Render(b)) && partCol in row && row[partCol] == StrVal(partition)
    requires Lex(part.text) == OrTokens(SubtreeAlts(idCol, RenderAll(xs)))
    requires part.args == OrArgs(SubtreeAlts(idCol, RenderAll(xs)))
    ensures var ps := [part, Part(ListText(partCol, false, |partitions|), partitions)]; var e := Parse(Lex(WhereText(ps)));
            && e.Some? && Accepts(e.value, WhereArgs(ps), row)
            && (Holds(e.value, WhereArgs(ps), row) <==> IsFound(xs, partitions, b, partition))
  {
    hide Lex, Accepts, Holds, OrTokens, OrArgs, Parse, Print, XnameOk, SubtreeAlts, Render, IsFound, ListText, WhereText, WhereArgs,
      IsColumnName;
    var ps := [part, Part(ListText(partCol, false, |partitions|), partitions)];
    SubtreesSaySomething(part.text, idCol, RenderAll(xs));
    WhereTwo(part, partCol, partitions);
    TypedSubtreesAreSelected(idCol, partCol, xs, partitions, Part(WhereText(ps), WhereArgs(ps)), b, partition, row);
  }

  lemma LexCloseOr()
    ensures Lex(") OR ") == [RParen, Or]
  {
    LexCloseParen();
    LexOrWord();
    hide Lex;
    assert ") OR " == ")" + " OR ";
    LexAppend(")", " OR ");
  }

  /** A condition in parentheses with the parents' ids as an alternative. */
  function WithParents(f: Part, idCol: string, parents: seq<string>): Part {
    Part("(" + f.text + ") OR " + ListText(idCol, false, |parents|), f.args + parents)
  }

  lemma LexWithParents(f: Part, idCol: string, parents: seq<string>)
    requires IsColumnName(idCol) && parents != []
    ensures Lex(WithParents(f, idCol, parents).text) ==
            [LParen] + Lex(f.text) + [RParen, Or] + Print(InList(idCol, false, |parents|))
  {
    hide Lex, ListText, Print, IsColumnName;
    ListReads(idCol, false, parents);
    LexOpenParen();
    LexCloseOr();
    LexAppend("(", f.text);
    LexAppend("(" + f.text, ") OR ");
    LexAppend("(" + f.text + ") OR ", ListText(idCol, false, |parents|));
  }

  /** With parents and a partition, the partition narrows the parents only: whatever the condition
      finds is found in every partition. So it narrows a row if and only if the condition does not
      find the row or the row is in one of the partitions. */
  lemma PartitionNarrowsParents(f: Part, e: Expr, idCol: string, parents: seq<string>, partCol: string,
                                partitions: seq<string>, id: string, partition: string, row: Row)
    requires Lex(f.text) == Print(e) && IsOr(e) && Accepts(e, f.args, row) && parents != [] && partitions != []
    requires IsColumnName(idCol) && IsColumnName(partCol)
    requires idCol in row && row[idCol] == StrVal(id) && partCol in row && row[partCol] == StrVal(partition)
    ensures var ps := [WithParents(f, idCol, parents), Part(ListText(partCol, false, |partitions|), partitions)];
            var all := Parse(Lex(WhereText(ps)));
            && all.Some? && Accepts(all.value, WhereArgs(ps), row)
            && (Holds(all.value, WhereArgs(ps), row) <==>
                Holds(e, f.args, row) || (id in parents && partition in partitions))
            && ((Holds(all.value, WhereArgs(ps), row) <==>
                 (Holds(e, f.args, row) || id in parents) && partition in partitions)
                <==> !Holds(e, f.args, row) || partition in partitions)
  {
    hide Lex, ListText, Parse, IsColumnName, Accepts, Holds, WhereText, WhereArgs;
    var p, n := InList(idCol, false, |parents|), InList(partCol, false, |partitions|);
    var all := OrOf(Group(e), AndOf(p, n));
    LexWithParents(f, idCol, parents);
    WhereTwo(WithParents(f, idCol, parents), partCol, partitions);
    TypeMeans(idCol, parents, id, row);
    TypeMeans(partCol, partitions, partition, row);
    TakesItsArgs(e, f.args, row);
    AndSplit(p, n, parents, partitions, row);
    OrSplit(Group(e), AndOf(p, n), f.args, parents + partitions, row);
    assert f.args + (parents + partitions) == f.args + parents + partitions;
    PrintsParents(e, p, n);
    ParsePrint(all);
  }

  lemma PrintsParents(e: Expr, p: Expr, n: Expr)
    requires IsOr(e) && IsAtom(p) && IsAtom(n)
    ensures IsOr(OrOf(Group(e), AndOf(p, n)))
    ensures Print(OrOf(Group(e), AndOf(p, n))) == [LParen] + Print(e) + [RParen, Or] + Print(p) + [And] + Print(n)
    ensures Placeholders(AndOf(p, n)) == Placeholders(p) + Placeholders(n)
  {
    assert Print(AndOf(p, n)) == Print(p) + [And] + Print(n);
    assert Print(Group(e)) == [LParen] + Print(e) + [RParen];
    assert IsAtom(Group(e)) && IsAnd(Group(e)) && IsAnd(AndOf(p, n)) && IsOr(AndOf(p, n));
  }

  lemma TakesItsArgs(e: Expr, args: seq<string>, row: Row)
    requires Accepts(e, args, row)
    ensures |args| == Placeholders(e) == Placeholders(Group(e)) && Accepts(Group(e), args, row)
    ensures Holds(Group(e), args, row) <==> Holds(e, args, row)
  {
  }

  /** A request for xnames with parents, children and a partition: it finds everything at or under
      the xnames in any partition, and their parents in the partitions asked for. The partition
      narrows a row if and only if the row is not at or under an xname or is in a partition. */
  lemma ParentsAndChildren(idCol: string, partCol: string, xs: seq<seq<Segment>>, parents: seq<string>,
                           partitions: seq<string>, f: Part, b: seq<Segment>, partition: string, row: Row)
    requires xs != [] && parents != [] && partitions != [] && (forall x :: x in xs ==> XnameOk(x)) && XnameOk(b)
    requires IsColumnName(idCol) && IsColumnName(partCol)
    requires idCol in row && row[idCol] == StrVal(Render(b)) && partCol in row && row[partCol] == StrVal(partition)
    requires Lex(f.text) == OrTokens(SubtreeAlts(idCol, RenderAll(xs)))
    requires f.args == OrArgs(SubtreeAlts(idCol, RenderAll(xs)))
    ensures var ps := [WithParents(f, idCol, parents), Part(ListText(partCol, false, |partitions|), partitions)];
            var e := Parse(Lex(WhereText(ps)));
            && e.Some? && Accepts(e.value, WhereArgs(ps), row)
            && (Holds(e.value, WhereArgs(ps), row) <==>
                AtOrUnder(xs, b) || (Render(b) in parents && partition in partitions))
            && ((Holds(e.value, WhereArgs(ps), row) <==>
                 (AtOrUnder(xs, b) || Render(b) in parents) && partition in partitions)
                <==> !AtOrUnder(xs, b) || partition in partitions)
  {
    hide Lex, Accepts, Holds, OrTokens, OrArgs, Parse, Print, XnameOk, SubtreeAlts, Render, ListText, WhereText, WhereArgs,
      IsColumnName, IsOr, OrExpr, WellFormed, WithParents;
    var alts := SubtreeAlts(idCol, RenderAll(xs));
    AltsAre(idCol, xs, b, row);
    OrMeans(alts, row);
    assert Holds(OrExpr(alts), f.args, row) <==> AtOrUnder(xs, b) by {
      if x :| x in xs && x <= b {
        var k :| 0 <= k < |xs| && xs[k] == x;
        assert Holds(alts[k].e, alts[k].args, row);
      }
      if k: nat :| k < |alts| && Holds(alts[k].e, alts[k].args, row) {
        assert xs[k] in xs;
      }
    }
    PartitionNarrowsParents(f, OrExpr(alts), idCol, parents, partCol, partitions, Render(b), partition, row);
  }

  // ---- Children of the components of a type ----

  datatype Location = Location(xname: seq<Segment>, hmsType: string)

  function LocRow(idCol: string, typeCol: string, loc: Location): Row {
    map[idCol := StrVal(Render(loc.xname)), typeCol := StrVal(loc.hmsType)]
  }

  /** The subquery: the ids of the locations its condition holds for. */
  function SelectIds(e: Expr, args: seq<string>, idCol: string, typeCol: string, locs: seq<Location>): seq<seq<Segment>>
    requires forall loc :: loc in locs ==> Accepts(e, args, LocRow(idCol, typeCol, loc))
  {
    if locs == [] then []
    else
      var n := |locs| - 1;
      assert locs[n] in locs;
      SelectIds(e, args, idCol, typeCol, locs[..n])
      + (if Holds(e, args, LocRow(idCol, typeCol, locs[n])) then [locs[n].xname] else [])
  }

  lemma {:induction false} SelectIdsMeans(e: Expr, args: seq<string>, idCol: string, typeCol: string, locs: seq<Location>,
                                          x: seq<Segment>)
    requires forall loc :: loc in locs ==> Accepts(e, args, LocRow(idCol, typeCol, loc))
    ensures x in SelectIds(e, args, idCol, typeCol, locs) <==>
            exists loc :: loc in locs && loc.xname == x && Holds(e, args, LocRow(idCol, typeCol, loc))
  {
    hide Accepts, Holds;
    if locs != [] {
      var n := |locs| - 1;
      assert locs == locs[..n] + [locs[n]];
      SelectIdsMeans(e, args, idCol, typeCol, locs[..n], x);
      assert forall loc :: loc in locs <==> loc in locs[..n] || loc == locs[n];
    }
  }

  /** Some location found by ids and types is at x. */
  ghost predicate FoundAt(locs: seq<Location>, xs: seq<seq<Segment>>, types: seq<string>, x: seq<Segment>) {
    exists loc :: loc in locs && loc.xname == x && IsFound(xs, types, x, loc.hmsType)
  }

  ghost predicate SubqueryRuns(inner: Part, idCol: string, typeCol: string, locs: seq<Location>) {
    var e := Parse(Lex(inner.text));
    e.Some? && forall loc :: loc in locs ==> Accepts(e.value, inner.args, LocRow(idCol, typeCol, loc))
  }

  /** The pattern of the outer query, built from the ids that the text of the subquery selects. */
  function OuterPattern(inner: Part, idCol: string, typeCol: string, locs: seq<Location>): string
    requires SubqueryRuns(inner, idCol, typeCol, locs)
  {
    var ids := RenderAll(SelectIds(Parse(Lex(inner.text)).value, inner.args, idCol, typeCol, locs));
    "(" + SimilarTo.JoinBar(ids) + ")" + SimilarTo.SUFFIX
  }

  ghost predicate OuterMatches(inner: Part, idCol: string, typeCol: string, locs: seq<Location>, b: seq<Segment>)
    requires SubqueryRuns(inner, idCol, typeCol, locs)
  {
    var re := SimilarTo.Parse(OuterPattern(inner, idCol, typeCol, locs));
    re.Some? && SimilarTo.Matches(re.value, Render(b))
  }

  /** A query for xnames, or for the whole system, with children and types, both of its texts
      together: the outer pattern matches what lies at or under a location found. When none is
      found, it matches every location. */
  lemma ChildrenOfTypes(idCol: string, typeCol: string, locs: seq<Location>, xs: seq<seq<Segment>>, types: seq<string>,
                        inner: Part, b: seq<Segment>)
    requires types != [] && idCol != typeCol && (forall x :: x in xs ==> XnameOk(x))
    requires XnameOk(b) && forall loc :: loc in locs ==> XnameOk(loc.xname)
    requires IsTypedFilter(inner, idCol, typeCol, RenderAll(xs), types)
    ensures SubqueryRuns(inner, idCol, typeCol, locs)
    ensures SimilarTo.Parse(OuterPattern(inner, idCol, typeCol, locs)).Some?
    ensures OuterMatches(inner, idCol, typeCol, locs, b) <==>
            || (forall x :: !FoundAt(locs, xs, types, x))
            || (exists x :: FoundAt(locs, xs, types, x) && x <= b)
  {
    hide Lex, Accepts, Holds, Parse, XnameOk, Render, IsFound, IsTypedFilter, SelectIds, SimilarTo.Matches, SimilarTo.Parse,
      SimilarTo.JoinBar;
    var e := Parse(Lex(inner.text));
    TypedSubtreesAreSelected(idCol, typeCol, xs, types, inner, b, "", LocRow(idCol, typeCol, Location(b, "")));
    forall loc | loc in locs
      ensures Accepts(e.value, inner.args, LocRow(idCol, typeCol, loc))
      ensures Holds(e.value, inner.args, LocRow(idCol, typeCol, loc)) <==> IsFound(xs, types, loc.xname, loc.hmsType)
    {
      TypedSubtreesAreSelected(idCol, typeCol, xs, types, inner, loc.xname, loc.hmsType, LocRow(idCol, typeCol, loc));
    }
    var found := SelectIds(e.value, inner.args, idCol, typeCol, locs);
    forall x ensures x in found <==> FoundAt(locs, xs, types, x) {
      SelectIdsMeans(e.value, inner.args, idCol, typeCol, locs, x);
    }
    AlternationIsUnion(found, b);
    if found != [] {
      assert found[0] in found;
    }
  }

  /** The pattern matches exactly what lies at or under a location found, for all xnames, if and
      only if some location is found. */
  lemma ChildrenOfTypesIsExact(idCol: string, typeCol: string, locs: seq<Location>, xs: seq<seq<Segment>>,
                               types: seq<string>, inner: Part)
    requires types != [] && idCol != typeCol && (forall x :: x in xs ==> XnameOk(x))
    requires forall loc :: loc in locs ==> XnameOk(loc.xname)
    requires IsTypedFilter(inner, idCol, typeCol, RenderAll(xs), types)
    ensures SubqueryRuns(inner, idCol, typeCol, locs)
    ensures (forall b :: XnameOk(b) ==>
               (OuterMatches(inner, idCol, typeCol, locs, b) <==> exists x :: FoundAt(locs, xs, types, x) && x <= b))
            <==> exists x :: FoundAt(locs, xs, types, x)
  {
    ChildrenOfTypes(idCol, typeCol, locs, xs, types, inner, []);
    hide OuterMatches, SubqueryRuns, FoundAt, IsTypedFilter;
    forall b | XnameOk(b)
      ensures OuterMatches(inner, idCol, typeCol, locs, b) <==>
              (forall x :: !FoundAt(locs, xs, types, x)) || (exists x :: FoundAt(locs, xs, types, x) && x <= b)
    {
      ChildrenOfTypes(idCol, typeCol, locs, xs, types, inner, b);
    }
  }

  // ---- Where it fails ----

  function Cabinet(digit: string): seq<Segment> {
    [Segment("x", digit)]
  }

  /** Two cabinets without any node. Asked for the nodes of cabinet x0 and their children, or of the
      whole system, the query matches cabinet x1. */
  lemma NothingFoundMatchesAll(idCol: string, typeCol: string, xs: seq<seq<Segment>>, inner: Part)
    requires idCol != typeCol && xs in {[], [Cabinet("0")]}
    requires IsTypedFilter(inner, idCol, typeCol, RenderAll(xs), ["Node"])
    ensures var locs := [Location(Cabinet("0"), "Cabinet"), Location(Cabinet("1"), "Cabinet")];
            && (forall x :: !FoundAt(locs, xs, ["Node"], x))
            && SubqueryRuns(inner, idCol, typeCol, locs) && OuterMatches(inner, idCol, typeCol, locs, Cabinet("1"))
            && !(Cabinet("0") <= Cabinet("1"))
  {
    hide IsTypedFilter, SubqueryRuns, OuterMatches;
    var locs := [Location(Cabinet("0"), "Cabinet"), Location(Cabinet("1"), "Cabinet")];
    assert forall loc :: loc in locs ==> loc == locs[0] || loc == locs[1];
    assert SegmentOk(Segment("x", "0")) && SegmentOk(Segment("x", "1"));
    assert "Cabinet" !in ["Node"] by { assert |"Cabinet"| != |"Node"|; }
    forall x ensures !FoundAt(locs, xs, ["Node"], x) {}
    ChildrenOfTypes(idCol, typeCol, locs, xs, ["Node"], inner, Cabinet("1"));
    assert Cabinet("0")[0] != Cabinet("1")[0];
  }

  lemma RenderOne(s: Segment)
    ensures Render([s]) == s.letters + s.digits
  {
    assert [s][1..] == [];
  }

  lemma CardName()
    ensures var slot := [Segment("x", "0"), Segment("c", "0"), Segment("s", "0")];
            Render(slot) == "x0c0s0" && Render(slot + [Segment("b", "0")]) == "x0c0s0b0"
  {
    var x, c, s, b := Segment("x", "0"), Segment("c", "0"), Segment("s", "0"), Segment("b", "0");
    RenderOne(x);
    RenderOne(c);
    RenderOne(s);
    RenderOne(b);
    RenderAppend([x], [c]);
    RenderAppend([x] + [c], [s]);
    RenderAppend([x] + [c] + [s], [b]);
    assert [x, c, s] == [x] + [c] + [s];
  }

  /** The slot x0c0s0 asked for with its parents, its children and partition p1 alone: its card
      x0c0s0b0 in partition p2 is found. */
  lemma PartitionIsEscaped(idCol: string, partCol: string, f: Part)
    requires idCol != partCol && IsColumnName(idCol) && IsColumnName(partCol)
    requires var ids := ["x0c0s0"];
             Lex(f.text) == OrTokens(SubtreeAlts(idCol, ids)) && f.args == OrArgs(SubtreeAlts(idCol, ids))
    ensures var ps := [WithParents(f, idCol, ["x0c0", "x0"]), Part(ListText(partCol, false, 1), ["p1"])];
            var row := map[idCol := StrVal("x0c0s0b0"), partCol := StrVal("p2")];
            var e := Parse(Lex(WhereText(ps)));
            e.Some? && Accepts(e.value, WhereArgs(ps), row) && Holds(e.value, WhereArgs(ps), row)
  {
    var slot := [Segment("x", "0"), Segment("c", "0"), Segment("s", "0")];
    var card := slot + [Segment("b", "0")];
    CardName();
    assert forall i :: 0 <= i < 4 ==> SegmentOk(card[i]);
    var row := map[idCol := StrVal("x0c0s0b0"), partCol := StrVal("p2")];
    hide Lex, Accepts, Holds, OrTokens, OrArgs, Parse, SubtreeAlts, Render, ListText, WhereText, WhereArgs, IsColumnName,
      WithParents;
    assert RenderAll([slot]) == ["x0c0s0"];
    ParentsAndChildren(idCol, partCol, [slot], ["x0c0", "x0"], ["p1"], f, card, "p2", row);
    assert slot in [slot] && slot <= card;
  }
}
