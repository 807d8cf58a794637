/** Normalized xnames as paths of letter-and-number segments, and the patterns that select the
    subtree of an xname. */
module XnameTree {
  import opened Wrappers
  import opened SimilarTo

  datatype Segment = Segment(letters: string, digits: string)

  predicate SegmentOk(s: Segment) {
    && s.letters != "" && (forall i :: 0 <= i < |s.letters| ==> IsLower(s.letters[i]))
    && s.digits != "" && (forall i :: 0 <= i < |s.digits| ==> IsDigit(s.digits[i]))
  }

  predicate XnameOk(x: seq<Segment>) {
    forall i :: 0 <= i < |x| ==> SegmentOk(x[i])
  }

  function Render(x: seq<Segment>): string {
    if x == [] then "" else x[0].letters + x[0].digits + Render(x[1..])
  }

  lemma {:induction false} RenderAlnum(x: seq<Segment>)
    requires XnameOk(x)
    ensures AllAlnum(Render(x)) && IsTail(Render(x)) && (x != [] ==> Render(x) != "")
  {
    if x != [] {
      RenderAlnum(x[1..]);
    }
  }

  lemma {:induction false} RenderAppend(a: seq<Segment>, b: seq<Segment>)
    ensures Render(a + b) == Render(a) + Render(b)
  {
    if a == [] {
      assert a + b == b;
    } else {
      assert (a + b)[1..] == a[1..] + b;
      RenderAppend(a[1..], b);
    }
  }

  /** The leading run of a class of characters is determined by the text. */
  lemma RunUnique(c: char -> bool, p: string, t: string, q: string, u: string)
    requires (forall i :: 0 <= i < |p| ==> c(p[i])) && (forall i :: 0 <= i < |q| ==> c(q[i]))
    requires (t == "" || !c(t[0])) && (u == "" || !c(u[0]))
    requires p + t == q + u
    ensures p == q && t == u
  {
    var s, s' := p + t, q + u;
    assert (forall i :: 0 <= i < |p| ==> c(s[i])) && (|p| < |s| ==> !c(s[|p|]));
    assert (forall i :: 0 <= i < |q| ==> c(s'[i])) && (|q| < |s'| ==> !c(s'[|q|]));
    assert |p| == |q|;
    assert p == s[..|p|] && q == s'[..|q|] && t == s[|p|..] && u == s'[|q|..];
  }

  lemma SegmentUnique(x: Segment, t: string, y: Segment, u: string)
    requires SegmentOk(x) && SegmentOk(y)
    requires IsTail(t) && IsTail(u) && x.letters + x.digits + t == y.letters + y.digits + u
    ensures x == y && t == u
  {
    assert x.letters + (x.digits + t) == x.letters + x.digits + t == y.letters + y.digits + u == y.letters + (y.digits + u);
    RunUnique(IsLower, x.letters, x.digits + t, y.letters, y.digits + u);
    RunUnique(IsDigit, x.digits, t, y.digits, u);
  }

  lemma TailConcat(p: string, rest: string)
    requires IsTail(p) && IsTail(rest)
    ensures IsTail(p + rest)
  {
  }

  lemma {:induction false} TextPrefixIsPath(a: seq<Segment>, b: seq<Segment>, rest: string)
    requires XnameOk(a) && XnameOk(b) && Render(b) == Render(a) + rest && IsTail(rest)
    ensures a <= b
  {
    if a != [] {
      RenderAlnum(a);
      assert b != [];
      RenderAlnum(a[1..]);
      RenderAlnum(b[1..]);
      hide IsTail;
      var t := Render(a[1..]) + rest;
      TailConcat(Render(a[1..]), rest);
      assert a[0].letters + a[0].digits + t == Render(a) + rest;
      SegmentUnique(a[0], t, b[0], Render(b[1..]));
      TextPrefixIsPath(a[1..], b[1..], rest);
      assert a == [a[0]] + a[1..] && b == [b[0]] + b[1..];
    }
  }

  /** Textual prefixes that end before a letter or at the end are ancestors; so x0c0s1 is not
      one of x0c0s10. */
  lemma PrefixIsAncestor(a: seq<Segment>, b: seq<Segment>)
    requires XnameOk(a) && XnameOk(b)
    ensures Render(a) <= Render(b) && IsTail(Render(b)[|Render(a)|..]) <==> a <= b
  {
    hide Render, IsTail, SegmentOk;
    if a <= b {
      var rest := b[|a|..];
      assert b == a + rest;
      RenderAppend(a, rest);
      RenderAlnum(rest);
      assert Render(b)[|Render(a)|..] == Render(rest);
    }
    if Render(a) <= Render(b) && IsTail(Render(b)[|Render(a)|..]) {
      TextPrefixIsPath(a, b, Render(b)[|Render(a)|..]);
    }
  }

  /** Printed xnames are different for different paths. */
  lemma RenderInjective(a: seq<Segment>, b: seq<Segment>)
    requires XnameOk(a) && XnameOk(b) && Render(a) == Render(b)
    ensures a == b
  {
    assert Render(b) == Render(a) + "" && Render(a) == Render(b) + "";
    TextPrefixIsPath(a, b, "");
    TextPrefixIsPath(b, a, "");
  }

  /** The pattern for an xname selects its subtree. */
  lemma PatternIsSubtree(a: seq<Segment>, b: seq<Segment>)
    requires XnameOk(a) && XnameOk(b)
    ensures Parse(Render(a) + SUFFIX).Some?
    ensures Matches(Parse(Render(a) + SUFFIX).value, Render(b)) <==> a <= b
  {
    RenderAlnum(a);
    HierarchyPattern(Render(a), Render(b));
    PrefixIsAncestor(a, b);
  }

  function RenderAll(xs: seq<seq<Segment>>): seq<string> {
    seq(|xs|, i requires 0 <= i < |xs| => Render(xs[i]))
  }

  /** The pattern built from the ids of a subquery selects the union of their subtrees, as long
      as the subquery returns something; from no ids at all it selects every xname. */
  lemma AlternationIsUnion(xs: seq<seq<Segment>>, b: seq<Segment>)
    requires (forall x :: x in xs ==> XnameOk(x)) && XnameOk(b)
    ensures Parse("(" + JoinBar(RenderAll(xs)) + ")" + SUFFIX).Some?
    ensures Matches(Parse("(" + JoinBar(RenderAll(xs)) + ")" + SUFFIX).value, Render(b)) <==>
            xs == [] || exists x :: x in xs && x <= b
  {
    var ids := RenderAll(xs);
    forall id | id in ids ensures AllAlnum(id) {
      var i :| 0 <= i < |xs| && id == Render(xs[i]);
      assert xs[i] in xs;
      RenderAlnum(xs[i]);
    }
    AlternationPattern(ids, Render(b));
    RenderAlnum(b);
    hide Parse, Matches, IsTail, XnameOk, JoinBar, AllAlnum, Render;
    forall x | x in xs ensures Render(x) in ids && (Render(x) <= Render(b) && IsTail(Render(b)[|Render(x)|..]) <==> x <= b) {
      var i :| 0 <= i < |xs| && xs[i] == x;
      assert ids[i] == Render(x);
      PrefixIsAncestor(x, b);
    }
    if id :| id in ids && id <= Render(b) && IsTail(Render(b)[|id|..]) {
      var i :| 0 <= i < |xs| && id == Render(xs[i]);
      assert xs[i] in xs;
    }
  }
}
