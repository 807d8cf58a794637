/** Posted NIDs and NID ranges, merged in front of the lists of a component filter. */
module NidRanges {
  import opened Wrappers
  import opened Strings
  import opened SqlText
  import opened ColumnFilter
  import opened FilterFields
  import opened WhereClause
  import opened NidQuery

  /** What one posted string says. */
  datatype Posted = Range(lo: string, hi: string) | Single(nid: string) | Blank | Malformed

  /** A range is everything up to the first and after the last hyphen. */
  function ReadPosted(s: string): Posted {
    var pieces := Split(s, '-');
    if |pieces| > 1 then
      if pieces[0] == "" || pieces[|pieces| - 1] == "" then Malformed
      else Range(pieces[0], pieces[|pieces| - 1])
    else if s == "" then Blank
    else Single(s)
  }

  lemma {:induction false} OnePiece(s: string, sep: char)
    ensures |Split(s, sep)| == 1 <==> sep !in s
  {
    if s != "" {
      assert s == [s[0]] + s[1..];
      OnePiece(s[1..], sep);
    }
  }

  lemma {:induction false} LastPiece(middle: string, last: string, sep: char)
    requires sep !in last && (middle != "" ==> middle[|middle| - 1] == sep)
    ensures var pieces := Split(middle + last, sep); pieces[|pieces| - 1] == last
  {
    if middle == "" {
      assert middle + last == last + "";
      SplitPiece(last, "", sep);
      assert last + "" == last;
    } else {
      assert (middle + last)[1..] == middle[1..] + last;
      LastPiece(middle[1..], last, sep);
      if middle[0] != sep {
        assert (middle[1..] + last)[|middle| - 2] == sep;
        OnePiece(middle[1..] + last, sep);
      }
    }
  }

  /** A text with hyphens is the range from what precedes the first one to what follows the last
      one, or malformed if either is nothing; without hyphens it is a single NID, or blank. */
  lemma PostedTextReads(lo: string, middle: string, hi: string)
    requires '-' !in lo && '-' !in hi && (middle != "" ==> middle[|middle| - 1] == '-')
    ensures ReadPosted(lo + "-" + middle + hi) == if lo == "" || hi == "" then Malformed else Range(lo, hi)
    ensures ReadPosted(lo) == if lo == "" then Blank else Single(lo)
  {
    var rest := middle + hi;
    assert lo + "-" + middle + hi == lo + ("-" + rest) && lo == lo + "";
    SplitPiece(lo, "-" + rest, '-');
    assert ("-" + rest)[1..] == rest;
    assert lo + "" == lo;
    LastPiece(middle, hi, '-');
    OnePiece(lo, '-');
  }

  predicate AnyMalformed(ranges: seq<string>) {
    exists i :: 0 <= i < |ranges| && ReadPosted(ranges[i]).Malformed?
  }

  function Starts(ranges: seq<string>): seq<string> {
    if ranges == [] then []
    else
      var n := |ranges| - 1;
      Starts(ranges[..n]) + (match ReadPosted(ranges[n]) case Range(lo, _) => [lo] case _ => [])
  }

  function Ends(ranges: seq<string>): seq<string> {
    if ranges == [] then []
    else
      var n := |ranges| - 1;
      Ends(ranges[..n]) + (match ReadPosted(ranges[n]) case Range(_, hi) => [hi] case _ => [])
  }

  function Singles(ranges: seq<string>): seq<string> {
    if ranges == [] then []
    else
      var n := |ranges| - 1;
      Singles(ranges[..n]) + (match ReadPosted(ranges[n]) case Single(x) => [x] case _ => [])
  }

  lemma OneMorePosted(ranges: seq<string>, i: nat)
    requires i < |ranges|
    ensures Starts(ranges[..i + 1]) == Starts(ranges[..i]) + (match ReadPosted(ranges[i]) case Range(lo, _) => [lo] case _ => [])
    ensures Ends(ranges[..i + 1]) == Ends(ranges[..i]) + (match ReadPosted(ranges[i]) case Range(_, hi) => [hi] case _ => [])
    ensures Singles(ranges[..i + 1]) == Singles(ranges[..i]) + (match ReadPosted(ranges[i]) case Single(x) => [x] case _ => [])
    ensures AnyMalformed(ranges[..i + 1]) <==> AnyMalformed(ranges[..i]) || ReadPosted(ranges[i]).Malformed?
  {
    var now := ranges[..i + 1];
    assert now[..i] == ranges[..i] && now[i] == ranges[i];
    hide ReadPosted;
    assert forall j :: 0 <= j < i ==> now[j] == ranges[..i][j];
  }

  lemma NothingPosted()
    ensures Starts([]) == [] && Ends([]) == [] && Singles([]) == [] && !AnyMalformed([])
  {
  }

  function Merge(ranges: seq<string>, f: NidFilter): NidFilter {
    NidFilter(Starts(ranges) + f.start, Ends(ranges) + f.end, Singles(ranges) + f.nid)
  }

  /** The filter of the one caller, which empties its lists of NIDs first. */
  const NO_NIDS := NidFilter([], [], [])

  method NidRangeToCompFilter(nidRanges: seq<string>, filter: Option<NidFilter>)
    returns (r: Result<NidFilter, string>)
    ensures r.Err? <==> AnyMalformed(nidRanges)
    ensures r.Ok? ==>
              r.value == Merge(nidRanges, if filter.Some? then filter.value else NO_NIDS)
  {
    hide Starts, Ends, Singles, Split;
    var start, end, nids := [], [], [];
    NothingPosted();
    assert nidRanges[..0] == [];
    var f := if filter.None? then NO_NIDS else filter.value;
    for i := 0 to |nidRanges|
      invariant !AnyMalformed(nidRanges[..i])
      invariant start == Starts(nidRanges[..i]) && end == Ends(nidRanges[..i]) && nids == Singles(nidRanges[..i])
    {
      var nid := nidRanges[i];
      OneMorePosted(nidRanges, i);
      var pieces := Split(nid, '-');
      if |pieces| > 1 {
        if |pieces[0]| == 0 || |pieces[|pieces| - 1]| == 0 {
          assert ReadPosted(nidRanges[i]).Malformed?;
          return Err("Argument was not a valid NID Range");
        }
        start := start + [pieces[0]];
        end := end + [pieces[|pieces| - 1]];
      } else if |nid| > 0 {
        nids := nids + [nid];
      }
    }
    assert nidRanges[..|nidRanges|] == nidRanges;
    if |f.start| > 0 {
      start := start + f.start;
    }
    if |f.end| > 0 {
      end := end + f.end;
    }
    if |f.nid| > 0 {
      nids := nids + f.nid;
    }
    r := Ok(NidFilter(start, end, nids));
  }

  // ---- What the strings say ----

  predicate PostedCovers(s: string, n: int) {
    match ReadPosted(s)
    case Range(lo, hi) => Nid(lo) <= n <= Nid(hi)
    case Single(x) => !Negated(x) && n == Nid(x)
    case _ => false
  }

  predicate PostedExcludes(s: string, n: int) {
    match ReadPosted(s)
    case Single(x) => Negated(x) && n == Nid(TrimBangs(x))
    case _ => false
  }

  ghost predicate AnyCovers(ranges: seq<string>, n: int) {
    exists i :: 0 <= i < |ranges| && PostedCovers(ranges[i], n)
  }

  ghost predicate AnyExcludes(ranges: seq<string>, n: int) {
    exists i :: 0 <= i < |ranges| && PostedExcludes(ranges[i], n)
  }

  /** A string that is neither blank nor negated asks for NIDs. */
  predicate Asks(s: string) {
    match ReadPosted(s)
    case Range(_, _) => true
    case Single(x) => !Negated(x)
    case _ => false
  }

  ghost predicate AsksForSome(ranges: seq<string>) {
    exists i :: 0 <= i < |ranges| && Asks(ranges[i])
  }

  // ---- What lists say ----

  predicate RangeHit(start: seq<string>, end: seq<string>, i: nat, n: int) {
    if i < |start| then InRange(start, end, i, n) else i < |end| && n <= Nid(end[i])
  }

  ghost predicate RangeHits(start: seq<string>, end: seq<string>, n: int) {
    exists i: nat :: RangeHit(start, end, i, n)
  }

  ghost predicate NidHits(nid: seq<string>, n: int) {
    exists i :: 0 <= i < |nid| && !Negated(nid[i]) && n == Nid(nid[i])
  }

  ghost predicate NidExcludes(nid: seq<string>, n: int) {
    exists i :: 0 <= i < |nid| && Negated(nid[i]) && n == Nid(TrimBangs(nid[i]))
  }

  predicate Plain(nids: seq<string>) {
    forall i :: 0 <= i < |nids| ==> !Negated(nids[i])
  }

  predicate AllNegated(nids: seq<string>) {
    forall i :: 0 <= i < |nids| ==> Negated(nids[i])
  }

  /** What a filter says. */
  ghost predicate NidMeans(f: NidFilter, n: int) {
    if HasRanges(f) then (RangeHits(f.start, f.end, n) || NidHits(f.nid, n)) && (f.start == [] ==> n >= 0)
    else (AllNegated(f.nid) || NidHits(f.nid, n)) && !NidExcludes(f.nid, n)
  }

  ghost predicate Named(nid: seq<string>, n: int) {
    exists i :: 0 <= i < |nid| && n == Nid(nid[i])
  }

  lemma CoversIsHits(start: seq<string>, end: seq<string>, nid: seq<string>, n: int)
    ensures Covers(start, end, nid, n) <==> RangeHits(start, end, n) || Named(nid, n)
    ensures Plain(nid) ==> (Named(nid, n) <==> NidHits(nid, n))
  {
    hide Nid, TrimBangs;
    if i :| 0 <= i < |start| && InRange(start, end, i, n) {
      assert RangeHit(start, end, i, n);
    }
    if i :| |start| <= i < |end| && n <= Nid(end[i]) {
      assert RangeHit(start, end, i, n);
    }
  }

  /** With as many starts as ends in front, all pairs stay aligned. */
  lemma RangesAppend(start: seq<string>, end: seq<string>, start': seq<string>, end': seq<string>, n: int)
    requires |start| == |end|
    ensures RangeHits(start + start', end + end', n) <==> RangeHits(start, end, n) || RangeHits(start', end', n)
  {
    hide Nid;
    var s, e, k := start + start', end + end', |start|;
    forall i: nat | i < k ensures RangeHit(s, e, i, n) == RangeHit(start, end, i, n) {}
    forall i: nat ensures RangeHit(s, e, k + i, n) == RangeHit(start', end', i, n) {}
    forall i: nat | RangeHit(s, e, i, n) && i >= k ensures RangeHit(start', end', i - k, n) {
      assert i == k + (i - k);
    }
  }

  lemma ListsAppend(a: seq<string>, b: seq<string>, n: int)
    ensures Named(a + b, n) <==> Named(a, n) || Named(b, n)
    ensures NidHits(a + b, n) <==> NidHits(a, n) || NidHits(b, n)
    ensures NidExcludes(a + b, n) <==> NidExcludes(a, n) || NidExcludes(b, n)
    ensures AllNegated(a + b) <==> AllNegated(a) && AllNegated(b)
    ensures Plain(a + b) <==> Plain(a) && Plain(b)
  {
    hide Nid, TrimBangs, Negated;
    var s, m := a + b, |a|;
    assert forall i :: 0 <= i < m ==> s[i] == a[i];
    assert forall i :: 0 <= i < |b| ==> s[m + i] == b[i];
    assert forall i :: m <= i < |s| ==> s[i] == b[i - m];
  }

  /** Lists with as many starts as ends, put in front of other lists, leave all pairs aligned. */
  lemma MergeCovers(start: seq<string>, end: seq<string>, nid: seq<string>,
                    start': seq<string>, end': seq<string>, nid': seq<string>, n: int)
    requires |start| == |end|
    ensures Covers(start + start', end + end', nid + nid', n) <==>
            Covers(start, end, nid, n) || Covers(start', end', nid', n)
  {
    hide Covers, RangeHits, Named, NidHits, NidExcludes, Plain, AllNegated;
    RangesAppend(start, end, start', end', n);
    ListsAppend(nid, nid', n);
    CoversIsHits(start + start', end + end', nid + nid', n);
    CoversIsHits(start, end, nid, n);
    CoversIsHits(start', end', nid', n);
  }

  lemma {:induction false} PairedStarts(ranges: seq<string>)
    ensures |Starts(ranges)| == |Ends(ranges)|
  {
    if ranges != [] {
      PairedStarts(ranges[..|ranges| - 1]);
    }
  }

  lemma NothingSaid(n: int)
    ensures !AnyCovers([], n) && !AnyExcludes([], n) && !AsksForSome([])
    ensures !RangeHits([], [], n) && !NidHits([], n) && !NidExcludes([], n) && AllNegated([]) && Plain([])
  {
  }

  lemma PostedAppend(front: seq<string>, last: string, n: int)
    ensures AnyCovers(front + [last], n) <==> AnyCovers(front, n) || PostedCovers(last, n)
    ensures AnyExcludes(front + [last], n) <==> AnyExcludes(front, n) || PostedExcludes(last, n)
    ensures AsksForSome(front + [last]) <==> AsksForSome(front) || AsksForSome([last])
  {
    hide PostedCovers, PostedExcludes, ReadPosted;
    var all := front + [last];
    assert all[|front|] == last;
    assert forall i :: 0 <= i < |front| ==> all[i] == front[i];
    assert [last][0] == last;
  }

  lemma OneHits(lo: string, hi: string, x: string, n: int)
    ensures RangeHits([lo], [hi], n) <==> Nid(lo) <= n <= Nid(hi)
    ensures NidHits([x], n) <==> !Negated(x) && n == Nid(x)
    ensures NidExcludes([x], n) <==> Negated(x) && n == Nid(TrimBangs(x))
    ensures AllNegated([x]) <==> Negated(x)
  {
    hide Nid, TrimBangs, Negated;
    assert RangeHit([lo], [hi], 0, n) <==> Nid(lo) <= n <= Nid(hi);
    assert [x][0] == x;
  }

  /** The posted strings say what their starts, ends and singles say. */
  lemma {:induction false} PostedAsLists(ranges: seq<string>, n: int)
    ensures |Starts(ranges)| == |Ends(ranges)|
    ensures AnyCovers(ranges, n) <==> RangeHits(Starts(ranges), Ends(ranges), n) || NidHits(Singles(ranges), n)
    ensures AnyExcludes(ranges, n) <==> NidExcludes(Singles(ranges), n)
    ensures AsksForSome(ranges) <==> Starts(ranges) != [] || !AllNegated(Singles(ranges))
  {
    hide AnyCovers, AnyExcludes, AsksForSome, ReadPosted, RangeHits, NidHits, NidExcludes, AllNegated, Nid, Negated,
      TrimBangs;
    PairedStarts(ranges);
    NothingSaid(n);
    if ranges != [] {
      var k := |ranges| - 1;
      var front, last := ranges[..k], ranges[k];
      assert ranges == front + [last];
      PairedStarts(front);
      PostedAsLists(front, n);
      PostedAppend(front, last, n);
      OneAsks(last);
      match ReadPosted(last) {
        case Range(lo, hi) =>
          assert Singles(ranges) == Singles(front);
          OneHits(lo, hi, "", n);
          RangesAppend(Starts(front), Ends(front), [lo], [hi], n);
        case Single(x) =>
          assert Starts(ranges) == Starts(front) && Ends(ranges) == Ends(front);
          OneHits("", "", x, n);
          ListsAppend(Singles(front), [x], n);
        case Blank =>
          assert Starts(ranges) == Starts(front) && Ends(ranges) == Ends(front) && Singles(ranges) == Singles(front);
        case Malformed =>
          assert Starts(ranges) == Starts(front) && Ends(ranges) == Ends(front) && Singles(ranges) == Singles(front);
      }
    }
  }

  lemma OneAsks(s: string)
    ensures AsksForSome([s]) <==> Asks(s)
  {
    hide Asks;
    assert [s][0] == s;
  }

  // ---- Checking the filter ----

  /** `nidStrTransform`: no NID is -1, and what is not a number is refused. */
  function NidTransform(s: string): string {
    if s == "" then "-1" else if !AllDigits(s) then "" else s
  }

  function NormalizeAll(nids: seq<string>): seq<string> {
    seq(|nids|, i requires 0 <= i < |nids| => Normalized(nids[i], NidTransform))
  }

  /** The filter as the check leaves it. */
  function Normalize(f: NidFilter): NidFilter {
    NidFilter(NormalizeAll(f.start), NormalizeAll(f.end), NormalizeAll(f.nid))
  }

  predicate AnyRefused(nids: seq<string>, emptyOk: bool) {
    exists i :: 0 <= i < |nids| && Refused(nids[i], NidTransform, emptyOk)
  }

  predicate NidRefused(f: NidFilter) {
    AnyRefused(f.start, false) || AnyRefused(f.end, false) || AnyRefused(f.nid, true)
  }

  lemma TransformMeans(s: string)
    ensures ParseBigint(NidTransform(s)).Some? ==> NidTransform(s) != "" && Nid(NidTransform(s)) == Nid(s)
    ensures ParseBigint(NidTransform(s)).Some? && s != "" ==> Nid(s) >= 0
  {
    assert "-1"[1..] == "1";
    assert DigitsValue("1") == 10 * DigitsValue("1"[..0]) + 1;
  }

  lemma NormalMeans(s: string)
    ensures Negated(Normalized(s, NidTransform)) <==> Negated(s)
    ensures Negated(s) ==> TrimBangs(Normalized(s, NidTransform)) == NidTransform(TrimBangs(s))
    ensures ParseBigint(Normalized(s, NidTransform)).Some? ==>
              && !Negated(s) && Nid(Normalized(s, NidTransform)) == Nid(s) && (s != "" ==> Nid(s) >= 0)
              && forall emptyOk :: !Refused(s, NidTransform, emptyOk)
  {
    var t := NidTransform(TrimBangs(s));
    assert !Negated(t);
    TrimNegation(t);
    TrimNegation(s);
    TransformMeans(s);
  }

  lemma AppendNormalized(a: seq<string>, b: seq<string>)
    ensures NormalizeAll(a + b) == NormalizeAll(a) + NormalizeAll(b)
  {
    hide Normalized;
  }

  lemma NumericAppend(a: seq<string>, b: seq<string>)
    ensures AllNumeric(a + b) <==> AllNumeric(a) && AllNumeric(b)
  {
    hide ParseBigint;
    assert forall i :: 0 <= i < |a| ==> (a + b)[i] == a[i];
    assert forall i :: 0 <= i < |b| ==> (a + b)[|a| + i] == b[i];
  }

  /** Checked values that the database can convert are unsigned and name what was written. */
  lemma NumericMeans(nids: seq<string>, n: int)
    requires AllNumeric(NormalizeAll(nids))
    ensures Plain(nids) && !NidExcludes(nids, n) && forall emptyOk :: !AnyRefused(nids, emptyOk)
    ensures forall i :: 0 <= i < |nids| ==> Nid(NormalizeAll(nids)[i]) == Nid(nids[i])
    ensures Named(NormalizeAll(nids), n) <==> NidHits(nids, n)
    ensures NidHits(nids, n) && "" !in nids ==> n >= 0
  {
    hide Nid, ParseBigint, Normalized, TrimBangs, NidTransform, Refused;
    forall i | 0 <= i < |nids|
      ensures !Negated(nids[i]) && Nid(NormalizeAll(nids)[i]) == Nid(nids[i]) && (nids[i] != "" ==> Nid(nids[i]) >= 0)
      ensures forall emptyOk :: !Refused(nids[i], NidTransform, emptyOk)
    {
      assert ParseBigint(NormalizeAll(nids)[i]).Some?;
      NormalMeans(nids[i]);
    }
  }

  /** Likewise for ranges. */
  lemma RangesMean(start: seq<string>, end: seq<string>, n: int)
    requires AllNumeric(NormalizeAll(start)) && AllNumeric(NormalizeAll(end))
    ensures RangeHits(NormalizeAll(start), NormalizeAll(end), n) <==> RangeHits(start, end, n)
  {
    hide Nid, AllNumeric, NormalizeAll;
    NumericMeans(start, n);
    NumericMeans(end, n);
    LengthKept(start);
    LengthKept(end);
    forall i: nat ensures RangeHit(NormalizeAll(start), NormalizeAll(end), i, n) == RangeHit(start, end, i, n) {}
  }

  lemma LengthKept(nids: seq<string>)
    ensures |NormalizeAll(nids)| == |nids|
  {
  }

  /** What one value of a list contributes. */
  lemma PositiveAt(nids: seq<string>, i: nat, n: int)
    requires i < |nids| && AllNumeric(Positives(NormalizeAll(nids))) && AllNumeric(Negatives(NormalizeAll(nids)))
    ensures Negated(NormalizeAll(nids)[i]) <==> Negated(nids[i])
    ensures var v := NormalizeAll(nids)[i];
            if Negated(nids[i]) then
              TrimBangs(v) in Negatives(NormalizeAll(nids)) && Nid(TrimBangs(v)) == Nid(TrimBangs(nids[i]))
            else v in Positives(NormalizeAll(nids)) && Nid(v) == Nid(nids[i])
    ensures forall emptyOk :: !Refused(nids[i], NidTransform, emptyOk)
  {
    hide ParseBigint, Normalized, NidTransform, TrimBangs, Positives, Negatives;
    var list := NormalizeAll(nids);
    var v := list[i];
    assert v == Normalized(nids[i], NidTransform) && v in list;
    NormalMeans(nids[i]);
    SplitKeepsAll(list, v);
    SplitKeepsAll(list, TrimBangs(v));
    NumericMember(Positives(list), v);
    NumericMember(Negatives(list), TrimBangs(v));
    TransformMeans(TrimBangs(nids[i]));
  }

  lemma NumericMember(list: seq<string>, v: string)
    requires AllNumeric(list)
    ensures v in list ==> ParseBigint(v).Some?
  {
  }

  /** And for a list with negations. */
  lemma ListMeans(nids: seq<string>, n: int)
    requires AllNumeric(Positives(NormalizeAll(nids))) && AllNumeric(Negatives(NormalizeAll(nids)))
    ensures ColumnConverts(NormalizeAll(nids), IntVal(n))
    ensures ColumnSelects(NormalizeAll(nids), IntVal(n)) <==>
            (AllNegated(nids) || NidHits(nids, n)) && !NidExcludes(nids, n)
    ensures forall emptyOk :: !AnyRefused(nids, emptyOk)
  {
    var list := NormalizeAll(nids);
    hide ParseBigint, Normalized, NidTransform, TrimBangs, Positives, Negatives, NormalizeAll, Negated, AllNumeric, Refused;
    LengthKept(nids);
    var pos, neg := Positives(list), Negatives(list);
    ConvertsIsNumeric(pos, n);
    ConvertsIsNumeric(neg, n);
    forall i: nat | i < |nids| ensures Negated(list[i]) <==> Negated(nids[i])
      ensures if Negated(nids[i]) then TrimBangs(list[i]) in neg && Nid(TrimBangs(list[i])) == Nid(TrimBangs(nids[i]))
              else list[i] in pos && Nid(list[i]) == Nid(nids[i])
      ensures forall emptyOk :: !Refused(nids[i], NidTransform, emptyOk)
    {
      PositiveAt(nids, i, n);
    }
    assert (exists p :: p in pos && Equals(IntVal(n), p)) <==> NidHits(nids, n) by {
      if p :| p in pos && Equals(IntVal(n), p) {
        SplitKeepsAll(list, p);
        var i :| 0 <= i < |list| && list[i] == p;
      }
    }
    assert (exists m :: m in neg && Equals(IntVal(n), m)) <==> NidExcludes(nids, n) by {
      if m :| m in neg && Equals(IntVal(n), m) {
        SplitKeepsAll(list, m);
        var arg :| arg in list && Negated(arg) && m == TrimBangs(arg);
        var i :| 0 <= i < |list| && list[i] == arg;
      }
    }
    assert pos == [] <==> AllNegated(nids) by {
      if pos != [] {
        SplitKeepsAll(list, pos[0]);
        var i :| 0 <= i < |list| && list[i] == pos[0];
      }
    }
  }

  /** A checked filter that the database takes selects what its values say. */
  lemma CheckedMeans(f: NidFilter, n: int)
    requires NidAccepted(Normalize(f))
    ensures NidSelects(Normalize(f), n) <==> NidMeans(f, n)
    ensures !NidRefused(f) && (HasRanges(f) ==> Plain(f.nid))
  {
    hide Nid, AllNumeric, NormalizeAll, Plain, AllNegated, Covers, AnyRefused, RangeHits, NidHits, NidExcludes, Named,
      Positives, Negatives, ColumnSelects, ColumnConverts;
    LengthKept(f.start);
    LengthKept(f.end);
    if HasRanges(f) {
      NumericMeans(f.start, n);
      NumericMeans(f.end, n);
      NumericMeans(f.nid, n);
      RangesMean(f.start, f.end, n);
      CoversIsHits(NormalizeAll(f.start), NormalizeAll(f.end), NormalizeAll(f.nid), n);
    } else {
      NothingRefused();
      ListMeans(f.nid, n);
    }
  }

  lemma NothingRefused()
    ensures forall emptyOk :: !AnyRefused([], emptyOk)
  {
  }

  // ---- Merging ----

  /** A filter that had ends but no start kept to NIDs of 0 and up; a posted range provides a
      start, and so its negative NIDs are selected as well. */
  ghost predicate LosesFloor(ranges: seq<string>, f: NidFilter, n: int) {
    f.start == [] && f.end != [] && Starts(ranges) != [] && n < 0 && (RangeHits(f.start, f.end, n) || NidHits(f.nid, n))
  }

  /** The filter asks for particular NIDs. */
  predicate Narrows(f: NidFilter) {
    HasRanges(f) || f.nid != []
  }

  /** What posted strings merged into a filter select. With any range, what the strings cover is
      added to what the filter asked for, except for `LosesFloor`. Without, the NIDs the two ask
      for are selected, or all if they ask for none, except those that one of them negates. */
  ghost predicate PostedSelects(ranges: seq<string>, f: NidFilter, n: int) {
    if Starts(ranges) != [] || HasRanges(f) then
      AnyCovers(ranges, n) || (Narrows(f) && NidMeans(f, n)) || LosesFloor(ranges, f, n)
    else
      && (AsksForSome(ranges) || !AllNegated(f.nid) ==> AnyCovers(ranges, n) || NidHits(f.nid, n))
      && !AnyExcludes(ranges, n) && !NidExcludes(f.nid, n)
  }

  lemma {:induction false} NoBlankSingles(ranges: seq<string>)
    ensures "" !in Singles(ranges)
  {
    if ranges != [] {
      NoBlankSingles(ranges[..|ranges| - 1]);
    }
  }

  /** Posted strings merged into any filter, checked and turned into a condition, select just
      what `PostedSelects` says. */
  lemma MergedFilterSelects(ranges: seq<string>, f: NidFilter, n: int)
    requires NidAccepted(Normalize(Merge(ranges, f)))
    ensures NidSelects(Normalize(Merge(ranges, f)), n) <==> PostedSelects(ranges, f, n)
    ensures !NidRefused(Merge(ranges, f))
  {
    var g := Merge(ranges, f);
    CheckedMeans(g, n);
    PostedAsLists(ranges, n);
    RangesAppend(Starts(ranges), Ends(ranges), f.start, f.end, n);
    ListsAppend(Singles(ranges), f.nid, n);
    NothingSaid(n);
    hide Nid, Starts, Ends, Singles, AnyCovers, AnyExcludes, AsksForSome, AllNumeric, NormalizeAll, Plain, AllNegated,
      RangeHits, NidHits, NidExcludes, NidSelects, Negated, NidRefused;
    hide NidAccepted;
    if HasRanges(g) {
      MergedIsPlain(ranges, f, n);
    }
  }

  /** Among ranges, the database takes no negated NIDs. */
  lemma MergedIsPlain(ranges: seq<string>, f: NidFilter, n: int)
    requires NidAccepted(Normalize(Merge(ranges, f))) && HasRanges(Merge(ranges, f))
    ensures !NidExcludes(f.nid, n) && (f.nid != [] ==> !AllNegated(f.nid))
    ensures NidHits(Singles(ranges), n) ==> n >= 0
  {
    hide Starts, Ends, Singles, AllNumeric, NormalizeAll, Plain, AllNegated, NidHits, NidExcludes;
    var g := Merge(ranges, f);
    LengthKept(g.start);
    LengthKept(g.end);
    AppendNormalized(Singles(ranges), f.nid);
    NumericAppend(NormalizeAll(Singles(ranges)), NormalizeAll(f.nid));
    NumericMeans(Singles(ranges), n);
    NumericMeans(f.nid, n);
    NoBlankSingles(ranges);
    if f.nid != [] {
      PlainList(f.nid);
    }
  }

  lemma PlainList(nids: seq<string>)
    requires Plain(nids) && nids != []
    ensures !AllNegated(nids)
  {
    assert !Negated(nids[0]);
  }

  // ---- The service's own filter ----

  /** Merged into the empty filter of the service, the posted strings select what they cover
      and do not exclude, if one of them asks for NIDs; else they select all but the excluded. */
  lemma PostedFilterSelects(ranges: seq<string>, n: int)
    requires NidAccepted(Normalize(Merge(ranges, NO_NIDS)))
    ensures NidSelects(Normalize(Merge(ranges, NO_NIDS)), n) <==>
            (AsksForSome(ranges) ==> AnyCovers(ranges, n)) && !AnyExcludes(ranges, n)
  {
    hide AnyCovers, AnyExcludes, AsksForSome, NidAccepted, NidSelects, NidExcludes, NidHits, AllNegated, Starts, Singles;
    MergedFilterSelects(ranges, NO_NIDS, n);
    PostedAsLists(ranges, n);
    NothingSaid(n);
    if Starts(ranges) != [] {
      CheckedMeans(Merge(ranges, NO_NIDS), n);
      assert Merge(ranges, NO_NIDS).nid == Singles(ranges);
      PlainExcludesNothing(Singles(ranges), n);
    }
  }

  lemma PlainExcludesNothing(nids: seq<string>, n: int)
    requires Plain(nids)
    ensures !NidExcludes(nids, n)
  {
  }

  /** Only strings that ask for NIDs cover any, and nothing excludes a number that is no bigint. */
  lemma AskingCovers(ranges: seq<string>, n: int)
    ensures AnyCovers(ranges, n) ==> AsksForSome(ranges)
    ensures n >= BIGINT_LIMIT ==> !AnyExcludes(ranges, n)
  {
    hide ReadPosted, Negated, TrimBangs;
    if i :| 0 <= i < |ranges| && PostedCovers(ranges[i], n) {
      assert !ReadPosted(ranges[i]).Blank?;
    }
  }

  /** They select exactly what they cover and do not exclude if and only if one of them is
      neither blank nor negated. */
  lemma PostedFilterIsExact(ranges: seq<string>)
    requires NidAccepted(Normalize(Merge(ranges, NO_NIDS)))
    ensures (forall n :: NidSelects(Normalize(Merge(ranges, NO_NIDS)), n) <==> AnyCovers(ranges, n) && !AnyExcludes(ranges, n))
            <==> AsksForSome(ranges)
  {
    hide AnyCovers, AnyExcludes, AsksForSome, NidAccepted, NidSelects, Normalize, Merge;
    forall n
      ensures NidSelects(Normalize(Merge(ranges, NO_NIDS)), n) <==>
              (AsksForSome(ranges) ==> AnyCovers(ranges, n)) && !AnyExcludes(ranges, n)
    {
      PostedFilterSelects(ranges, n);
    }
    if !AsksForSome(ranges) {
      AskingCovers(ranges, BIGINT_LIMIT);
    }
  }

  /** The difference: a post of one blank string is accepted and selects every component. */
  lemma BlankPostSelectsAll(n: int)
    ensures var f := Merge([""], NO_NIDS);
            && !AnyMalformed([""]) && !NidRefused(f) && NidAccepted(Normalize(f))
            && NidSelects(Normalize(f), n) && !AnyCovers([""], n)
  {
    assert ReadPosted("") == Blank;
    var ranges := [""];
    assert ranges[..0] == [] && ranges[0] == "";
    NothingPosted();
    OneAsks("");
    PostedAsLists([""], n);
    assert Merge([""], NO_NIDS) == NO_NIDS;
    assert Normalize(NO_NIDS) == NO_NIDS;
    assert NidAccepted(NO_NIDS);
    PostedFilterSelects([""], n);
    AskingCovers([""], n);
  }

  /** A component without a NID has NID -1. A filter for NIDs up to some bound does not
      select it, and neither does a posted range; merged, they do. */
  lemma MergingCanSelectMissingNids(lo: string, hi: string, bound: string)
    requires ReadPosted(lo + "-" + hi) == Range(lo, hi) && AllNumeric([lo, hi, bound]) && AllDigits(lo + hi + bound)
    ensures var f := NidFilter([], [bound], []);
            && NidAccepted(Normalize(f)) && NidAccepted(Normalize(Merge([lo + "-" + hi], f)))
            && !AnyCovers([lo + "-" + hi], -1) && !NidSelects(Normalize(f), -1)
            && NidSelects(Normalize(Merge([lo + "-" + hi], f)), -1)
  {
    var s, f := lo + "-" + hi, NidFilter([], [bound], []);
    var ranges := [s];
    assert ranges[..0] == [];
    assert Starts(ranges) == Starts(ranges[..0]) + [lo] == [lo];
    assert Ends(ranges) == Ends(ranges[..0]) + [hi] == [hi];
    assert Singles(ranges) == Singles(ranges[..0]) == [];
    var g := Merge(ranges, f);
    assert g == NidFilter([lo], [hi, bound], []);
    NumbersStay(lo, hi, bound);
    hide ReadPosted, Starts, Ends, Singles, Nid, ParseBigint, Normalized, AllDigits, AnyCovers, NidSelects;
    assert NidAccepted(Normalize(f)) && NidAccepted(Normalize(g));
    PostedAsLists(ranges, -1);
    OneHits(lo, hi, "", -1);
    NothingSaid(-1);
    CheckedMeans(f, -1);
    CheckedMeans(g, -1);
    assert RangeHit(g.start, g.end, 1, -1);
  }

  lemma NumbersStay(lo: string, hi: string, bound: string)
    requires AllNumeric([lo, hi, bound]) && AllDigits(lo + hi + bound)
    ensures NormalizeAll([lo]) == [lo] && NormalizeAll([bound]) == [bound] && NormalizeAll([hi, bound]) == [hi, bound]
    ensures AllNumeric([lo]) && AllNumeric([bound]) && AllNumeric([hi, bound])
    ensures NormalizeAll([]) == [] && AllNumeric([])
    ensures Nid(lo) >= 0 && Nid(bound) >= 0
  {
    var all, list := lo + hi + bound, [lo, hi, bound];
    assert AllDigits(lo) by { assert forall i :: 0 <= i < |lo| ==> lo[i] == all[i]; }
    assert AllDigits(hi) by { assert forall i :: 0 <= i < |hi| ==> hi[i] == all[|lo| + i]; }
    assert AllDigits(bound) by { assert forall i :: 0 <= i < |bound| ==> bound[i] == all[|lo| + |hi| + i]; }
    assert list[0] == lo && list[1] == hi && list[2] == bound;
    NumberStays(lo);
    NumberStays(hi);
    NumberStays(bound);
  }

  lemma NumberStays(s: string)
    requires AllDigits(s) && ParseBigint(s).Some?
    ensures Normalized(s, NidTransform) == s && Nid(s) >= 0
  {
    assert !Negated(s);
  }

  // ---- End to end ----

  /** From the posted strings to the rows. With the merged and checked filter among other
      conditions, the generated text is taken exactly if all values are numbers the database can
      hold, and finds the rows that the other conditions select and whose NID the posted strings
      and the filter select together. */
  lemma PostedRangesSelect(q: seq<Part>, es: seq<Expr>, q': seq<Part>, col: string, ranges: seq<string>,
                           f: NidFilter, row: Row)
    requires AllRead(q, es) && IsColumnName(col) && col in row && row[col].IntVal?
    requires NidWhere(q, q', col, Normalize(Merge(ranges, f)))
    ensures Runs(q', row) <==> AllAccept(q, es, row) && NidAccepted(Normalize(Merge(ranges, f)))
    ensures Runs(q', row) ==> (Finds(q', row) <==> AllHold(q, es, row) && PostedSelects(ranges, f, row[col].n))
  {
    hide Parse, Lex, WhereText, WhereArgs, AllAccept, AllHold, Accepts, Holds, NidWhere, NidSelects, NidAccepted,
      Normalize, Merge, PostedSelects;
    var g := Normalize(Merge(ranges, f));
    if NidAccepted(g) {
      MergedFilterSelects(ranges, f, row[col].n);
    }
    if q' == [] {
      NoCondition(q, es, col, g, row);
    } else {
      NidFilterSelects(q, es, q', col, g, row);
    }
  }

  lemma NoCondition(q: seq<Part>, es: seq<Expr>, col: string, f: NidFilter, row: Row)
    requires AllRead(q, es) && NidWhere(q, [], col, f) && col in row && row[col].IntVal?
    ensures NidAccepted(f) && NidSelects(f, row[col].n) && AllAccept(q, es, row) && AllHold(q, es, row)
  {
    SplitKeepsAll(f.nid, "");
    assert f.nid == [];
  }

  /** The service's request, whose filter is empty. */
  lemma PostedQuerySelects(q: seq<Part>, es: seq<Expr>, q': seq<Part>, col: string, ranges: seq<string>, row: Row)
    requires AllRead(q, es) && IsColumnName(col) && col in row && row[col].IntVal?
    requires NidWhere(q, q', col, Normalize(Merge(ranges, NO_NIDS)))
    ensures Runs(q', row) <==> AllAccept(q, es, row) && NidAccepted(Normalize(Merge(ranges, NO_NIDS)))
    ensures Runs(q', row) ==>
              (Finds(q', row) <==>
               && AllHold(q, es, row)
               && (AsksForSome(ranges) ==> AnyCovers(ranges, row[col].n)) && !AnyExcludes(ranges, row[col].n))
  {
    hide AllRead, AllAccept, AllHold, NidWhere, NidSelects, NidAccepted, Normalize, Merge, PostedSelects, Runs, Finds,
      AnyCovers, AnyExcludes, AsksForSome;
    PostedRangesSelect(q, es, q', col, ranges, NO_NIDS, row);
    if NidAccepted(Normalize(Merge(ranges, NO_NIDS))) {
      MergedFilterSelects(ranges, NO_NIDS, row[col].n);
      PostedFilterSelects(ranges, row[col].n);
    }
  }

  method CheckNids(nids: seq<string>, emptyOk: bool) returns (r: Option<seq<string>>)
    ensures r.None? <==> AnyRefused(nids, emptyOk)
    ensures r.Some? ==> r.value == NormalizeAll(nids)
  {
    hide Normalized, Refused;
    var field := new string[|nids|](i requires 0 <= i < |nids| => nids[i]);
    assert forall i :: 0 <= i < |nids| ==> field[i] == nids[i];
    var ok := CheckFilterField(field, NidTransform, emptyOk);
    assert ok <==> forall i :: 0 <= i < |nids| ==> !Refused(nids[i], NidTransform, emptyOk);
    r := if ok then Some(field[..]) else None;
  }

  /** `doComponentByNIDQueryPost`: from the body of the request to the conditions of the query,
      of which the given ones come from the filter's other fields. */
  method QueryByNid(nidRanges: seq<string>, q: seq<Part>, alias: string) returns (r: Result<seq<Part>, string>)
    requires IsColumnName(alias + ".nid")
    ensures r.Err? <==> nidRanges == [] || AnyMalformed(nidRanges) || NidRefused(Merge(nidRanges, NO_NIDS))
    ensures r.Ok? ==> NidWhere(q, r.value, alias + ".nid", Normalize(Merge(nidRanges, NO_NIDS)))
  {
    hide AnyMalformed, AnyRefused, IsColumnName, NidWhere, NormalizeAll, Starts, Ends, Singles;
    if |nidRanges| < 1 {
      return Err("Missing NID ranges");
    }
    var merged := NidRangeToCompFilter(nidRanges, Some(NO_NIDS));
    if merged.Err? {
      return Err("bad query param: " + merged.error);
    }
    var nid := CheckNids(merged.value.nid, true);
    var start := CheckNids(merged.value.start, false);
    var end := CheckNids(merged.value.end, false);
    if nid.None? || start.None? || end.None? {
      return Err("a required argument was not an integer");
    }
    var where := WhereComponentNIDCol(q, alias, Some(NidFilter(start.value, end.value, nid.value)));
    r := Ok(where);
  }

  // ---- What is refused ----

  /** The NIDs that a posted text names: the ends of a range, or a single one. */
  predicate HasNid(text: string, nid: string) {
    match ReadPosted(text)
    case Range(lo, hi) => nid == lo || nid == hi
    case Single(x) => nid == x
    case _ => false
  }

  /** There is something other than digits behind the negation. */
  predicate NoNumber(nid: string) {
    exists i :: 0 <= i < |TrimBangs(nid)| && TrimBangs(nid)[i] !in "0123456789"
  }

  lemma {:induction false} PostedNids(ranges: seq<string>, nid: string)
    ensures nid in Starts(ranges) || nid in Ends(ranges) || nid in Singles(ranges) <==>
            exists i :: 0 <= i < |ranges| && HasNid(ranges[i], nid)
  {
    hide ReadPosted;
    if ranges != [] {
      var n := |ranges| - 1;
      assert ranges[..n + 1] == ranges;
      OneMorePosted(ranges, n);
      PostedNids(ranges[..n], nid);
      if i :| 0 <= i < n && HasNid(ranges[..n][i], nid) {
        assert HasNid(ranges[i], nid);
      }
      if i :| 0 <= i < |ranges| && HasNid(ranges[i], nid) && i < n {
        assert HasNid(ranges[..n][i], nid);
      }
      assert HasNid(ranges[n], nid) ==> exists i :: 0 <= i < |ranges| && HasNid(ranges[i], nid);
    }
  }

  lemma RefusedNid(nid: string, emptyOk: bool)
    ensures Refused(nid, NidTransform, emptyOk) <==> NoNumber(nid)
  {
    forall c: char ensures c in "0123456789" <==> '0' <= c <= '9' {
      Digit(c);
    }
  }

  lemma Digit(c: char)
    ensures c in "0123456789" <==> '0' <= c <= '9'
  {
  }

  lemma AnyRefusedMeans(nids: seq<string>, emptyOk: bool)
    ensures AnyRefused(nids, emptyOk) <==> exists nid :: nid in nids && NoNumber(nid)
  {
    hide NoNumber, Refused;
    forall nid: string ensures Refused(nid, NidTransform, emptyOk) <==> NoNumber(nid) {
      RefusedNid(nid, emptyOk);
    }
    if nid :| nid in nids && NoNumber(nid) {
      var i :| 0 <= i < |nids| && nids[i] == nid;
    }
  }

  /** A post without malformed ranges is refused by the check exactly if some NID in it has anything
      but digits behind its negation. */
  lemma RefusedPost(ranges: seq<string>)
    ensures NidRefused(Merge(ranges, NO_NIDS)) <==>
            exists i, nid :: 0 <= i < |ranges| && HasNid(ranges[i], nid) && NoNumber(nid)
  {
    hide NoNumber, HasNid, AnyRefused, Starts, Ends, Singles;
    AnyRefusedMeans(Starts(ranges), false);
    AnyRefusedMeans(Ends(ranges), false);
    AnyRefusedMeans(Singles(ranges), true);
    assert Merge(ranges, NO_NIDS) == NidFilter(Starts(ranges), Ends(ranges), Singles(ranges));
    forall nid ensures nid in Starts(ranges) || nid in Ends(ranges) || nid in Singles(ranges) <==>
                       exists i :: 0 <= i < |ranges| && HasNid(ranges[i], nid)
    {
      PostedNids(ranges, nid);
    }
  }

  // ---- The request in numbers ----

  function Decimal(n: nat): (s: string)
    ensures s != "" && AllDigits(s)
  {
    var digit := ["0123456789"[n % 10]];
    if n < 10 then digit else Decimal(n / 10) + digit
  }

  lemma {:induction false} DecimalMeans(n: nat)
    ensures DigitsValue(Decimal(n)) == n
  {
    var digit := "0123456789"[n % 10];
    assert DigitValue(digit) == n % 10;
    if n < 10 {
      assert Decimal(n)[..0] == "";
    } else {
      DecimalMeans(n / 10);
      assert Decimal(n)[..|Decimal(n)| - 1] == Decimal(n / 10);
    }
  }

  /** What a caller asks for with one string: "3-7", "5" or "!5". */
  datatype Ask = Between(lo: nat, hi: nat) | One(n: nat) | Excluding(n: nat)

  function Text(a: Ask): string {
    match a
    case Between(lo, hi) => Decimal(lo) + "-" + Decimal(hi)
    case One(n) => Decimal(n)
    case Excluding(n) => "!" + Decimal(n)
  }

  /** The numbers between two ends, or a single one. */
  predicate AsksFor(a: Ask, n: int) {
    match a
    case Between(lo, hi) => lo <= n <= hi
    case One(m) => n == m
    case Excluding(_) => false
  }

  function Texts(asks: seq<Ask>): seq<string> {
    seq(|asks|, i requires 0 <= i < |asks| => Text(asks[i]))
  }

  predicate IsBigint(n: nat) {
    n < BIGINT_LIMIT
  }

  predicate Bigints(a: Ask) {
    match a
    case Between(lo, hi) => IsBigint(lo) && IsBigint(hi)
    case One(n) => IsBigint(n)
    case Excluding(n) => IsBigint(n)
  }

  lemma DecimalIsNid(n: nat)
    requires IsBigint(n)
    ensures var s := Decimal(n);
            && ParseBigint(s) == Some(n) && Nid(s) == n && Normalized(s, NidTransform) == s && !Negated(s)
            && '-' !in s && '!' !in s
            && Negated("!" + s) && TrimBangs("!" + s) == s && Normalized("!" + s, NidTransform) == "!" + s
  {
    var s := Decimal(n);
    DecimalMeans(n);
    TrimNegation(s);
  }

  lemma TextReads(a: Ask)
    requires Bigints(a)
    ensures ReadPosted(Text(a)) == match a
                                   case Between(lo, hi) => Range(Decimal(lo), Decimal(hi))
                                   case One(n) => Single(Decimal(n))
                                   case Excluding(n) => Single("!" + Decimal(n))
  {
    hide ReadPosted, Decimal;
    match a
    case Between(lo, hi) =>
      DecimalIsNid(lo);
      DecimalIsNid(hi);
      PostedTextReads(Decimal(lo), "", Decimal(hi));
      assert Decimal(lo) + "-" + "" + Decimal(hi) == Text(a);
    case One(n) =>
      DecimalIsNid(n);
      PostedTextReads(Decimal(n), "", "");
    case Excluding(n) =>
      DecimalIsNid(n);
      PostedTextReads("!" + Decimal(n), "", "");
  }

  lemma AskMeans(a: Ask, n: int)
    requires Bigints(a)
    ensures PostedCovers(Text(a), n) <==> AsksFor(a, n)
    ensures PostedExcludes(Text(a), n) <==> a.Excluding? && n == a.n
    ensures Asks(Text(a)) <==> !a.Excluding?
  {
    TextReads(a);
    hide ReadPosted, Nid, Decimal, Negated, TrimBangs;
    match a
    case Between(lo, hi) =>
      DecimalIsNid(lo);
      DecimalIsNid(hi);
    case One(m) => DecimalIsNid(m);
    case Excluding(m) => DecimalIsNid(m);
  }

  predicate AnyBetween(asks: seq<Ask>) {
    exists i :: 0 <= i < |asks| && asks[i].Between?
  }

  predicate AnyExcluding(asks: seq<Ask>) {
    exists i :: 0 <= i < |asks| && asks[i].Excluding?
  }

  predicate AllBigints(asks: seq<Ask>) {
    forall i :: 0 <= i < |asks| ==> Bigints(asks[i])
  }

  lemma OneNumeric(n: nat)
    requires IsBigint(n)
    ensures var s := Decimal(n);
            && AllNumeric(NormalizeAll([s])) && !AllNumeric(NormalizeAll(["!" + s]))
            && NormalizeAll([s]) == [s] && NormalizeAll(["!" + s]) == ["!" + s]
            && AllNumeric([s])
  {
    DecimalIsNid(n);
    hide Decimal, Normalized, NidTransform;
    var s := Decimal(n);
    assert NormalizeAll([s]) == [s] && NormalizeAll(["!" + s]) == ["!" + s];
    assert ["!" + s][0] == "!" + s && ParseBigint("!" + s).None?;
  }

  lemma SplitSnoc(list: seq<string>, v: string)
    ensures Positives(list + [v]) == (if Negated(v) then Positives(list) else Positives(list) + [v])
    ensures Negatives(list + [v]) == (if Negated(v) then Negatives(list) + [TrimBangs(v)] else Negatives(list))
  {
    assert (list + [v])[..|list|] == list;
  }

  /** Lists that the database takes, with or without ranges, unless both ranges and negations
      are asked for. */
  ghost predicate Fits(start: seq<string>, end: seq<string>, nid: seq<string>, between: bool, negated: bool) {
    var singles := NormalizeAll(nid);
    && (start != [] <==> between) && |start| == |end|
    && AllNumeric(NormalizeAll(start)) && AllNumeric(NormalizeAll(end))
    && (AllNumeric(singles) <==> !negated)
    && AllNumeric(Positives(singles)) && AllNumeric(Negatives(singles))
  }

  lemma FitsRange(start: seq<string>, end: seq<string>, nid: seq<string>, between: bool, negated: bool, lo: nat, hi: nat)
    requires Fits(start, end, nid, between, negated) && IsBigint(lo) && IsBigint(hi)
    ensures Fits(start + [Decimal(lo)], end + [Decimal(hi)], nid, true, negated)
  {
    hide Decimal, AllNumeric, NormalizeAll, Positives, Negatives;
    OneNumeric(lo);
    OneNumeric(hi);
    AppendNormalized(start, [Decimal(lo)]);
    AppendNormalized(end, [Decimal(hi)]);
    NumericAppend(NormalizeAll(start), NormalizeAll([Decimal(lo)]));
    NumericAppend(NormalizeAll(end), NormalizeAll([Decimal(hi)]));
  }

  lemma FitsSingle(start: seq<string>, end: seq<string>, nid: seq<string>, between: bool, negated: bool, n: nat, not: bool)
    requires Fits(start, end, nid, between, negated) && IsBigint(n)
    ensures Fits(start, end, nid + [(if not then "!" else "") + Decimal(n)], between, negated || not)
  {
    hide Decimal, AllNumeric, NormalizeAll, Positives, Negatives, Negated, TrimBangs, ParseBigint;
    var s := Decimal(n);
    var v := (if not then "!" else "") + s;
    assert "" + s == s;
    OneNumeric(n);
    DecimalIsNid(n);
    AppendNormalized(nid, [v]);
    NumericAppend(NormalizeAll(nid), [v]);
    SplitSnoc(NormalizeAll(nid), v);
    NumericAppend(Positives(NormalizeAll(nid)), [s]);
    NumericAppend(Negatives(NormalizeAll(nid)), [s]);
  }

  lemma FitsNothing()
    ensures Fits([], [], [], false, false)
  {
    assert NormalizeAll([]) == [];
  }

  /** The lists that posted numbers become. */
  lemma {:induction false} AskedLists(asks: seq<Ask>)
    requires AllBigints(asks)
    ensures var r := Texts(asks); Fits(Starts(r), Ends(r), Singles(r), AnyBetween(asks), AnyExcluding(asks))
  {
    hide Fits, ReadPosted, Decimal, Text;
    if asks == [] {
      assert Texts(asks) == [];
      NothingPosted();
      FitsNothing();
    } else {
      var k := |asks| - 1;
      var front, last := asks[..k], asks[k];
      assert Bigints(last);
      AskedLists(front);
      TextReads(last);
      AnySnoc(asks);
      var r, f := Texts(asks), Texts(front);
      assert r[..k] == f && r[k] == Text(last);
      var between, negated := AnyBetween(front), AnyExcluding(front);
      match last
      case Between(lo, hi) =>
        FitsRange(Starts(f), Ends(f), Singles(f), between, negated, lo, hi);
        assert Singles(r) == Singles(f);
      case One(n) =>
        FitsSingle(Starts(f), Ends(f), Singles(f), between, negated, n, false);
        assert Starts(r) == Starts(f) && Ends(r) == Ends(f) && "" + Decimal(n) == Decimal(n);
      case Excluding(n) =>
        FitsSingle(Starts(f), Ends(f), Singles(f), between, negated, n, true);
        assert Starts(r) == Starts(f) && Ends(r) == Ends(f);
    }
  }

  lemma AnySnoc(asks: seq<Ask>)
    requires asks != []
    ensures var front, last := asks[..|asks| - 1], asks[|asks| - 1];
            && (AnyBetween(asks) <==> AnyBetween(front) || last.Between?)
            && (AnyExcluding(asks) <==> AnyExcluding(front) || last.Excluding?)
  {
    assert forall i :: 0 <= i < |asks| - 1 ==> asks[..|asks| - 1][i] == asks[i];
  }

  /** The NID is in a range or a number asked for. */
  predicate Wanted(asks: seq<Ask>, n: int) {
    exists i :: 0 <= i < |asks| && AsksFor(asks[i], n)
  }

  lemma AsksMean(asks: seq<Ask>, n: int)
    requires AllBigints(asks)
    ensures AnyCovers(Texts(asks), n) <==> Wanted(asks, n)
    ensures AnyExcludes(Texts(asks), n) <==> exists i :: 0 <= i < |asks| && asks[i].Excluding? && n == asks[i].n
    ensures AsksForSome(Texts(asks)) <==> exists i :: 0 <= i < |asks| && !asks[i].Excluding?
  {
    hide ReadPosted, Text;
    forall i | 0 <= i < |asks|
      ensures PostedCovers(Texts(asks)[i], n) <==> AsksFor(asks[i], n)
      ensures PostedExcludes(Texts(asks)[i], n) <==> asks[i].Excluding? && n == asks[i].n
      ensures Asks(Texts(asks)[i]) <==> !asks[i].Excluding?
    {
      assert Bigints(asks[i]);
      AskMeans(asks[i], n);
    }
  }

  /** A request by numbers, from the posted texts to the rows. The database takes it unless it asks
      for ranges and excludes NIDs at once; it finds the rows that the other conditions select and
      whose NID is wanted, if any are, and not excluded. */
  lemma PostedNumbersSelect(q: seq<Part>, es: seq<Expr>, q': seq<Part>, col: string, asks: seq<Ask>, row: Row)
    requires AllRead(q, es) && IsColumnName(col) && col in row && row[col].IntVal? && AllBigints(asks)
    requires NidWhere(q, q', col, Normalize(Merge(Texts(asks), NO_NIDS)))
    ensures Runs(q', row) <==> AllAccept(q, es, row) && !(AnyBetween(asks) && AnyExcluding(asks))
    ensures Runs(q', row) ==>
              (Finds(q', row) <==>
               && AllHold(q, es, row)
               && ((forall i :: 0 <= i < |asks| ==> asks[i].Excluding?) || Wanted(asks, row[col].n))
               && !exists i :: 0 <= i < |asks| && asks[i].Excluding? && row[col].n == asks[i].n)
  {
    hide AllRead, AllAccept, AllHold, NidWhere, Runs, Finds, AnyCovers, AnyExcludes, AsksForSome, Wanted;
    PostedQuerySelects(q, es, q', col, Texts(asks), row);
    AsksMean(asks, row[col].n);
    AskedLists(asks);
    assert NidAccepted(Normalize(Merge(Texts(asks), NO_NIDS))) <==> !(AnyBetween(asks) && AnyExcluding(asks)) by {
      hide AllNumeric, Positives, Negatives, Starts, Ends, Singles;
      var r := Texts(asks);
      assert Merge(r, NO_NIDS) == NidFilter(Starts(r), Ends(r), Singles(r));
      LengthKept(Starts(r));
      LengthKept(Ends(r));
    }
  }
}
