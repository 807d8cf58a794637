/** The part of SQL's SIMILAR TO patterns that hierarchy queries use (section 9.7.2 of the
    PostgreSQL manual): literal letters and digits, the classes `[[:alpha:]]` and
    `[[:alnum:]]`, `*`, `?`, `|` and parentheses. A pattern must match the whole string. */
module SimilarTo {
  import opened Wrappers

  predicate IsLower(c: char) { 'a' <= c <= 'z' }

  predicate IsDigit(c: char) { '0' <= c <= '9' }

  predicate IsAlpha(c: char) { IsLower(c) || 'A' <= c <= 'Z' }

  predicate IsAlnum(c: char) { IsAlpha(c) || IsDigit(c) }

  predicate AllAlnum(s: string) {
    forall i :: 0 <= i < |s| ==> IsAlnum(s[i])
  }

  // ---- Text to tokens ----

  datatype Token = Lit(c: char) | Alpha | Alnum | Open | Close | Bar | Optional | Repeat | Bad

  const ALPHA := "[[:alpha:]]"
  const ALNUM := "[[:alnum:]]"

  function CharToken(c: char): Token {
    if IsAlnum(c) then Lit(c)
    else if c == '(' then Open
    else if c == ')' then Close
    else if c == '|' then Bar
    else if c == '?' then Optional
    else if c == '*' then Repeat
    else Bad
  }

  function Lex(s: string): seq<Token> {
    if s == "" then []
    else if |ALPHA| <= |s| && ALPHA <= s then [Alpha] + Lex(s[|ALPHA|..])
    else if |ALNUM| <= |s| && ALNUM <= s then [Alnum] + Lex(s[|ALNUM|..])
    else [CharToken(s[0])] + Lex(s[1..])
  }

  function Literals(s: string): seq<Token> {
    seq(|s|, i requires 0 <= i < |s| => Lit(s[i]))
  }

  lemma LexChar(c: char, s: string)
    requires c != '['
    ensures Lex([c] + s) == [CharToken(c)] + Lex(s)
  {
    var t := [c] + s;
    assert ALPHA[0] == '[' && ALNUM[0] == '[';
    assert t[0] == c && t[1..] == s;
    assert !(|ALPHA| <= |t| && ALPHA <= t) && !(|ALNUM| <= |t| && ALNUM <= t);
  }

  lemma {:induction false} LexLiterals(id: string, s: string)
    requires AllAlnum(id)
    ensures Lex(id + s) == Literals(id) + Lex(s)
  {
    if id == "" {
      assert id + s == s;
    } else {
      assert id + s == [id[0]] + (id[1..] + s);
      LexChar(id[0], id[1..] + s);
      LexLiterals(id[1..], s);
      assert Literals(id) == [Lit(id[0])] + Literals(id[1..]);
    }
  }

  // ---- Patterns ----

  datatype Re =
    | Empty
    | Char(c: char)
    | AlphaClass
    | AlnumClass
    | Cat(a: Re, b: Re)
    | Either(a: Re, b: Re)
    | Opt(a: Re)
    | Star(a: Re)

  type Parsed = Option<(Re, seq<Token>)>

  function ParseAlt(ts: seq<Token>): (r: Parsed)
    ensures r.Some? ==> |r.value.1| <= |ts|
    decreases |ts|, 2
  {
    match ParseCat(ts)
    case None => None
    case Some((a, rest)) =>
      if rest != [] && rest[0] == Bar then
        match ParseAlt(rest[1..])
        case None => None
        case Some((b, rest')) => Some((Either(a, b), rest'))
      else Some((a, rest))
  }

  /** A possibly empty run of pieces. */
  function ParseCat(ts: seq<Token>): (r: Parsed)
    ensures r.Some? ==> |r.value.1| <= |ts|
    decreases |ts|, 1
  {
    if ts == [] || ts[0] == Close || ts[0] == Bar then Some((Empty, ts))
    else
      match ParsePiece(ts)
      case None => None
      case Some((a, rest)) =>
        match ParseCat(rest)
        case None => None
        case Some((b, rest')) => Some((Cat(a, b), rest'))
  }

  function ParsePiece(ts: seq<Token>): (r: Parsed)
    requires ts != []
    ensures r.Some? ==> |r.value.1| < |ts|
    decreases |ts|, 0
  {
    match ParseUnit(ts)
    case None => None
    case Some((a, rest)) =>
      if rest != [] && rest[0] == Optional then Some((Opt(a), rest[1..]))
      else if rest != [] && rest[0] == Repeat then Some((Star(a), rest[1..]))
      else Some((a, rest))
  }

  function ParseUnit(ts: seq<Token>): (r: Parsed)
    requires ts != []
    ensures r.Some? ==> |r.value.1| < |ts|
    decreases |ts|, 0, 0
  {
    match ts[0]
    case Lit(c) => Some((Char(c), ts[1..]))
    case Alpha => Some((AlphaClass, ts[1..]))
    case Alnum => Some((AlnumClass, ts[1..]))
    case Open =>
      (match ParseAlt(ts[1..])
       case None => None
       case Some((a, rest)) => if rest != [] && rest[0] == Close then Some((a, rest[1..])) else None)
    case _ => None
  }

  function Parse(pattern: string): Option<Re> {
    match ParseAlt(Lex(pattern))
    case None => None
    case Some((re, rest)) => if rest == [] then Some(re) else None
  }

  predicate Matches(re: Re, s: string)
    decreases re, |s|
  {
    match re
    case Empty => s == ""
    case Char(c) => s == [c]
    case AlphaClass => |s| == 1 && IsAlpha(s[0])
    case AlnumClass => |s| == 1 && IsAlnum(s[0])
    case Cat(a, b) => exists i :: 0 <= i <= |s| && Matches(a, s[..i]) && Matches(b, s[i..])
    case Either(a, b) => Matches(a, s) || Matches(b, s)
    case Opt(a) => s == "" || Matches(a, s)
    case Star(a) => s == "" || exists i :: 0 < i <= |s| && Matches(a, s[..i]) && Matches(re, s[i..])
  }

  // ---- The hierarchy suffix ----

  /** `([[:alpha:]][[:alnum:]]*)?` */
  const SUFFIX := "(" + (ALPHA + (ALNUM + "*)?"))

  function SuffixTokens(): seq<Token> {
    [Open, Alpha, Alnum, Repeat, Close, Optional]
  }

  function SuffixRe(): Re {
    Opt(Cat(AlphaClass, Cat(Star(AlnumClass), Empty)))
  }

  lemma LexSuffix()
    ensures Lex(SUFFIX) == SuffixTokens()
  {
    LexSuffixEnd();
    hide Lex;
    LexClass(ALNUM, Alnum, "*)?");
    LexClass(ALPHA, Alpha, ALNUM + "*)?");
    LexChar('(', ALPHA + (ALNUM + "*)?"));
  }

  lemma LexSuffixEnd()
    ensures Lex("*)?") == [Repeat, Close, Optional]
  {
    assert "*)?" == ['*'] + ")?" && ")?" == [')'] + "?" && "?" == ['?'] + "";
    LexChar('*', ")?");
    LexChar(')', "?");
    LexChar('?', "");
    assert Lex("") == [];
  }

  lemma LexClass(name: string, t: Token, rest: string)
    requires (name == ALPHA && t == Alpha) || (name == ALNUM && t == Alnum)
    ensures Lex(name + rest) == [t] + Lex(rest)
  {
    var s := name + rest;
    assert s[|name|..] == rest && name <= s;
    if name == ALNUM {
      assert ALPHA[4] == 'l' && ALNUM[4] == 'l' && ALPHA[5] != ALNUM[5];
      assert s[5] == ALNUM[5];
    }
  }

  lemma ParseSuffix(rest: seq<Token>)
    requires rest == []
    ensures ParsePiece(SuffixTokens() + rest) == Some((SuffixRe(), rest))
  {
    var ts := SuffixTokens() + rest;
    assert ts == SuffixTokens();
    assert ts[1..] == [Alpha, Alnum, Repeat, Close, Optional];
    var inner := ts[1..];
    assert inner[1..] == [Alnum, Repeat, Close, Optional];
    assert inner[1..][1..] == [Repeat, Close, Optional];
    assert inner[1..][1..][1..] == [Close, Optional];
    assert inner[1..][1..][1..][1..] == [Optional];
    assert ParsePiece(inner[1..]) == Some((Star(AlnumClass), [Close, Optional]));
    assert ParseCat([Close, Optional]) == Some((Empty, [Close, Optional]));
    assert ParseCat(inner[1..]) == Some((Cat(Star(AlnumClass), Empty), [Close, Optional]));
    assert ParsePiece(inner) == Some((AlphaClass, inner[1..]));
    assert ParseCat(inner) == Some((Cat(AlphaClass, Cat(Star(AlnumClass), Empty)), [Close, Optional]));
    assert ParseAlt(inner) == Some((Cat(AlphaClass, Cat(Star(AlnumClass), Empty)), [Close, Optional]));
    assert [Close, Optional][1..] == [Optional] && [Optional][1..] == [];
  }

  lemma {:induction false} StarAlnum(s: string)
    ensures Matches(Star(AlnumClass), s) <==> AllAlnum(s)
  {
    if s != "" {
      StarAlnum(s[1..]);
      if AllAlnum(s) {
        assert Matches(AlnumClass, s[..1]) && AllAlnum(s[1..]);
      }
      if i :| 0 < i <= |s| && Matches(AlnumClass, s[..i]) && Matches(Star(AlnumClass), s[i..]) {
        assert i == 1;
      }
    }
  }

  lemma CatEmpty(a: Re, s: string)
    ensures Matches(Cat(a, Empty), s) <==> Matches(a, s)
  {
    assert s[..|s|] == s && s[|s|..] == "";
    if i :| 0 <= i <= |s| && Matches(a, s[..i]) && Matches(Empty, s[i..]) {
      assert i == |s|;
    }
  }

  /** The suffix matches nothing, or a letter followed by letters and digits. */
  predicate IsTail(s: string) {
    s == "" || (IsAlpha(s[0]) && AllAlnum(s))
  }

  lemma SuffixMatches(s: string)
    ensures Matches(SuffixRe(), s) <==> IsTail(s)
  {
    var rest := Cat(Star(AlnumClass), Empty);
    if s != "" {
      CatEmpty(Star(AlnumClass), s[1..]);
      StarAlnum(s[1..]);
      assert s[..1] == [s[0]];
      assert Matches(AlphaClass, s[..1]) <==> IsAlpha(s[0]);
      if i :| 0 <= i <= |s| && Matches(AlphaClass, s[..i]) && Matches(rest, s[i..]) {
        assert i == 1;
      }
    }
  }

  // ---- A literal and then a pattern ----

  function Literal(id: string, re: Re): Re {
    if id == "" then re else Cat(Char(id[0]), Literal(id[1..], re))
  }

  lemma {:induction false} LiteralMatches(id: string, re: Re, s: string)
    ensures Matches(Literal(id, re), s) <==> id <= s && Matches(re, s[|id|..])
  {
    if id == "" {
      assert s[0..] == s;
    } else {
      if s != "" && s[0] == id[0] {
        LiteralMatches(id[1..], re, s[1..]);
        if |id| <= |s| {
          assert s[1..][|id| - 1..] == s[|id|..];
        }
        assert s[..1] == [id[0]];
        assert id[1..] <= s[1..] <==> id <= s by { ConsPrefix(id, s); }
      }
      if i :| 0 <= i <= |s| && Matches(Char(id[0]), s[..i]) && Matches(Literal(id[1..], re), s[i..]) {
        assert i == 1 && s[0] == s[..i][0];
      }
    }
  }

  lemma ConsPrefix(id: string, s: string)
    requires id != "" && s != "" && id[0] == s[0]
    ensures id[1..] <= s[1..] <==> id <= s
  {
    if id[1..] <= s[1..] {
      assert id == [id[0]] + id[1..] && s == [s[0]] + s[1..];
    }
  }

  lemma {:induction false} ParseLiteral(id: string, ts: seq<Token>, re: Re, rest: seq<Token>)
    requires ts == [] || ts[0] !in {Optional, Repeat}
    requires ParseCat(ts) == Some((re, rest))
    ensures ParseCat(Literals(id) + ts) == Some((Literal(id, re), rest))
  {
    if id == "" {
      assert Literals(id) + ts == ts;
    } else {
      var all := Literals(id) + ts;
      ParseLiteral(id[1..], ts, re, rest);
      assert all[1..] == Literals(id[1..]) + ts;
      assert all[0] == Lit(id[0]);
      assert ParsePiece(all) == Some((Char(id[0]), all[1..]));
    }
  }

  /** `id([[:alpha:]][[:alnum:]]*)?` is the id, or the id followed by a letter and then any
      letters and digits. */
  lemma HierarchyPattern(id: string, s: string)
    requires AllAlnum(id)
    ensures Parse(id + SUFFIX).Some?
    ensures Matches(Parse(id + SUFFIX).value, s) <==> id <= s && IsTail(s[|id|..])
  {
    var suffix, re := SuffixTokens(), Cat(SuffixRe(), Empty);
    LexLiterals(id, SUFFIX);
    LexSuffix();
    ParseSuffix([]);
    hide Lex, Matches, IsTail;
    assert suffix + [] == suffix;
    assert ParseCat([]) == Some((Empty, []));
    assert ParseCat(suffix) == Some((re, []));
    ParseLiteral(id, suffix, re, []);
    LiteralMatches(id, re, s);
    if id <= s {
      CatEmpty(SuffixRe(), s[|id|..]);
      SuffixMatches(s[|id|..]);
    }
  }

  // ---- An alternation of ids ----

  /** `array_to_string(ids, '|')` */
  function JoinBar(ids: seq<string>): string {
    if ids == [] then ""
    else if |ids| == 1 then ids[0]
    else ids[0] + "|" + JoinBar(ids[1..])
  }

  function AltRe(ids: seq<string>): Re {
    if |ids| == 0 then Empty
    else if |ids| == 1 then Literal(ids[0], Empty)
    else Either(Literal(ids[0], Empty), AltRe(ids[1..]))
  }

  lemma {:induction false} AltMatches(ids: seq<string>, s: string)
    ensures Matches(AltRe(ids), s) <==> if ids == [] then s == "" else s in ids
  {
    if |ids| > 0 {
      LiteralMatches(ids[0], Empty, s);
      assert ids[0] <= s && s[|ids[0]|..] == "" <==> s == ids[0];
      if |ids| > 1 {
        AltMatches(ids[1..], s);
        assert ids == [ids[0]] + ids[1..];
      }
    }
  }

  lemma {:induction false} ParseJoined(ids: seq<string>, s: string, rest: seq<Token>)
    requires forall id :: id in ids ==> AllAlnum(id)
    requires Lex(s) == [Close] + rest
    ensures ParseAlt(Lex(JoinBar(ids) + s)) == Some((AltRe(ids), Lex(s)))
  {
    hide Lex;
    var close := Lex(s);
    assert ParseCat(close) == Some((Empty, close));
    if ids == [] {
      assert JoinBar(ids) + s == s;
    } else if |ids| == 1 {
      LexLiterals(ids[0], s);
      ParseLiteral(ids[0], close, Empty, close);
    } else {
      var tail := JoinBar(ids[1..]) + s;
      assert JoinBar(ids) + s == ids[0] + (['|'] + tail);
      LexLiterals(ids[0], ['|'] + tail);
      LexChar('|', tail);
      var bar := [Bar] + Lex(tail);
      assert ParseCat(bar) == Some((Empty, bar));
      ParseLiteral(ids[0], bar, Empty, bar);
      assert bar[1..] == Lex(tail);
      ParseJoined(ids[1..], s, rest);
    }
  }

  /** A parenthesized alternation and the suffix, read by the parser. */
  lemma ParseTail(ts: seq<Token>, a: Re, close: seq<Token>)
    requires |ts| > 0 && ts[0] == Open && ParseAlt(ts[1..]) == Some((a, close))
    requires close == [Close] + SuffixTokens()
    ensures ParseAlt(ts) == Some((Cat(a, Cat(SuffixRe(), Empty)), []))
  {
    var suffix := SuffixTokens();
    ParseSuffix([]);
    assert suffix + [] == suffix && close[1..] == suffix;
    assert ParseCat([]) == Some((Empty, []));
    assert ParseCat(suffix) == Some((Cat(SuffixRe(), Empty), []));
    assert ParseUnit(ts) == Some((a, suffix));
    assert ParsePiece(ts) == Some((a, suffix));
  }

  lemma ParseAlternation(ids: seq<string>)
    requires forall id :: id in ids ==> AllAlnum(id)
    ensures Parse("(" + JoinBar(ids) + ")" + SUFFIX) == Some(Cat(AltRe(ids), Cat(SuffixRe(), Empty)))
  {
    LexSuffix();
    hide Lex, ParseAlt, JoinBar, AltRe;
    var body, close := JoinBar(ids) + (")" + SUFFIX), ")" + SUFFIX;
    assert "(" + JoinBar(ids) + ")" + SUFFIX == "(" + body;
    LexChar('(', body);
    LexChar(')', SUFFIX);
    ParseJoined(ids, close, SuffixTokens());
    ParseTail([Open] + Lex(body), AltRe(ids), Lex(close));
  }

  lemma CatSplits(a: Re, b: Re, s: string)
    ensures Matches(Cat(a, b), s) <==> exists i :: 0 <= i <= |s| && Matches(a, s[..i]) && Matches(b, s[i..])
  {
  }

  /** `(id1|id2|...)([[:alpha:]][[:alnum:]]*)?` is one of the ids and a tail. With no id at all
      the parentheses match the empty string, and a tail alone is left. */
  lemma AlternationPattern(ids: seq<string>, s: string)
    requires forall id :: id in ids ==> AllAlnum(id)
    ensures Parse("(" + JoinBar(ids) + ")" + SUFFIX).Some?
    ensures Matches(Parse("(" + JoinBar(ids) + ")" + SUFFIX).value, s) <==>
            if ids == [] then IsTail(s) else exists id :: id in ids && id <= s && IsTail(s[|id|..])
  {
    ParseAlternation(ids);
    hide Matches, IsTail, Parse, SuffixRe, AltRe;
    var suffix := Cat(SuffixRe(), Empty);
    CatSplits(AltRe(ids), suffix, s);
    forall i | 0 <= i <= |s| ensures Matches(suffix, s[i..]) <==> IsTail(s[i..]) {
      CatEmpty(SuffixRe(), s[i..]);
      SuffixMatches(s[i..]);
    }
    forall i | 0 <= i <= |s| ensures Matches(AltRe(ids), s[..i]) <==> if ids == [] then s[..i] == "" else s[..i] in ids {
      AltMatches(ids, s[..i]);
    }
    if ids == [] {
      assert s[..0] == "" && s[0..] == s;
    } else {
      forall id | id in ids && id <= s ensures s[..|id|] == id {}
    }
  }
}
