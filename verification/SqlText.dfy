/** The fragment of SQL conditions that the component queries generate: its text is split into
    tokens, parsed with AND binding tighter than OR (section 4.1.6 of the PostgreSQL manual),
    and evaluated on a row with one argument per placeholder. */
module SqlText {
  import opened Wrappers
  import SimilarTo

  datatype Op = Ge | Le | Eq | Ne

  datatype Token =
    | LParen | RParen | Comma | Placeholder
    | And | Or | In | Not | Similar | To
    | Compare(op: Op)
    | Number(value: int)
    | Literal(text: string)
    | Column(name: string)
    | Bad

  // ---- Text to tokens ----

  predicate IsDigit(c: char) { '0' <= c <= '9' }

  predicate IsWordChar(c: char) {
    'a' <= c <= 'z' || 'A' <= c <= 'Z' || IsDigit(c) || c == '.' || c == '_'
  }

  /** Characters that end any token before them and start no longer one. */
  predicate IsDelimiter(c: char) {
    c == ' ' || c == '(' || c == ')' || c == ',' || c == '?'
  }

  function WordLength(s: string): (n: nat)
    ensures n <= |s|
    ensures forall i :: 0 <= i < n ==> IsWordChar(s[i])
    ensures n < |s| ==> !IsWordChar(s[n])
  {
    if s != "" && IsWordChar(s[0]) then 1 + WordLength(s[1..]) else 0
  }

  predicate AllDigits(s: string) {
    forall i :: 0 <= i < |s| ==> IsDigit(s[i])
  }

  function DigitValue(c: char): nat
    requires IsDigit(c)
  {
    c as int - '0' as int
  }

  function DigitsValue(s: string): nat
    requires AllDigits(s)
  {
    if s == "" then 0 else 10 * DigitsValue(s[..|s| - 1]) + DigitValue(s[|s| - 1])
  }

  function WordToken(w: string): Token {
    if w == "AND" then And
    else if w == "OR" then Or
    else if w == "IN" then In
    else if w == "NOT" then Not
    else if w == "SIMILAR" then Similar
    else if w == "TO" then To
    else if AllDigits(w) then Number(DigitsValue(w))
    else Column(w)
  }

  const QUOTE := '\''

  /** A literal of letters and digits. */
  function QuotedToken(s: string): (r: (Token, nat))
    requires s != "" && s[0] == QUOTE
    ensures 0 < r.1 <= |s|
  {
    var n := WordLength(s[1..]);
    if n + 1 < |s| && s[n + 1] == QUOTE then (Literal(s[1..n + 1]), n + 2) else (Bad, 1)
  }

  /** The token at the front of a non-blank text, and its length. */
  function FirstToken(s: string): (r: (Token, nat))
    requires s != "" && s[0] != ' '
    ensures 0 < r.1 <= |s|
  {
    if s[0] == '(' then (LParen, 1)
    else if s[0] == ')' then (RParen, 1)
    else if s[0] == ',' then (Comma, 1)
    else if s[0] == '?' then (Placeholder, 1)
    else if s[0] == '=' then (Compare(Eq), 1)
    else if |s| > 1 && s[0] == '>' && s[1] == '=' then (Compare(Ge), 2)
    else if |s| > 1 && s[0] == '<' && s[1] == '=' then (Compare(Le), 2)
    else if |s| > 1 && s[0] == '!' && s[1] == '=' then (Compare(Ne), 2)
    else if s[0] == QUOTE then QuotedToken(s)
    else if IsWordChar(s[0]) then (WordToken(s[..WordLength(s)]), WordLength(s))
    else (Bad, 1)
  }

  function Lex(s: string): seq<Token> {
    if s == "" then []
    else if s[0] == ' ' then Lex(s[1..])
    else var (t, n) := FirstToken(s); [t] + Lex(s[n..])
  }

  lemma {:induction false} WordLengthAppend(a: string, b: string)
    requires b == "" || !IsWordChar(b[0]) || WordLength(a) < |a|
    ensures WordLength(a + b) == WordLength(a)
  {
    if a == "" {
      assert a + b == b;
    } else if IsWordChar(a[0]) {
      assert (a + b)[1..] == a[1..] + b;
      WordLengthAppend(a[1..], b);
    }
  }

  predicate CleanCut(a: string, b: string) {
    a == "" || b == "" || IsDelimiter(a[|a| - 1]) || IsDelimiter(b[0])
  }

  lemma WordFirst(s: string)
    requires s != "" && IsWordChar(s[0])
    ensures FirstToken(s) == (WordToken(s[..WordLength(s)]), WordLength(s))
  {
  }

  lemma QuotedAppend(a: string, b: string)
    requires a != "" && a[0] == QUOTE && CleanCut(a, b)
    ensures QuotedToken(a + b) == QuotedToken(a)
  {
    var t, n := a[1..], WordLength(a[1..]);
    assert a[|a| - 1] == if t == "" then QUOTE else t[|t| - 1];
    assert (a + b)[1..] == t + b;
    if b != "" && n == |t| {
      assert IsDelimiter(b[0]);
    }
    WordLengthAppend(t, b);
    hide WordLength, IsWordChar;
    if n + 1 < |a| {
      assert (a + b)[1..n + 1] == a[1..n + 1];
    }
  }

  lemma FirstTokenAppend(a: string, b: string)
    requires a != "" && a[0] != ' ' && CleanCut(a, b)
    ensures FirstToken(a + b) == FirstToken(a)
  {
    hide QuotedToken;
    if a[0] == QUOTE {
      QuotedAppend(a, b);
    } else if IsWordChar(a[0]) {
      if WordLength(a) == |a| {
        assert IsWordChar(a[|a| - 1]);
      }
      WordLengthAppend(a, b);
      WordFirst(a);
      WordFirst(a + b);
      assert (a + b)[..WordLength(a)] == a[..WordLength(a)];
    }
  }

  lemma LexNothing()
    ensures Lex("") == []
  {
  }

  lemma LexBlank(s: string)
    ensures Lex([' '] + s) == Lex(s)
  {
    assert ([' '] + s)[1..] == s;
  }

  lemma LexStep(s: string)
    requires s != "" && s[0] != ' '
    ensures Lex(s) == [FirstToken(s).0] + Lex(s[FirstToken(s).1..])
  {
  }

  lemma CleanCutTail(a: string, b: string, n: nat)
    requires CleanCut(a, b) && n <= |a|
    ensures CleanCut(a[n..], b)
  {
  }

  /** Tokens do not straddle a cut next to a delimiter. */
  lemma {:induction false} LexAppend(a: string, b: string)
    requires CleanCut(a, b)
    ensures Lex(a + b) == Lex(a) + Lex(b)
    decreases |a|
  {
    hide Lex, FirstToken, CleanCut;
    if a == "" {
      LexNothing();
      assert a + b == b;
    } else if a[0] == ' ' {
      var a' := a[1..];
      assert a + b == [' '] + (a' + b) && a == [' '] + a';
      LexBlank(a' + b);
      LexBlank(a');
      CleanCutTail(a, b, 1);
      LexAppend(a', b);
    } else {
      FirstTokenAppend(a, b);
      var (t, n) := FirstToken(a);
      LexStep(a);
      LexStep(a + b);
      var a' := a[n..];
      assert (a + b)[n..] == a' + b;
      CleanCutTail(a, b, n);
      LexAppend(a', b);
      assert [t] + (Lex(a') + Lex(b)) == [t] + Lex(a') + Lex(b);
    }
  }

  /** Names that lex as one column token. */
  predicate IsColumnName(col: string) {
    col != "" && WordLength(col) == |col| && WordToken(col) == Column(col)
  }

  lemma LexColumn(col: string)
    requires IsColumnName(col)
    ensures Lex(col) == [Column(col)]
  {
    WordFirst(col);
    LexStep(col);
    assert col[..|col|] == col && col[|col|..] == "";
  }

  // ---- Tokens to conditions ----

  datatype Operand = Arg | Const(value: int) | Text(text: string)

  /** `Group` is a parenthesized condition. */
  datatype Expr =
    | Cmp(col: string, op: Op, rhs: Operand)
    | InList(col: string, negated: bool, count: nat)
    | Resembles(col: string)   // col SIMILAR TO ?
    | Group(e: Expr)
    | AndOf(left: Expr, right: Expr)
    | OrOf(left: Expr, right: Expr)

  type Parsed = Option<(Expr, seq<Token>)>

  function ParseOr(ts: seq<Token>): (r: Parsed)
    ensures r.Some? ==> |r.value.1| < |ts|
    decreases |ts|, 2
  {
    match ParseAnd(ts)
    case None => None
    case Some((a, rest)) =>
      if rest != [] && rest[0] == Or then
        match ParseOr(rest[1..])
        case None => None
        case Some((b, rest')) => Some((OrOf(a, b), rest'))
      else Some((a, rest))
  }

  function ParseAnd(ts: seq<Token>): (r: Parsed)
    ensures r.Some? ==> |r.value.1| < |ts|
    decreases |ts|, 1
  {
    match ParseAtom(ts)
    case None => None
    case Some((a, rest)) =>
      if rest != [] && rest[0] == And then
        match ParseAnd(rest[1..])
        case None => None
        case Some((b, rest')) => Some((AndOf(a, b), rest'))
      else Some((a, rest))
  }

  function ParseAtom(ts: seq<Token>): (r: Parsed)
    ensures r.Some? ==> |r.value.1| < |ts|
    decreases |ts|, 0
  {
    if ts == [] then None
    else if ts[0] == LParen then
      match ParseOr(ts[1..])
      case None => None
      case Some((e, rest)) => if rest != [] && rest[0] == RParen then Some((Group(e), rest[1..])) else None
    else if ts[0].Column? && |ts| > 2 then
      var col := ts[0].name;
      if ts[1].Compare? && ts[2] == Placeholder then Some((Cmp(col, ts[1].op, Arg), ts[3..]))
      else if ts[1].Compare? && ts[2].Number? then Some((Cmp(col, ts[1].op, Const(ts[2].value)), ts[3..]))
      else if ts[1].Compare? && ts[2].Literal? then Some((Cmp(col, ts[1].op, Text(ts[2].text)), ts[3..]))
      else if ts[1] == In && ts[2] == LParen then ParseList(ts[3..], col, false, 0)
      else if ts[1] == Not && ts[2] == In && |ts| > 3 && ts[3] == LParen then ParseList(ts[4..], col, true, 0)
      else if ts[1] == Similar && ts[2] == To && |ts| > 3 && ts[3] == Placeholder then Some((Resembles(col), ts[4..]))
      else None
    else None
  }

  /** The rest of `IN (?,?,...)` after `count` placeholders and their commas. */
  function ParseList(ts: seq<Token>, col: string, negated: bool, count: nat): (r: Parsed)
    ensures r.Some? ==> |r.value.1| < |ts|
    decreases |ts|, 0
  {
    if |ts| < 2 || ts[0] != Placeholder then None
    else if ts[1] == RParen then Some((InList(col, negated, count + 1), ts[2..]))
    else if ts[1] == Comma then ParseList(ts[2..], col, negated, count + 1)
    else None
  }

  /** A whole condition. */
  function Parse(ts: seq<Token>): Option<Expr> {
    match ParseOr(ts)
    case None => None
    case Some((e, rest)) => if rest == [] then Some(e) else None
  }

  // ---- Conditions to tokens ----

  function PlaceholderList(count: nat): seq<Token> {
    if count == 0 then []
    else if count == 1 then [Placeholder]
    else [Placeholder, Comma] + PlaceholderList(count - 1)
  }

  function Print(e: Expr): (ts: seq<Token>)
  {
    match e
    case Cmp(col, op, Arg) => [Column(col), Compare(op), Placeholder]
    case Cmp(col, op, Const(n)) => [Column(col), Compare(op), Number(n)]
    case Cmp(col, op, Text(s)) => [Column(col), Compare(op), Literal(s)]
    case InList(col, false, count) => [Column(col), In, LParen] + PlaceholderList(count) + [RParen]
    case InList(col, true, count) => [Column(col), Not, In, LParen] + PlaceholderList(count) + [RParen]
    case Resembles(col) => [Column(col), Similar, To, Placeholder]
    case Group(g) => [LParen] + Print(g) + [RParen]
    case AndOf(a, b) => Print(a) + [And] + Print(b)
    case OrOf(a, b) => Print(a) + [Or] + Print(b)
  }

  predicate IsAtom(e: Expr)
    decreases e, 0
  {
    match e
    case Cmp(_, _, _) => true
    case InList(_, _, count) => count > 0
    case Resembles(_) => true
    case Group(g) => IsOr(g)
    case _ => false
  }

  predicate IsAnd(e: Expr)
    decreases e, 1
  {
    if e.AndOf? then IsAtom(e.left) && IsAnd(e.right) else IsAtom(e)
  }

  predicate IsOr(e: Expr)
    decreases e, 2
  {
    if e.OrOf? then IsAnd(e.left) && IsOr(e.right) else IsAnd(e)
  }

  predicate StartsWith(ts: seq<Token>, t: Token) {
    ts != [] && ts[0] == t
  }

  lemma {:induction false} ParseListPrint(count: nat, done: nat, col: string, negated: bool, rest: seq<Token>)
    requires count > 0
    ensures ParseList(PlaceholderList(count) + [RParen] + rest, col, negated, done) ==
            Some((InList(col, negated, done + count), rest))
  {
    var ts := PlaceholderList(count) + [RParen] + rest;
    if count == 1 {
      assert ts[2..] == rest;
    } else {
      assert ts[2..] == PlaceholderList(count - 1) + [RParen] + rest;
      ParseListPrint(count - 1, done + 1, col, negated, rest);
    }
  }

  lemma ParseComparison(col: string, op: Op, rhs: Operand, rest: seq<Token>)
    ensures ParseAtom(Print(Cmp(col, op, rhs)) + rest) == Some((Cmp(col, op, rhs), rest))
  {
    hide ParseAnd, ParseOr, ParseList;
    assert (Print(Cmp(col, op, rhs)) + rest)[3..] == rest;
  }

  lemma ParseSimilar(col: string, rest: seq<Token>)
    ensures ParseAtom(Print(Resembles(col)) + rest) == Some((Resembles(col), rest))
  {
    hide ParseAnd, ParseOr, ParseList;
    assert (Print(Resembles(col)) + rest)[4..] == rest;
  }

  lemma ParseInList(col: string, negated: bool, count: nat, rest: seq<Token>)
    requires count > 0
    ensures ParseAtom(Print(InList(col, negated, count)) + rest) == Some((InList(col, negated, count), rest))
  {
    hide ParseAnd, ParseOr, ParseList, PlaceholderList;
    var ts := Print(InList(col, negated, count)) + rest;
    var list := PlaceholderList(count) + [RParen] + rest;
    ParseListPrint(count, 0, col, negated, rest);
    if negated {
      assert ts == [Column(col), Not, In, LParen] + list;
      assert ts[4..] == list;
    } else {
      assert ts == [Column(col), In, LParen] + list;
      assert ts[3..] == list;
    }
  }

  lemma {:induction false} ParseAtomPrint(e: Expr, rest: seq<Token>)
    requires IsAtom(e)
    ensures ParseAtom(Print(e) + rest) == Some((e, rest))
    decreases e, 0
  {
    match e
    case Cmp(col, op, rhs) =>
      ParseComparison(col, op, rhs, rest);
    case InList(col, negated, count) =>
      ParseInList(col, negated, count, rest);
    case Resembles(col) =>
      ParseSimilar(col, rest);
    case Group(g) =>
      hide ParseAnd, ParseOr, ParseList, IsOr, IsAnd;
      var ts := Print(e) + rest;
      assert ts[1..] == Print(g) + ([RParen] + rest);
      ParseOrPrint(g, [RParen] + rest);
      assert ([RParen] + rest)[1..] == rest;
  }

  lemma {:induction false} ParseAndPrint(e: Expr, rest: seq<Token>)
    requires IsAnd(e) && !StartsWith(rest, And)
    ensures ParseAnd(Print(e) + rest) == Some((e, rest))
    decreases e, 1
  {
    hide ParseOr, ParseAtom, ParseList, IsAtom, IsOr;
    if e.AndOf? {
      var tail := [And] + Print(e.right) + rest;
      assert Print(e) + rest == Print(e.left) + tail;
      ParseAtomPrint(e.left, tail);
      assert tail[1..] == Print(e.right) + rest;
      ParseAndPrint(e.right, rest);
    } else {
      ParseAtomPrint(e, rest);
    }
  }

  lemma AndIsNotOr(e: Expr)
    requires IsAnd(e)
    ensures !e.OrOf?
  {
  }

  lemma {:induction false} ParseOrPrint(e: Expr, rest: seq<Token>)
    requires IsOr(e) && !StartsWith(rest, And) && !StartsWith(rest, Or)
    ensures ParseOr(Print(e) + rest) == Some((e, rest))
    decreases e, 2
  {
    hide ParseAnd, ParseAtom, ParseList, IsAtom, IsAnd;
    if e.OrOf? {
      var tail := [Or] + Print(e.right) + rest;
      assert Print(e) + rest == Print(e.left) + tail;
      ParseAndPrint(e.left, tail);
      assert tail[1..] == Print(e.right) + rest;
      ParseOrPrint(e.right, rest);
    } else {
      AndIsNotOr(e);
      ParseAndPrint(e, rest);
    }
  }

  /** Printing a condition whose parentheses respect precedence and parsing it gives it back. */
  lemma ParsePrint(e: Expr)
    requires IsOr(e)
    ensures Parse(Print(e)) == Some(e)
  {
    ParseOrPrint(e, []);
    assert Print(e) + [] == Print(e);
  }

  // ---- Meaning ----

  datatype Val = IntVal(n: int) | StrVal(s: string)

  type Row = map<string, Val>

  const BIGINT_LIMIT := 0x8000_0000_0000_0000

  /** The bigint a placeholder argument denotes, if it denotes one. */
  function ParseBigint(s: string): Option<int> {
    var negative := s != "" && s[0] == '-';
    var digits := if negative then s[1..] else s;
    if digits == "" || !AllDigits(digits) then None
    else
      var v: int := if negative then 0 - DigitsValue(digits) else DigitsValue(digits);
      if -BIGINT_LIMIT <= v < BIGINT_LIMIT then Some(v) else None
  }

  function Placeholders(e: Expr): nat {
    match e
    case Cmp(_, _, rhs) => if rhs == Arg then 1 else 0
    case InList(_, _, count) => count
    case Resembles(_) => 1
    case Group(g) => Placeholders(g)
    case AndOf(a, b) => Placeholders(a) + Placeholders(b)
    case OrOf(a, b) => Placeholders(a) + Placeholders(b)
  }

  /** An argument can be converted to the type of the column it is compared with. */
  predicate Converts(v: Val, arg: string) {
    v.IntVal? ==> ParseBigint(arg).Some?
  }

  predicate Orders(op: Op) {
    op == Ge || op == Le
  }

  /** The database accepts the arguments: one per placeholder, each convertible. */
  predicate Accepts(e: Expr, args: seq<string>, row: Row) {
    && |args| == Placeholders(e)
    && match e
       case Cmp(col, op, rhs) =>
         && col in row && (Orders(op) || rhs.Const? ==> row[col].IntVal?)
         && (rhs == Arg ==> Converts(row[col], args[0])) && (rhs.Text? ==> Converts(row[col], rhs.text))
       case InList(col, _, count) => col in row && forall i :: 0 <= i < count ==> Converts(row[col], args[i])
       case Resembles(col) => col in row && row[col].StrVal? && SimilarTo.Parse(args[0]).Some?
       case Group(g) => Accepts(g, args, row)
       case AndOf(a, b) => Accepts(a, args[..Placeholders(a)], row) && Accepts(b, args[Placeholders(a)..], row)
       case OrOf(a, b) => Accepts(a, args[..Placeholders(a)], row) && Accepts(b, args[Placeholders(a)..], row)
  }

  predicate Equals(v: Val, arg: string)
    requires Converts(v, arg)
  {
    match v
    case IntVal(n) => n == ParseBigint(arg).value
    case StrVal(s) => s == arg
  }

  predicate Holds(e: Expr, args: seq<string>, row: Row)
    requires Accepts(e, args, row)
  {
    match e
    case Cmp(col, op, rhs) =>
      if !Orders(op) && !rhs.Const? then Equals(row[col], if rhs == Arg then args[0] else rhs.text) == (op == Eq)
      else
        var v := match rhs case Arg => ParseBigint(args[0]).value case Const(c) => c case Text(s) => ParseBigint(s).value;
        (match op
         case Ge => row[col].n >= v
         case Le => row[col].n <= v
         case Eq => row[col].n == v
         case Ne => row[col].n != v)
    case InList(col, negated, count) =>
      (exists i :: 0 <= i < count && Equals(row[col], args[i])) != negated
    case Resembles(col) => SimilarTo.Matches(SimilarTo.Parse(args[0]).value, row[col].s)
    case Group(g) => Holds(g, args, row)
    case AndOf(a, b) => Holds(a, args[..Placeholders(a)], row) && Holds(b, args[Placeholders(a)..], row)
    case OrOf(a, b) => Holds(a, args[..Placeholders(a)], row) || Holds(b, args[Placeholders(a)..], row)
  }
}
