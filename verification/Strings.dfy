/** The few string operations of the Go standard library that the modelled code relies on,
    over ASCII strings. */
module Strings {

  function LowerChar(c: char): char {
    if 'A' <= c <= 'Z' then (c as int + 32) as char else c
  }

  /** `strings.ToLower` */
  function ToLower(s: string): string {
    seq(|s|, i requires 0 <= i < |s| => LowerChar(s[i]))
  }

  /** The same character, or the same letter in the other case. */
  predicate SameLetter(c: char, d: char) {
    || c == d
    || ('A' <= c <= 'Z' && d as int - c as int == 32)
    || ('A' <= d <= 'Z' && c as int - d as int == 32)
  }

  /** Two strings are equal in lower case exactly if they differ in the case of letters only; no
      capital is left. */
  lemma LowerMeans(s: string, t: string)
    ensures ToLower(s) == ToLower(t) <==> |s| == |t| && forall i :: 0 <= i < |s| ==> SameLetter(s[i], t[i])
    ensures |ToLower(s)| == |s|
    ensures forall i :: 0 <= i < |s| ==> SameLetter(ToLower(s)[i], s[i]) && !('A' <= ToLower(s)[i] <= 'Z')
  {
    if ToLower(s) == ToLower(t) {
      assert |ToLower(s)| == |s| && |ToLower(t)| == |t|;
      forall i | 0 <= i < |s| ensures SameLetter(s[i], t[i]) {
        assert ToLower(s)[i] == LowerChar(s[i]) && ToLower(t)[i] == LowerChar(t[i]);
      }
    }
  }

  /** `strings.Join` */
  function Join(parts: seq<string>, sep: char): string {
    if parts == [] then ""
    else if |parts| == 1 then parts[0]
    else parts[0] + [sep] + Join(parts[1..], sep)
  }

  /** `strings.Split` with a one-character separator: the pieces between separators. */
  function Split(s: string, sep: char): (pieces: seq<string>)
    ensures |pieces| > 0
  {
    if s == "" then [""]
    else if s[0] == sep then [""] + Split(s[1..], sep)
    else var rest := Split(s[1..], sep); [[s[0]] + rest[0]] + rest[1..]
  }

  lemma ToLowerAppend(a: string, b: string)
    ensures ToLower(a + b) == ToLower(a) + ToLower(b)
  {
  }

  lemma {:induction false} SplitPiece(p: string, s: string, sep: char)
    requires sep !in p
    ensures Split(p + s, sep) == [p + Split(s, sep)[0]] + Split(s, sep)[1..]
  {
    if p == "" {
      assert p + s == s;
      assert p + Split(s, sep)[0] == Split(s, sep)[0];
    } else {
      assert (p + s)[1..] == p[1..] + s;
      SplitPiece(p[1..], s, sep);
      assert [p[0]] + (p[1..] + Split(s, sep)[0]) == p + Split(s, sep)[0];
    }
  }

  /** Splitting undoes joining as long as no part contains the separator. */
  lemma {:induction false} SplitJoin(parts: seq<string>, sep: char)
    requires parts != []
    requires forall p | p in parts :: sep !in p
    ensures Split(Join(parts, sep), sep) == parts
  {
    if |parts| == 1 {
      SplitPiece(parts[0], "", sep);
      assert parts[0] + "" == parts[0];
    } else {
      var tail := [sep] + Join(parts[1..], sep);
      SplitPiece(parts[0], tail, sep);
      SplitJoin(parts[1..], sep);
      assert tail[1..] == Join(parts[1..], sep);
      assert Split(tail, sep) == [""] + Split(Join(parts[1..], sep), sep);
      assert parts[0] + tail == parts[0] + [sep] + Join(parts[1..], sep);
      assert parts[0] + "" == parts[0];
    }
  }

  /** Appending one more part to a joined list, which is how the code grows its list. */
  lemma {:induction false} JoinAppend(parts: seq<string>, p: string, sep: char)
    requires parts != []
    ensures Join(parts + [p], sep) == Join(parts, sep) + [sep] + p
  {
    if |parts| == 1 {
      assert (parts + [p])[1..] == [p];
    } else {
      assert (parts + [p])[1..] == parts[1..] + [p];
      JoinAppend(parts[1..], p, sep);
    }
  }

  /** Text up to the first occurrence of a separator is determined by the whole text. */
  lemma {:induction false} FirstSepUnique(a: string, b: string, x: string, y: string, sep: char)
    requires sep !in a && sep !in b
    requires a + [sep] + x == b + [sep] + y
    ensures a == b && x == y
  {
    var s := a + [sep] + x;
    var t := b + [sep] + y;
    assert s[|a|] == sep && t[|b|] == sep;
    assert forall i | 0 <= i < |b| :: t[i] == b[i] && b[i] in b;
    assert forall i | 0 <= i < |a| :: s[i] == a[i] && a[i] in a;
    assert |a| == |b|;
    assert a == s[..|a|] && b == t[..|b|];
    assert x == s[|a| + 1..] && y == t[|b| + 1..];
  }
}
