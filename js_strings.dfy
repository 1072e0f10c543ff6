/**
 * The JavaScript string built-ins the application relies on: `trim`, the `\s+`
 * collapse `replace(/\s+/g, " ")`, `toLowerCase`, `join`, `split` and `includes`,
 * plus `filter(Boolean)` on strings. Strings are sequences of characters.
 */
module JsStrings {
  import opened Options
  import Sequences

  /** The characters `trim` strips and the regular-expression class `\s` matches:
      ECMAScript WhiteSpace and LineTerminator. */
  predicate IsSpace(c: char) {
    || c == ' ' || c == '\t' || c == '\n' || c == '\r' || c == '\U{B}' || c == '\U{C}'
    || c == '\U{A0}' || c == '\U{1680}' || ('\U{2000}' <= c <= '\U{200A}')
    || c == '\U{2028}' || c == '\U{2029}' || c == '\U{202F}' || c == '\U{205F}'
    || c == '\U{3000}' || c == '\U{FEFF}'
  }

  /** Empty or made only of whitespace. */
  predicate Blank(s: string) {
    forall i | 0 <= i < |s| :: IsSpace(s[i])
  }

  /** No two whitespace characters stand next to each other. */
  predicate NoDoubleSpace(s: string) {
    forall i | 0 <= i < |s| - 1 :: !IsSpace(s[i]) || !IsSpace(s[i + 1])
  }

  /** Neither the first nor the last character is whitespace. */
  predicate Trimmed(s: string) {
    s == [] || (!IsSpace(s[0]) && !IsSpace(s[|s| - 1]))
  }

  /** No ASCII upper-case letter. */
  predicate NoUpper(s: string) {
    forall i | 0 <= i < |s| :: !('A' <= s[i] <= 'Z')
  }

  /** JavaScript's `s || ""` on an optional string. */
  function Text(o: Option<string>): string {
    o.GetOr("")
  }

  /** `trimStart`: drops the leading whitespace. */
  function TrimStart(s: string): (r: string)
    ensures |r| <= |s| && r == s[|s| - |r|..]
    ensures Blank(s[..|s| - |r|])
    ensures r == [] || !IsSpace(r[0])
  {
    if s == [] || !IsSpace(s[0]) then s
    else
      var r := TrimStart(s[1..]);
      TrimStartStep(s, r);
      r
  }

  /** What is left after the leading whitespace of `s[1..]` is also what is left after the
      leading whitespace of `s`, when `s` starts with whitespace. */
  lemma TrimStartStep(s: string, r: string)
    requires s != [] && IsSpace(s[0])
    requires |r| <= |s| - 1 && r == s[1..][|s| - 1 - |r|..]
    requires Blank(s[1..][..|s| - 1 - |r|])
    ensures r == s[|s| - |r|..]
    ensures Blank(s[..|s| - |r|])
  {
    var k := |s| - |r|;
    assert s[..k] == [s[0]] + s[1..][..k - 1];
    forall i | 0 <= i < k ensures IsSpace(s[..k][i]) {
      if i > 0 {
        assert s[..k][i] == s[1..][..k - 1][i - 1];
      }
    }
  }

  /** `trimEnd`: drops the trailing whitespace. */
  function TrimEnd(s: string): (r: string)
    ensures |r| <= |s| && r == s[..|r|]
    ensures Blank(s[|r|..])
    ensures r == [] || !IsSpace(r[|r| - 1])
  {
    if s == [] || !IsSpace(s[|s| - 1]) then s
    else
      var r := TrimEnd(s[..|s| - 1]);
      assert s[|r|..] == s[..|s| - 1][|r|..] + [s[|s| - 1]];
      r
  }

  /** `trim`: drops whitespace at both ends. The result is empty exactly when `s` is blank,
      and an already trimmed string is left alone. */
  function Trim(s: string): (r: string)
    ensures Trimmed(r)
    ensures r == [] <==> Blank(s)
    ensures Trimmed(s) ==> r == s
  {
    TrimEnd(TrimStart(s))
  }

  /** The trimmed string is the slice of `s` that starts after the leading whitespace. */
  lemma TrimSlice(s: string)
    ensures var k := |s| - |TrimStart(s)|; k + |Trim(s)| <= |s| && Trim(s) == s[k..k + |Trim(s)|]
  {
  }

  /** The character `toLowerCase` gives, for ASCII letters. */
  function LowerChar(c: char): char {
    if 'A' <= c <= 'Z' then (c as int + 32) as char else c
  }

  /** `toLowerCase`, character by character; whitespace stays whitespace. */
  function Lower(s: string): (r: string)
    ensures |r| == |s| && NoUpper(r)
    ensures forall i | 0 <= i < |s| :: r[i] == LowerChar(s[i]) && (IsSpace(r[i]) <==> IsSpace(s[i]))
  {
    seq(|s|, i requires 0 <= i < |s| => LowerChar(s[i]))
  }

  /** `replace(/\s+/g, " ")`: every maximal run of whitespace becomes one space. What this
      guarantees is proved below: the result begins and ends as `s` does (CollapseFirst, CollapseLast), has
      no two whitespace characters in a row (CollapseNoDouble) and is blank exactly when `s`
      is (CollapseBlank). */
  function Collapse(s: string): string
    decreases |s|
  {
    if s == [] then []
    else if IsSpace(s[0]) then [' '] + Collapse(TrimStart(s[1..]))
    else [s[0]] + Collapse(s[1..])
  }

  /** Collapsing turns leading whitespace into one space and keeps any other first
      character. */
  lemma CollapseFirst(s: string)
    requires s != []
    ensures Collapse(s) != []
    ensures Collapse(s)[0] == if IsSpace(s[0]) then ' ' else s[0]
  {
  }

  /** Collapsing keeps the kind of the last character. */
  lemma {:induction false} CollapseLast(s: string)
    requires s != []
    ensures Collapse(s) != []
    ensures IsSpace(Collapse(s)[|Collapse(s)| - 1]) <==> IsSpace(s[|s| - 1])
    decreases |s|, 1
  {
    if IsSpace(s[0]) {
      CollapseLastSpace(s);
    } else {
      CollapseLastChar(s);
    }
  }

  lemma {:induction false} CollapseLastSpace(s: string)
    requires s != [] && IsSpace(s[0])
    ensures Collapse(s) != []
    ensures IsSpace(Collapse(s)[|Collapse(s)| - 1]) <==> IsSpace(s[|s| - 1])
    decreases |s|, 0
  {
    var t := TrimStart(s[1..]);
    var rest := Collapse(t);
    assert Collapse(s) == [' '] + rest;
    if t != [] {
      CollapseLast(t);
    }
    SpaceStepEnds(s, t, rest);
  }

  lemma {:induction false} CollapseLastChar(s: string)
    requires s != [] && !IsSpace(s[0])
    ensures Collapse(s) != []
    ensures IsSpace(Collapse(s)[|Collapse(s)| - 1]) <==> IsSpace(s[|s| - 1])
    decreases |s|, 0
  {
    var u := s[1..];
    var rest := Collapse(u);
    assert s == [s[0]] + u;
    assert Collapse(s) == [s[0]] + rest;
    if u != [] {
      CollapseLast(u);
    }
    CharStepEnds(s[0], u, rest);
  }

  /** The ends of `[' '] + rest`, when `rest` collapses what follows the leading whitespace
      of `s`. */
  lemma SpaceStepEnds(s: string, t: string, rest: string)
    requires s != [] && IsSpace(s[0]) && t == TrimStart(s[1..])
    requires t != [] ==> rest != [] && (IsSpace(rest[|rest| - 1]) <==> IsSpace(t[|t| - 1]))
    requires t == [] ==> rest == []
    ensures ([' '] + rest)[0] == ' '
    ensures IsSpace(([' '] + rest)[|rest|]) <==> IsSpace(s[|s| - 1])
  {
    if t == [] {
      assert s[1..][..|s| - 1] == s[1..];
      if |s| > 1 {
        assert s[|s| - 1] == s[1..][|s| - 2];
      }
    } else {
      assert t[|t| - 1] == s[|s| - 1];
    }
  }

  /** The last character of `[c] + rest` is whitespace exactly when that of `[c] + u` is,
      when `rest` and `u` agree on theirs. */
  lemma CharStepEnds(c: char, u: string, rest: string)
    requires u != [] ==> rest != [] && (IsSpace(rest[|rest| - 1]) <==> IsSpace(u[|u| - 1]))
    requires u == [] ==> rest == []
    ensures IsSpace(([c] + rest)[|rest|]) <==> IsSpace(([c] + u)[|u|])
  {
  }

  /** The result of collapsing never has two whitespace characters in a row. */
  lemma {:induction false} CollapseNoDouble(s: string)
    ensures NoDoubleSpace(Collapse(s))
    decreases |s|
  {
    if s != [] && IsSpace(s[0]) {
      var t := TrimStart(s[1..]);
      CollapseNoDouble(t);
      if t != [] {
        CollapseFirst(t);
      }
      SpaceThenNoDouble(Collapse(t));
    } else if s != [] {
      CollapseNoDouble(s[1..]);
      CharThenNoDouble(s[0], Collapse(s[1..]));
    }
  }

  lemma SpaceThenNoDouble(rest: string)
    requires NoDoubleSpace(rest)
    requires rest == [] || !IsSpace(rest[0])
    ensures NoDoubleSpace([' '] + rest)
  {
    var r := [' '] + rest;
    forall i | 0 <= i < |r| - 1 ensures !IsSpace(r[i]) || !IsSpace(r[i + 1]) {
      if i > 0 {
        assert r[i] == rest[i - 1] && r[i + 1] == rest[i];
      }
    }
  }

  lemma CharThenNoDouble(c: char, rest: string)
    requires !IsSpace(c) && NoDoubleSpace(rest)
    ensures NoDoubleSpace([c] + rest)
  {
    var r := [c] + rest;
    forall i | 0 <= i < |r| - 1 ensures !IsSpace(r[i]) || !IsSpace(r[i + 1]) {
      if i > 0 {
        assert r[i] == rest[i - 1] && r[i + 1] == rest[i];
      }
    }
  }

  /** Collapsing keeps every non-whitespace character, so the result is blank exactly when
      the input is. */
  lemma {:induction false} CollapseBlank(s: string)
    ensures Blank(Collapse(s)) <==> Blank(s)
    decreases |s|
  {
    if s != [] && IsSpace(s[0]) {
      var t := TrimStart(s[1..]);
      CollapseBlank(t);
      BlankSplit(s[1..], |s| - 1 - |t|);
      BlankSplit(s, 1);
      BlankSplit(Collapse(s), 1);
    } else if s != [] {
      CollapseFirst(s);
    }
  }

  /** A string is blank exactly when both halves of any split of it are. */
  lemma BlankSplit(s: string, k: nat)
    requires k <= |s|
    ensures Blank(s) <==> Blank(s[..k]) && Blank(s[k..])
  {
    if Blank(s[..k]) && Blank(s[k..]) {
      forall i | 0 <= i < |s| ensures IsSpace(s[i]) {
        if i < k { assert s[i] == s[..k][i]; } else { assert s[i] == s[k..][i - k]; }
      }
    }
  }

  /** `parts.join(sep)`. */
  function JoinWith(sep: string, parts: seq<string>): string
    decreases |parts|
  {
    if |parts| == 0 then ""
    else if |parts| == 1 then parts[0]
    else parts[0] + sep + JoinWith(sep, parts[1..])
  }

  /** `s.split(sep)` for a one-character separator: the pieces between separators, so
      there is always at least one, and joining them back gives `s`. */
  function Split(s: string, sep: char): (r: seq<string>)
    ensures |r| >= 1
    ensures forall k | 0 <= k < |r| :: sep !in r[k]
    ensures JoinWith([sep], r) == s
    decreases |s|
  {
    if s == [] then [""]
    else
      var rest := Split(s[1..], sep);
      if s[0] == sep then
        assert s == [sep] + s[1..];
        [""] + rest
      else
        var r := [[s[0]] + rest[0]] + rest[1..];
        assert r[1..] == rest[1..];
        assert JoinWith([sep], r) == s by {
          if |rest| > 1 {
            assert JoinWith([sep], rest) == rest[0] + [sep] + JoinWith([sep], rest[1..]);
          }
          assert s == [s[0]] + s[1..];
        }
        r
  }

  /** `hay.includes(needle)`: `needle` occurs in `hay` as a contiguous piece. */
  predicate Contains(hay: string, needle: string)
    decreases |hay|
  {
    needle <= hay || (|hay| > 0 && Contains(hay[1..], needle))
  }

  /** `Boolean` used as a filter: a string is kept when it is not empty. */
  predicate NonEmpty(s: string) {
    s != ""
  }

  /** `[a, b, …].filter(Boolean).join(" ").toLowerCase()` over optional strings: the search
      text the pages build from an entry's fields. */
  function SearchText(fields: seq<Option<string>>): string {
    Lower(JoinWith(" ", Sequences.Filter(Sequences.Map(fields, Text), NonEmpty)))
  }

  // ---- Facts about the built-ins used by the models ----

  /** Trimming the start of `x + y` stops inside `x` when `x` holds a non-whitespace character. */
  lemma {:induction false} TrimStartAppend(x: string, y: string)
    requires !Blank(x)
    ensures TrimStart(x + y) == TrimStart(x) + y
    decreases |x|
  {
    assert (x + y)[0] == x[0];
    if IsSpace(x[0]) {
      assert !Blank(x[1..]) by {
        var i :| 0 <= i < |x| && !IsSpace(x[i]);
        assert x[1..][i - 1] == x[i];
      }
      assert (x + y)[1..] == x[1..] + y;
      TrimStartAppend(x[1..], y);
    }
  }

  /** Collapsing a string whose first character is not whitespace keeps that character. */
  lemma CollapseConsChar(a: string, b: string)
    requires a != [] && !IsSpace(a[0])
    ensures Collapse(a + b) == [a[0]] + Collapse(a[1..] + b)
    ensures Collapse(a) == [a[0]] + Collapse(a[1..])
  {
    assert (a + b)[0] == a[0] && (a + b)[1..] == a[1..] + b;
  }

  /** Collapsing a string that starts with whitespace followed by more than whitespace. */
  lemma CollapseConsSpace(a: string, b: string)
    requires a != [] && IsSpace(a[0]) && !Blank(a[1..])
    ensures Collapse(a + b) == [' '] + Collapse(TrimStart(a[1..]) + b)
    ensures Collapse(a) == [' '] + Collapse(TrimStart(a[1..]))
  {
    assert (a + b)[0] == a[0] && (a + b)[1..] == a[1..] + b;
    TrimStartAppend(a[1..], b);
  }

  /** A string that ends in a non-whitespace character is not blank, and `trimStart` keeps
      that last character. */
  lemma TrimStartKeepsLast(s: string)
    requires s != [] && !IsSpace(s[|s| - 1])
    ensures !Blank(s)
    ensures TrimStart(s) != [] && TrimStart(s)[|TrimStart(s)| - 1] == s[|s| - 1]
  {
    var r := TrimStart(s);
    // Were nothing left, the whole of `s` would be the stripped blank prefix.
    assert r == [] ==> s[..|s| - |r|] == s;
  }

  /** A string that ends in a non-whitespace character collapses independently of what
      follows it. */
  lemma {:induction false} CollapseAppend(a: string, b: string)
    requires a == [] || !IsSpace(a[|a| - 1])
    ensures Collapse(a + b) == Collapse(a) + Collapse(b)
    decreases |a|
  {
    if a == [] {
      assert a + b == b;
    } else if !IsSpace(a[0]) {
      CollapseConsChar(a, b);
      CollapseAppend(a[1..], b);
      Sequences.AppendAssoc([a[0]], Collapse(a[1..]), Collapse(b));
    } else {
      assert a[1..][|a| - 2] == a[|a| - 1];
      TrimStartKeepsLast(a[1..]);
      CollapseConsSpace(a, b);
      var t := TrimStart(a[1..]);
      CollapseAppend(t, b);
      Sequences.AppendAssoc([' '], Collapse(t), Collapse(b));
    }
  }

  /** A space followed by a piece that begins with a non-whitespace character. */
  lemma CollapseSpaceThen(b: string)
    requires b != [] && !IsSpace(b[0])
    ensures Collapse(" " + b) == " " + Collapse(b)
  {
    var sb := " " + b;
    assert sb[0] == ' ' && sb[1..] == b;
    assert TrimStart(b) == b;
  }

  /** Two pieces that are trimmed and not empty, joined by one space, collapse piece by piece. */
  lemma CollapseJoinTwo(a: string, b: string)
    requires a != [] && b != [] && Trimmed(a) && Trimmed(b)
    ensures Collapse(a + " " + b) == Collapse(a) + " " + Collapse(b)
  {
    var sb := " " + b;
    calc {
      Collapse(a + " " + b);
      { assert a + " " + b == a + sb; }
      Collapse(a + sb);
      { CollapseAppend(a, sb); }
      Collapse(a) + Collapse(sb);
      { CollapseSpaceThen(b); }
      Collapse(a) + (" " + Collapse(b));
    }
  }

  /** Pieces that are trimmed and not empty: the shape of a geocoding key's parts. */
  predicate TrimmedParts(ps: seq<string>) {
    forall k | 0 <= k < |ps| :: ps[k] != [] && Trimmed(ps[k])
  }

  /** Joining trimmed, non-empty pieces with one space gives a trimmed, non-blank string. */
  lemma {:induction false} JoinTrimmed(ps: seq<string>)
    requires |ps| > 0 && TrimmedParts(ps)
    ensures var j := JoinWith(" ", ps); j != [] && Trimmed(j) && !Blank(j)
    ensures JoinWith(" ", ps)[0] == ps[0][0]
    decreases |ps|
  {
    var j := JoinWith(" ", ps);
    if |ps| > 1 {
      JoinTrimmed(ps[1..]);
      var rest := JoinWith(" ", ps[1..]);
      assert j == ps[0] + " " + rest;
      assert j[|j| - 1] == rest[|rest| - 1];
    }
    assert j[0] == ps[0][0];
  }

  /** Collapsing a space-join of trimmed, non-empty pieces collapses each piece on its own. */
  lemma {:induction false} CollapseJoin(ps: seq<string>)
    requires TrimmedParts(ps)
    ensures Collapse(JoinWith(" ", ps)) == JoinWith(" ", Sequences.Map(ps, Collapse))
    decreases |ps|
  {
    var cs := Sequences.Map(ps, Collapse);
    if |ps| > 1 {
      var rest := JoinWith(" ", ps[1..]);
      JoinTrimmed(ps[1..]);
      calc {
        Collapse(JoinWith(" ", ps));
        Collapse(ps[0] + " " + rest);
        { CollapseJoinTwo(ps[0], rest); }
        Collapse(ps[0]) + " " + Collapse(rest);
        { CollapseJoin(ps[1..]); assert cs[1..] == Sequences.Map(ps[1..], Collapse); }
        cs[0] + " " + JoinWith(" ", cs[1..]);
        JoinWith(" ", cs);
      }
    }
  }

  /** `toLowerCase` distributes over a join. */
  lemma {:induction false} LowerJoin(ps: seq<string>)
    ensures Lower(JoinWith(" ", ps)) == JoinWith(" ", Sequences.Map(ps, Lower))
    decreases |ps|
  {
    var ls := Sequences.Map(ps, Lower);
    if |ps| > 1 {
      LowerJoin(ps[1..]);
      assert ls[1..] == Sequences.Map(ps[1..], Lower);
      var rest := JoinWith(" ", ps[1..]);
      assert Lower(ps[0] + " " + rest) == Lower(ps[0]) + " " + Lower(rest);
    }
  }

  /** A slice of a string without double whitespace has none either. */
  lemma SliceNoDoubleSpace(s: string, i: nat, j: nat)
    requires i <= j <= |s| && NoDoubleSpace(s)
    ensures NoDoubleSpace(s[i..j])
  {
    var t := s[i..j];
    forall k | 0 <= k < |t| - 1 ensures !IsSpace(t[k]) || !IsSpace(t[k + 1]) {
      assert t[k] == s[i + k] && t[k + 1] == s[i + k + 1];
    }
  }

  /** Trimming keeps a string free of whitespace pairs. */
  lemma TrimNoDoubleSpace(s: string)
    requires NoDoubleSpace(s)
    ensures NoDoubleSpace(Trim(s))
  {
    TrimSlice(s);
    var k := |s| - |TrimStart(s)|;
    SliceNoDoubleSpace(s, k, k + |Trim(s)|);
  }

  /** Lower-casing keeps a string trimmed and free of whitespace pairs, since it turns no
      character into whitespace or out of it. */
  lemma LowerKeepsShape(s: string)
    ensures NoDoubleSpace(s) ==> NoDoubleSpace(Lower(s))
    ensures Trimmed(s) ==> Trimmed(Lower(s))
  {
  }

  /** Splitting a string that begins with a separator-free piece `a`. */
  lemma {:induction false} SplitPrefix(a: string, rest: string, sep: char)
    requires sep !in a
    ensures var t := Split(rest, sep); Split(a + rest, sep) == [a + t[0]] + t[1..]
    decreases |a|
  {
    if a != [] {
      var s := a + rest;
      assert s[1..] == a[1..] + rest;
      assert s[0] == a[0] && a[0] != sep;
      var t' := Split(s[1..], sep);
      var t := Split(rest, sep);
      assert Split(s, sep) == [[s[0]] + t'[0]] + t'[1..];
      SplitPrefix(a[1..], rest, sep);
      assert t' == [a[1..] + t[0]] + t[1..];
      assert [s[0]] + t'[0] == a + t[0] by {
        assert a == [a[0]] + a[1..];
      }
    } else {
      var t := Split(rest, sep);
      assert a + rest == rest && a + t[0] == t[0];
      assert t == [t[0]] + t[1..];
    }
  }

  /** A separator at the front splits off an empty first piece. */
  lemma SplitAfterSep(rest: string, sep: char)
    ensures Split([sep] + rest, sep) == [""] + Split(rest, sep)
  {
    var t := [sep] + rest;
    assert t[0] == sep && t[1..] == rest;
  }

  /** A piece without the separator, then the separator, then anything. */
  lemma SplitJoinStep(a: string, rest: string, sep: char)
    requires sep !in a
    ensures Split(a + ([sep] + rest), sep) == [a] + Split(rest, sep)
  {
    SplitAfterSep(rest, sep);
    SplitPrefix(a, [sep] + rest, sep);
    assert a + "" == a;
  }

  /** Splitting undoes joining, for pieces that do not contain the separator. */
  lemma {:induction false} SplitJoin(xs: seq<string>, sep: char)
    requires |xs| >= 1
    requires forall k | 0 <= k < |xs| :: sep !in xs[k]
    ensures Split(JoinWith([sep], xs), sep) == xs
    decreases |xs|
  {
    if |xs| == 1 {
      SplitPrefix(xs[0], "", sep);
      assert xs[0] + "" == xs[0];
    } else {
      var rest := JoinWith([sep], xs[1..]);
      SplitJoin(xs[1..], sep);
      assert JoinWith([sep], xs) == xs[0] + ([sep] + rest);
      SplitJoinStep(xs[0], rest, sep);
      assert xs == [xs[0]] + xs[1..];
    }
  }

  /** Lower-casing a string without upper-case letters changes nothing. */
  lemma LowerNoUpper(s: string)
    requires NoUpper(s)
    ensures Lower(s) == s
  {
  }

  /** Every character of a piece occurs in the joined string. */
  lemma {:induction false} JoinHasPieceChars(sep: string, parts: seq<string>, k: nat, c: char)
    requires k < |parts| && c in parts[k]
    ensures c in JoinWith(sep, parts)
    decreases |parts|
  {
    if |parts| > 1 {
      var rest := JoinWith(sep, parts[1..]);
      assert JoinWith(sep, parts) == parts[0] + sep + rest;
      if k > 0 {
        JoinHasPieceChars(sep, parts[1..], k - 1, c);
      }
    }
  }
}
