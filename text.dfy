/**
 * String operations with the meaning the two scripts rely on: Python's
 * substring test `sub in s`, `str.startswith` / `str.endswith`,
 * `str.strip()` (its leading half), `str.split(sep)`, `str.split()` and
 * `str.replace(old, "")`.
 */
module Text {

  /** `sub` occurs in `s` starting at index `i`. */
  predicate OccursAt(s: string, sub: string, i: nat) {
    i + |sub| <= |s| && s[i..i + |sub|] == sub
  }

  /** Python's `sub in s` (true for the empty `sub`). */
  predicate Contains(s: string, sub: string) {
    exists i: nat | i <= |s| :: OccursAt(s, sub, i)
  }

  predicate StartsWith(s: string, prefix: string) {
    |prefix| <= |s| && s[..|prefix|] == prefix
  }

  predicate EndsWith(s: string, suffix: string) {
    |suffix| <= |s| && s[|s| - |suffix|..] == suffix
  }

  lemma ContainsMiddle(a: string, sub: string, b: string)
    ensures Contains(a + sub + b, sub)
  {
    assert (a + sub + b)[|a|..|a| + |sub|] == sub;
    assert OccursAt(a + sub + b, sub, |a|);
  }

  /** An occurrence of `sub` needs each of its characters somewhere in `s`. */
  lemma CharNeeded(s: string, sub: string, j: nat)
    requires j < |sub| && sub[j] !in s
    ensures !Contains(s, sub)
  {
    forall i: nat | i <= |s|
      ensures !OccursAt(s, sub, i)
    {
      if i + |sub| <= |s| {
        assert s[i..i + |sub|][j] == s[i + j];
      }
    }
  }

  /** A character that `sub` lacks cannot be part of an occurrence, so it cannot add one. */
  lemma ContainsBeforeChar(a: string, c: char, sub: string)
    requires c !in sub
    ensures Contains(a + [c], sub) <==> Contains(a, sub)
  {
    if sub == "" {
      assert OccursAt(a, sub, 0) && OccursAt(a + [c], sub, 0);
    } else if Contains(a + [c], sub) {
      var i: nat :| i <= |a + [c]| && OccursAt(a + [c], sub, i);
      assert (a + [c])[i..i + |sub|][|sub| - 1] == (a + [c])[i + |sub| - 1] != c;
      assert (a + [c])[i..i + |sub|] == a[i..i + |sub|];
      assert OccursAt(a, sub, i);
    }
    if Contains(a, sub) {
      var i: nat :| i <= |a| && OccursAt(a, sub, i);
      assert (a + [c])[i..i + |sub|] == a[i..i + |sub|];
      assert OccursAt(a + [c], sub, i);
    }
  }

  /**
   * A prefix that lacks the first character of `sub` cannot hold the start
   * of an occurrence, so an occurrence in `a + b` lies inside `b`.
   */
  lemma ContainsPastPrefix(a: string, b: string, sub: string)
    requires sub != "" && sub[0] !in a
    ensures Contains(a + b, sub) <==> Contains(b, sub)
  {
    forall i: nat | i < |a|
      ensures !OccursAt(a + b, sub, i)
    {
      if i + |sub| <= |a + b| {
        assert (a + b)[i..i + |sub|][0] == a[i];
      }
    }
    if Contains(a + b, sub) {
      var i: nat :| i <= |a + b| && OccursAt(a + b, sub, i);
      assert (a + b)[i..i + |sub|] == b[i - |a|..i - |a| + |sub|];
      assert OccursAt(b, sub, i - |a|);
    }
    if Contains(b, sub) {
      var j: nat :| j <= |b| && OccursAt(b, sub, j);
      assert (a + b)[|a| + j..|a| + j + |sub|] == b[j..j + |sub|];
      assert OccursAt(a + b, sub, |a| + j);
    }
  }

  /** An occurrence inside one part of a concatenation is an occurrence in the whole. */
  lemma ContainsInPart(a: string, b: string, c: string, sub: string)
    requires Contains(b, sub)
    ensures Contains(a + b + c, sub)
  {
    var j: nat :| j <= |b| && OccursAt(b, sub, j);
    assert (a + b + c)[|a| + j..|a| + j + |sub|] == b[j..j + |sub|];
    assert OccursAt(a + b + c, sub, |a| + j);
  }

  // ---------------------------------------------------------------------
  // Whitespace, as Python's str.isspace() sees it.

  predicate IsSpace(c: char) {
    c == ' ' || c == '\t' || c == '\n' || c == '\r' || c == '\U{B}' || c == '\U{C}'
    || c == '\U{1C}' || c == '\U{1D}' || c == '\U{1E}' || c == '\U{1F}'
    || c == '\U{85}' || c == '\U{A0}' || c == '\U{1680}'
    || ('\U{2000}' <= c <= '\U{200A}')
    || c == '\U{2028}' || c == '\U{2029}' || c == '\U{202F}' || c == '\U{205F}' || c == '\U{3000}'
  }

  /** The leading half of `str.strip()`. */
  function LStrip(s: string): (r: string)
    ensures |r| <= |s| && r == s[|s| - |r|..]
    ensures r == "" || !IsSpace(r[0])
    ensures forall i :: 0 <= i < |s| - |r| ==> IsSpace(s[i])
  {
    if s != "" && IsSpace(s[0]) then LStrip(s[1..]) else s
  }

  /** The trailing half of `str.strip()`. */
  function RStrip(s: string): (r: string)
    ensures |r| <= |s| && r == s[..|r|]
    ensures r == "" || !IsSpace(r[|r| - 1])
    ensures forall i :: |r| <= i < |s| ==> IsSpace(s[i])
  {
    if s != "" && IsSpace(s[|s| - 1]) then RStrip(s[..|s| - 1]) else s
  }

  /**
   * Python's `str.strip()`: the result neither starts nor ends with
   * whitespace, and it is empty exactly when `s` is all whitespace.
   */
  function Strip(s: string): (r: string)
    ensures |r| <= |s|
    ensures r == "" || (!IsSpace(r[0]) && !IsSpace(r[|r| - 1]))
    ensures r == "" <==> forall i :: 0 <= i < |s| ==> IsSpace(s[i])
  {
    var l := LStrip(s);
    var r := RStrip(l);
    assert r != "" ==> r[0] == l[0];
    assert l == "" ==> forall i :: 0 <= i < |s| ==> IsSpace(s[i]);
    assert l != "" ==> !IsSpace(s[|s| - |l|]);
    r
  }

  /** `lstrip` removes exactly an all-whitespace indentation. */
  lemma {:induction false} LStripIndent(indent: string, rest: string)
    requires forall i | 0 <= i < |indent| :: IsSpace(indent[i])
    requires rest != "" && !IsSpace(rest[0])
    ensures LStrip(indent + rest) == rest
  {
    if indent == "" {
      assert indent + rest == rest;
    } else {
      assert (indent + rest)[1..] == indent[1..] + rest;
      LStripIndent(indent[1..], rest);
    }
  }

  /** `rstrip` keeps a leading character that is not whitespace. */
  lemma {:induction false} RStripKeepsFirst(s: string)
    requires s != "" && !IsSpace(s[0])
    ensures RStrip(s) != "" && RStrip(s)[0] == s[0]
  {
    if IsSpace(s[|s| - 1]) {
      RStripKeepsFirst(s[..|s| - 1]);
    }
  }

  /** `strip` of an indented line starts where the indentation ends. */
  lemma StripIndentFirst(indent: string, rest: string)
    requires forall i | 0 <= i < |indent| :: IsSpace(indent[i])
    requires rest != "" && !IsSpace(rest[0])
    ensures Strip(indent + rest) != "" && Strip(indent + rest)[0] == rest[0]
  {
    LStripIndent(indent, rest);
    RStripKeepsFirst(rest);
  }

  /** Stripping text framed by one newline on each side gives the text back. */
  lemma StripFramed(j: string)
    requires j != "" && !IsSpace(j[0]) && !IsSpace(j[|j| - 1])
    ensures Strip("\n" + j + "\n") == j
  {
    var raw := "\n" + j + "\n";
    assert raw[1..] == j + "\n";
    assert LStrip(raw) == LStrip(j + "\n");
    assert (j + "\n")[0] == j[0];
    assert LStrip(j + "\n") == j + "\n";
    assert (j + "\n")[..|j + "\n"| - 1] == j;
    assert RStrip(j + "\n") == RStrip(j);
  }

  // ---------------------------------------------------------------------
  // str.split(sep) for a one-character separator, and its inverse.

  /** Python's `s.split(c)`: always at least one part, none containing `c`. */
  function SplitOn(s: string, c: char): (parts: seq<string>)
    ensures |parts| >= 1
    ensures |parts| >= 2 <==> c in s
    ensures forall k :: 0 <= k < |parts| ==> c !in parts[k]
  {
    if s == "" then [""]
    else
      var rest := SplitOn(s[1..], c);
      if s[0] == c then [""] + rest
      else [[s[0]] + rest[0]] + rest[1..]
  }

  /** Python's `c.join(parts)`. */
  function JoinOn(parts: seq<string>, c: char): string
    requires |parts| >= 1
  {
    if |parts| == 1 then parts[0] else parts[0] + [c] + JoinOn(parts[1..], c)
  }

  lemma {:induction false} SplitPiece(a: string, c: char)
    requires c !in a
    ensures SplitOn(a, c) == [a]
  {
    if a != "" {
      SplitPiece(a[1..], c);
      assert [a[0]] + a[1..] == a;
    }
  }

  lemma {:induction false} SplitPieceThen(a: string, c: char, t: string)
    requires c !in a
    ensures SplitOn(a + [c] + t, c) == [a] + SplitOn(t, c)
  {
    if a == "" {
      assert a + [c] + t == [c] + t;
      assert ([c] + t)[1..] == t;
    } else {
      assert (a + [c] + t)[1..] == a[1..] + [c] + t;
      SplitPieceThen(a[1..], c, t);
      assert [a[0]] + a[1..] == a;
    }
  }

  /** Splitting what was joined gives the parts back, when no part holds the separator. */
  lemma {:induction false} SplitJoin(parts: seq<string>, c: char)
    requires |parts| >= 1
    requires forall k :: 0 <= k < |parts| ==> c !in parts[k]
    ensures SplitOn(JoinOn(parts, c), c) == parts
  {
    if |parts| == 1 {
      SplitPiece(parts[0], c);
    } else {
      SplitJoin(parts[1..], c);
      SplitPieceThen(parts[0], c, JoinOn(parts[1..], c));
      assert [parts[0]] + parts[1..] == parts;
    }
  }

  /** A join starts with its first part. */
  lemma JoinOnStartsWith(parts: seq<string>, c: char)
    requires |parts| >= 1
    ensures StartsWith(JoinOn(parts, c), parts[0])
  {
    if |parts| > 1 {
      assert (parts[0] + [c] + JoinOn(parts[1..], c))[..|parts[0]|] == parts[0];
    }
  }

  /** A join ends with its last part. */
  lemma {:induction false} JoinOnEndsWith(parts: seq<string>, c: char)
    requires |parts| >= 1
    ensures EndsWith(JoinOn(parts, c), parts[|parts| - 1])
  {
    if |parts| > 1 {
      JoinOnEndsWith(parts[1..], c);
      var rest := JoinOn(parts[1..], c);
      var last := parts[|parts| - 1];
      assert parts[1..][|parts[1..]| - 1] == last;
      assert (parts[0] + [c] + rest)[|parts[0] + [c] + rest| - |last|..] == rest[|rest| - |last|..];
    }
  }

  /** Something found in one of the parts is found in their join. */
  lemma {:induction false} ContainsJoinPart(parts: seq<string>, c: char, k: nat, sub: string)
    requires |parts| >= 1 && k < |parts|
    requires Contains(parts[k], sub)
    ensures Contains(JoinOn(parts, c), sub)
  {
    if |parts| == 1 {
    } else if k == 0 {
      ContainsInPart("", parts[0], [c] + JoinOn(parts[1..], c), sub);
      assert "" + parts[0] + ([c] + JoinOn(parts[1..], c)) == JoinOn(parts, c);
    } else {
      ContainsJoinPart(parts[1..], c, k - 1, sub);
      ContainsInPart(parts[0] + [c], JoinOn(parts[1..], c), "", sub);
      assert parts[0] + [c] + JoinOn(parts[1..], c) + "" == JoinOn(parts, c);
    }
  }

  // ---------------------------------------------------------------------
  // str.split() with no argument: the maximal runs of non-whitespace.

  /** Length of the run of non-whitespace that starts `s`. */
  function TokenLength(s: string): (n: nat)
    ensures n <= |s|
    ensures forall i :: 0 <= i < n ==> !IsSpace(s[i])
    ensures n < |s| ==> IsSpace(s[n])
  {
    if s == "" || IsSpace(s[0]) then 0 else 1 + TokenLength(s[1..])
  }

  /**
   * Python's `s.split()`: non-empty tokens free of whitespace, none at all
   * exactly when `s` is all whitespace.
   */
  function SplitWhitespace(s: string): (tokens: seq<string>)
    ensures forall k :: 0 <= k < |tokens| ==> tokens[k] != ""
    ensures forall k, i :: 0 <= k < |tokens| && 0 <= i < |tokens[k]| ==> !IsSpace(tokens[k][i])
    ensures tokens == [] <==> forall i :: 0 <= i < |s| ==> IsSpace(s[i])
    decreases |s|
  {
    if s == "" then []
    else if IsSpace(s[0]) then
      assert forall i :: 0 <= i < |s[1..]| ==> s[1..][i] == s[i + 1];
      SplitWhitespace(s[1..])
    else
      var n := TokenLength(s);
      [s[..n]] + SplitWhitespace(s[n..])
  }

  /**
   * The tokens are the maximal runs of non-whitespace, in order: behind
   * leading whitespace `w`, a run `t` ended by whitespace or by the end of
   * the text is the first token.
   */
  lemma {:induction false} SplitWhitespaceFirst(w: string, t: string, r: string)
    requires forall i :: 0 <= i < |w| ==> IsSpace(w[i])
    requires t != "" && forall i :: 0 <= i < |t| ==> !IsSpace(t[i])
    requires r == "" || IsSpace(r[0])
    ensures SplitWhitespace(w + t + r) == [t] + SplitWhitespace(r)
    decreases |w|
  {
    if w == "" {
      var s := t + r;
      assert w + t + r == s;
      assert forall i :: 0 <= i < |t| ==> s[i] == t[i];
      assert r != "" ==> s[|t|] == r[0];
      assert TokenLength(s) == |t|;
      assert s[..|t|] == t && s[|t|..] == r;
    } else {
      assert (w + t + r)[1..] == w[1..] + t + r;
      SplitWhitespaceFirst(w[1..], t, r);
    }
  }

  // ---------------------------------------------------------------------
  // str.replace(pat, "") : remove the leftmost non-overlapping occurrences.

  /**
   * `s.replace(pat, "")`: text without `pat` is kept as it is, and text
   * ending in `pat` loses at least that occurrence.
   */
  function RemoveAll(s: string, pat: string): (r: string)
    requires pat != ""
    ensures |r| <= |s|
    ensures !Contains(s, pat) ==> r == s
    ensures EndsWith(s, pat) ==> |r| <= |s| - |pat|
    decreases |s|
  {
    if |s| < |pat| then s
    else if s[..|pat|] == pat then
      assert OccursAt(s, pat, 0);
      RemoveAll(s[|pat|..], pat)
    else
      ContainsTail(s, pat);
      EndsWithTail(s, pat);
      assert [s[0]] + s[1..] == s;
      [s[0]] + RemoveAll(s[1..], pat)
  }

  lemma ContainsTail(s: string, pat: string)
    requires s != ""
    ensures Contains(s[1..], pat) ==> Contains(s, pat)
  {
    if Contains(s[1..], pat) {
      var i: nat :| i <= |s[1..]| && OccursAt(s[1..], pat, i);
      OccursAtTail(s, pat, i);
    }
  }

  /** An occurrence in the tail is an occurrence one position further on. */
  lemma OccursAtTail(s: string, pat: string, i: nat)
    requires s != ""
    ensures OccursAt(s[1..], pat, i) <==> OccursAt(s, pat, i + 1)
  {
    if i + |pat| <= |s[1..]| {
      assert s[1..][i..i + |pat|] == s[i + 1..i + 1 + |pat|];
    }
  }

  lemma EndsWithTail(s: string, pat: string)
    requires |pat| <= |s| && s[..|pat|] != pat
    ensures EndsWith(s, pat) ==> EndsWith(s[1..], pat)
  {
    if EndsWith(s, pat) {
      assert s[1..][|s[1..]| - |pat|..] == s[|s| - |pat|..];
    }
  }

  /** A leading occurrence is removed. */
  lemma RemoveAllLeading(pat: string, rest: string)
    requires pat != ""
    ensures RemoveAll(pat + rest, pat) == RemoveAll(rest, pat)
  {
    assert (pat + rest)[..|pat|] == pat;
    assert (pat + rest)[|pat|..] == rest;
  }

  /** A prefix in which no occurrence of `pat` starts is kept as it is. */
  lemma {:induction false} RemoveAllKeepsPrefix(a: string, b: string, pat: string)
    requires pat != ""
    requires forall i: nat :: i < |a| ==> !OccursAt(a + b, pat, i)
    ensures RemoveAll(a + b, pat) == a + RemoveAll(b, pat)
    decreases |a|
  {
    if a == "" {
      assert a + b == b;
    } else if |a + b| < |pat| {
      assert |b| < |pat|;
      assert RemoveAll(a + b, pat) == a + b;
      assert RemoveAll(b, pat) == b;
    } else {
      var s := a + b;
      var t := a[1..] + b;
      assert s[1..] == t;
      assert RemoveAll(s, pat) == [s[0]] + RemoveAll(t, pat) by {
        assert !OccursAt(s, pat, 0);
        assert s[..|pat|] != pat;
      }
      assert forall i: nat :: i < |a[1..]| ==> !OccursAt(t, pat, i) by {
        forall i: nat | i < |a[1..]|
          ensures !OccursAt(t, pat, i)
        {
          OccursAtTail(s, pat, i);
        }
      }
      RemoveAllKeepsPrefix(a[1..], b, pat);
      assert s[0] == a[0];
      ConsAppend(a, RemoveAll(b, pat));
    }
  }

  lemma ConsAppend(x: string, y: string)
    requires x != ""
    ensures [x[0]] + (x[1..] + y) == x + y
  {
    assert [x[0]] + x[1..] == x;
  }

  /** Under the conditions of StripSuffix no occurrence of `pat` starts inside `stem`. */
  lemma NoOccurrenceBeforeSuffix(stem: string, pat: string)
    requires pat != "" && stem != ""
    requires !Contains(stem, pat)
    requires stem[|stem| - 1] !in pat[..|pat| - 1]
    ensures forall i: nat :: i < |stem| ==> !OccursAt(stem + pat, pat, i)
  {
    forall i: nat | i < |stem|
      ensures !OccursAt(stem + pat, pat, i)
    {
      if i + |pat| <= |stem| {
        assert (stem + pat)[i..i + |pat|] == stem[i..i + |pat|];
        assert !OccursAt(stem, pat, i);
      } else {
        var k := |stem| - 1 - i;
        assert (stem + pat)[i..i + |pat|][k] == stem[|stem| - 1];
        assert pat[..|pat| - 1][k] == pat[k];
      }
    }
  }

  /**
   * Stripping a trailing `pat` gives the stem back when the stem holds no
   * occurrence of `pat` and its last character cannot begin an occurrence
   * that runs into the suffix.
   */
  lemma StripSuffix(stem: string, pat: string)
    requires pat != "" && stem != ""
    requires !Contains(stem, pat)
    requires stem[|stem| - 1] !in pat[..|pat| - 1]
    ensures RemoveAll(stem + pat, pat) == stem
  {
    NoOccurrenceBeforeSuffix(stem, pat);
    RemoveAllKeepsPrefix(stem, pat, pat);
    assert RemoveAll(pat, pat) == "" by {
      assert pat[..|pat|] == pat;
      assert RemoveAll(pat[|pat|..], pat) == "";
    }
    assert stem + "" == stem;
  }
}
