/**
 * A text file as Python's `readlines()` returns it: a sequence of lines,
 * each keeping its terminating '\n', where only the last line may lack one.
 * Writing to a file opened in append mode adds text to the file's content;
 * the lines read back afterwards are `SplitLines(Join(lines) + text)`.
 */
module Lines {
  import opened Text

  /** Python's `any(pat in line for line in lines)`. */
  predicate AnyLineContains(ls: seq<string>, pat: string) {
    exists k | 0 <= k < |ls| :: Contains(ls[k], pat)
  }

  /** A line holds a '\n' at most as its final character. */
  predicate IsLine(l: string) {
    l != "" && forall i :: 0 <= i < |l| - 1 ==> l[i] != '\n'
  }

  predicate Terminated(l: string) {
    l != "" && l[|l| - 1] == '\n'
  }

  /** The shape of every `readlines()` result. */
  predicate WellFormed(ls: seq<string>) {
    && (forall k :: 0 <= k < |ls| ==> IsLine(ls[k]))
    && (forall k :: 0 <= k < |ls| - 1 ==> Terminated(ls[k]))
  }

  /** The file content the lines make up (`"".join(lines)`). */
  function Join(ls: seq<string>): string {
    if ls == [] then "" else ls[0] + Join(ls[1..])
  }

  /** Length of the first line of `s`: up to and including the first '\n'. */
  function FirstLineLength(s: string): (n: nat)
    requires s != ""
    ensures 0 < n <= |s|
    ensures forall i :: 0 <= i < n - 1 ==> s[i] != '\n'
    ensures n < |s| ==> s[n - 1] == '\n'
  {
    if s[0] == '\n' || |s| == 1 then 1 else 1 + FirstLineLength(s[1..])
  }

  /** Python's `readlines()` on a file whose content is `s`. */
  function SplitLines(s: string): (ls: seq<string>)
    ensures Join(ls) == s
    ensures WellFormed(ls)
    decreases |s|
  {
    if s == "" then [] else
      var n := FirstLineLength(s);
      var line := s[..n];
      var rest := SplitLines(s[n..]);
      var ls := [line] + rest;
      assert IsLine(line) by {
        assert forall i :: 0 <= i < |line| ==> line[i] == s[i];
      }
      assert rest != [] ==> Terminated(line) by {
        assert rest != [] ==> s[n..] != "";
        assert line[n - 1] == s[n - 1];
      }
      assert Join(ls) == s by {
        assert ls[1..] == rest;
        assert line + s[n..] == s;
      }
      assert WellFormed(ls) by {
        assert forall k :: 1 <= k < |ls| ==> ls[k] == rest[k - 1];
      }
      ls
  }

  lemma {:induction false} JoinAppend(a: seq<string>, b: seq<string>)
    ensures Join(a + b) == Join(a) + Join(b)
  {
    if a != [] {
      assert (a + b)[1..] == a[1..] + b;
      JoinAppend(a[1..], b);
    } else {
      assert a + b == b;
    }
  }

  /** The first line of `l + t` is `l` when `l` is a finished line (or `t` is empty). */
  lemma {:induction false} FirstLineOf(l: string, t: string)
    requires IsLine(l) && (Terminated(l) || t == "")
    ensures FirstLineLength(l + t) == |l|
    decreases |l|
  {
    var s := l + t;
    if s[0] == '\n' || |s| == 1 {
      assert |l| == 1;
    } else {
      assert |l| > 1;
      assert l[1..] + t == s[1..];
      FirstLineOf(l[1..], t);
    }
  }

  /** Lines of the `readlines()` shape are read back exactly from their join. */
  lemma {:induction false} SplitJoinLines(ls: seq<string>)
    requires WellFormed(ls)
    ensures SplitLines(Join(ls)) == ls
  {
    if ls != [] {
      var rest := ls[1..];
      assert WellFormed(rest) by {
        forall k | 0 <= k < |rest| ensures IsLine(rest[k]) { assert rest[k] == ls[k + 1]; }
        forall k | 0 <= k < |rest| - 1 ensures Terminated(rest[k]) { assert rest[k] == ls[k + 1]; }
      }
      SplitJoinLines(rest);
      assert Join(ls) == ls[0] + Join(rest);
      if rest == [] {
        FirstLineOf(ls[0], "");
      } else {
        FirstLineOf(ls[0], Join(rest));
      }
      assert (ls[0] + Join(rest))[..|ls[0]|] == ls[0];
      assert (ls[0] + Join(rest))[|ls[0]|..] == Join(rest);
      assert [ls[0]] + rest == ls;
    }
  }

  /** Text without a newline, ended by one, is a complete line. */
  lemma CompleteLine(x: string)
    requires '\n' !in x
    ensures IsLine(x + "\n") && Terminated(x + "\n")
  {
    forall i | 0 <= i < |x| ensures (x + "\n")[i] != '\n' {
      assert (x + "\n")[i] == x[i];
    }
  }

  /** Whether the last line is complete, so that appended text starts a new line. */
  predicate EndsWithNewline(ls: seq<string>) {
    ls == [] || Terminated(ls[|ls| - 1])
  }

  /**
   * Appending "\n" + `body` (a single complete line) to a well-formed file:
   * the leading '\n' either finishes an unterminated last line or becomes a
   * blank line of its own, and `body` is a new last line. Every earlier
   * line is kept.
   */
  function AppendedShape(ls: seq<string>, body: string): seq<string> {
    if EndsWithNewline(ls) then ls + ["\n", body]
    else ls[..|ls| - 1] + [ls[|ls| - 1] + "\n", body]
  }

  lemma AppendedJoin(ls: seq<string>, body: string)
    ensures Join(AppendedShape(ls, body)) == Join(ls) + "\n" + body
  {
    if EndsWithNewline(ls) {
      assert Join(["\n", body]) == "\n" + body by {
        JoinPair("\n", body);
      }
      JoinAppend(ls, ["\n", body]);
    } else {
      var init := ls[..|ls| - 1];
      var last := ls[|ls| - 1];
      assert Join(ls) == Join(init) + last by {
        assert ls == init + [last];
        JoinAppend(init, [last]);
        assert Join([last]) == last + Join([]);
      }
      assert Join(AppendedShape(ls, body)) == Join(init) + (last + "\n" + body) by {
        JoinPair(last + "\n", body);
        JoinAppend(init, [last + "\n", body]);
      }
    }
  }

  lemma JoinPair(a: string, b: string)
    ensures Join([a, b]) == a + b
  {
    assert [a, b][1..] == [b];
    assert Join([b]) == b + Join([]);
  }

  lemma AppendedWellFormed(ls: seq<string>, body: string)
    requires WellFormed(ls)
    requires IsLine(body) && Terminated(body)
    ensures WellFormed(AppendedShape(ls, body))
  {
    var r := AppendedShape(ls, body);
    if !EndsWithNewline(ls) {
      var last := ls[|ls| - 1];
      assert IsLine(last);
      assert IsLine(last + "\n") by {
        assert forall i :: 0 <= i < |last| ==> (last + "\n")[i] == last[i];
      }
      assert forall k :: 0 <= k < |ls| - 1 ==> r[k] == ls[k];
    } else {
      assert forall k :: 0 <= k < |ls| ==> r[k] == ls[k];
    }
  }

  lemma AppendNewlineThenLine(ls: seq<string>, body: string)
    requires WellFormed(ls)
    requires IsLine(body) && Terminated(body)
    ensures SplitLines(Join(ls) + "\n" + body) == AppendedShape(ls, body)
    ensures WellFormed(AppendedShape(ls, body))
  {
    AppendedJoin(ls, body);
    AppendedWellFormed(ls, body);
    SplitJoinLines(AppendedShape(ls, body));
  }
}
