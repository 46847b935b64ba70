/**
 * The Apache main configuration as far as the scripts touch it:
 * `ensure_include_in_httpd` appends the include directive for the vhost
 * directory unless some line already mentions that directory
 * (phpvhost.py:425-431, laravel_vhoster.py:38-45).
 */
module HttpdConf {
  import opened Text
  import opened Lines

  /** What counts as an existing include: a substring, not an exact line. */
  const IncludeMarker: string := "IncludeOptional conf/extra/"

  const IncludeLine: string := "IncludeOptional conf/extra/*.conf\n"

  /** The httpd.conf lines after `ensure_include_in_httpd()`. */
  function IncludeEnsured(ls: seq<string>): (r: seq<string>)
    ensures Join(r) == if AnyLineContains(ls, IncludeMarker) then Join(ls) else Join(ls) + "\n" + IncludeLine
    ensures WellFormed(ls) ==> WellFormed(r)
  {
    if AnyLineContains(ls, IncludeMarker) then ls
    else
      var text := Join(ls) + "\n" + IncludeLine;
      SplitLines(text)
  }

  lemma IncludeLineShape()
    ensures IsLine(IncludeLine) && Terminated(IncludeLine)
    ensures Contains(IncludeLine, IncludeMarker)
  {
    var body := "IncludeOptional conf/extra/*.conf";
    assert IncludeLine == body + "\n";
    assert '\n' !in body;
    CompleteLine(body);
    assert IncludeLine == IncludeMarker + "*.conf\n";
    ContainsMiddle("", IncludeMarker, "*.conf\n");
    assert "" + IncludeMarker + "*.conf\n" == IncludeLine;
  }

  /**
   * The directive is appended exactly when no line mentions the directory,
   * and the append keeps every earlier line.
   */
  lemma IncludeEnsuredAppends(ls: seq<string>)
    requires WellFormed(ls)
    ensures IncludeEnsured(ls) == if AnyLineContains(ls, IncludeMarker) then ls else AppendedShape(ls, IncludeLine)
  {
    if !AnyLineContains(ls, IncludeMarker) {
      IncludeLineShape();
      AppendNewlineThenLine(ls, IncludeLine);
    }
  }

  /** Afterwards some line mentions the vhost directory. */
  lemma IncludeEnsuredPresent(ls: seq<string>)
    requires WellFormed(ls)
    ensures AnyLineContains(IncludeEnsured(ls), IncludeMarker)
  {
    if !AnyLineContains(ls, IncludeMarker) {
      IncludeEnsuredAppends(ls);
      var r := IncludeEnsured(ls);
      assert r[|r| - 1] == IncludeLine;
      IncludeLineShape();
    }
  }

  /** A second call changes nothing. */
  lemma IncludeEnsuredIdempotent(ls: seq<string>)
    requires WellFormed(ls)
    ensures IncludeEnsured(IncludeEnsured(ls)) == IncludeEnsured(ls)
  {
    IncludeEnsuredPresent(ls);
  }
}
