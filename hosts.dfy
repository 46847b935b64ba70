/**
 * The hosts-file edits of `update_hosts`: registering a domain appends a
 * mapping line unless some line already mentions the domain; removing it
 * keeps only the lines that do not mention it. Both scripts share this
 * code (phpvhost.py:517-528, laravel_vhoster.py:166-181).
 */
module HostsFile {
  import opened Text
  import opened Lines

  /** The mapping line written for `domain`, after the blank-line separator. */
  function EntryLine(domain: string): string {
    "127.0.0.1    " + domain + "\n"
  }

  /** The hosts lines after `update_hosts(domain, add=True)`. */
  function HostsAdded(ls: seq<string>, domain: string): (r: seq<string>)
    ensures Join(r) == if AnyLineContains(ls, domain) then Join(ls) else Join(ls) + "\n" + EntryLine(domain)
    ensures WellFormed(ls) ==> WellFormed(r)
  {
    if AnyLineContains(ls, domain) then ls
    else
      var text := Join(ls) + "\n" + EntryLine(domain);
      SplitLines(text)
  }

  /** The hosts lines after `update_hosts(domain, add=False)`: a filter. */
  function HostsRemoved(ls: seq<string>, domain: string): (r: seq<string>)
    ensures |r| <= |ls|
    ensures forall i :: 0 <= i < |r| ==> !Contains(r[i], domain) && r[i] in ls
  {
    if ls == [] then []
    else (if Contains(ls[0], domain) then [] else [ls[0]]) + HostsRemoved(ls[1..], domain)
  }

  lemma EntryLineIsLine(domain: string)
    requires '\n' !in domain
    ensures IsLine(EntryLine(domain)) && Terminated(EntryLine(domain))
    ensures Contains(EntryLine(domain), domain)
  {
    var e := EntryLine(domain);
    forall i | 0 <= i < |e| - 1 ensures e[i] != '\n' {
      if 13 <= i { assert e[i] == domain[i - 13]; }
    }
    ContainsMiddle("127.0.0.1    ", domain, "\n");
  }

  /**
   * Adding a domain no line mentions changes nothing but the end of the
   * file: the separating '\n' ends the last line (or forms a blank line)
   * and the mapping line follows. Every earlier line is kept as it was.
   */
  lemma HostsAddedAppends(ls: seq<string>, domain: string)
    requires WellFormed(ls) && '\n' !in domain
    requires !AnyLineContains(ls, domain)
    ensures HostsAdded(ls, domain) == AppendedShape(ls, EntryLine(domain))
    ensures |HostsAdded(ls, domain)| == |ls| + (if EndsWithNewline(ls) then 2 else 1)
  {
    EntryLineIsLine(domain);
    AppendNewlineThenLine(ls, EntryLine(domain));
  }

  /** After adding, some line mentions the domain. */
  lemma HostsAddedRegisters(ls: seq<string>, domain: string)
    requires WellFormed(ls) && '\n' !in domain
    ensures AnyLineContains(HostsAdded(ls, domain), domain)
  {
    if !AnyLineContains(ls, domain) {
      HostsAddedAppends(ls, domain);
      var r := HostsAdded(ls, domain);
      assert r[|r| - 1] == EntryLine(domain);
      EntryLineIsLine(domain);
    }
  }

  /** Adding twice is adding once. */
  lemma HostsAddedIdempotent(ls: seq<string>, domain: string)
    requires WellFormed(ls) && '\n' !in domain
    ensures HostsAdded(HostsAdded(ls, domain), domain) == HostsAdded(ls, domain)
  {
    HostsAddedRegisters(ls, domain);
  }

  /** Removal distributes over concatenation: the kept lines stay in their order. */
  lemma {:induction false} HostsRemovedConcat(a: seq<string>, b: seq<string>, domain: string)
    ensures HostsRemoved(a + b, domain) == HostsRemoved(a, domain) + HostsRemoved(b, domain)
  {
    if a == [] {
      assert a + b == b;
    } else {
      assert (a + b)[1..] == a[1..] + b;
      HostsRemovedConcat(a[1..], b, domain);
    }
  }

  /** Each line is kept exactly as often as it occurs, unless it mentions the domain. */
  lemma {:induction false} HostsRemovedCounts(ls: seq<string>, domain: string, l: string)
    ensures multiset(HostsRemoved(ls, domain))[l] == if Contains(l, domain) then 0 else multiset(ls)[l]
  {
    if ls != [] {
      var rest := HostsRemoved(ls[1..], domain);
      HostsRemovedCounts(ls[1..], domain, l);
      assert multiset(ls)[l] == multiset(ls[1..])[l] + (if ls[0] == l then 1 else 0) by {
        assert ls == [ls[0]] + ls[1..];
      }
      if Contains(ls[0], domain) {
        assert HostsRemoved(ls, domain) == rest;
      } else {
        assert multiset(HostsRemoved(ls, domain))[l] == multiset(rest)[l] + (if ls[0] == l then 1 else 0) by {
          assert HostsRemoved(ls, domain) == [ls[0]] + rest;
        }
      }
    }
  }

  /** Afterwards no line mentions the domain. */
  lemma HostsRemovedClears(ls: seq<string>, domain: string)
    ensures !AnyLineContains(HostsRemoved(ls, domain), domain)
  {
    var r := HostsRemoved(ls, domain);
    forall k | 0 <= k < |r| ensures !Contains(r[k], domain) {
      HostsRemovedCounts(ls, domain, r[k]);
      assert r[k] in multiset(r);
    }
  }

  /** A file in which no line mentions the domain is left exactly as it is. */
  lemma {:induction false} HostsRemovedUnchanged(ls: seq<string>, domain: string)
    requires !AnyLineContains(ls, domain)
    ensures HostsRemoved(ls, domain) == ls
  {
    if ls != [] {
      assert !Contains(ls[0], domain);
      assert !AnyLineContains(ls[1..], domain) by {
        forall k | 0 <= k < |ls[1..]| ensures !Contains(ls[1..][k], domain) {
          assert ls[1..][k] == ls[k + 1];
        }
      }
      HostsRemovedUnchanged(ls[1..], domain);
    }
  }

  /** Removing twice is removing once. */
  lemma HostsRemovedIdempotent(ls: seq<string>, domain: string)
    ensures HostsRemoved(HostsRemoved(ls, domain), domain) == HostsRemoved(ls, domain)
  {
    HostsRemovedClears(ls, domain);
    HostsRemovedUnchanged(HostsRemoved(ls, domain), domain);
  }

  /** Dropping lines from a `readlines()` result leaves a `readlines()` result. */
  lemma {:induction false} HostsRemovedWellFormed(ls: seq<string>, domain: string)
    requires WellFormed(ls)
    ensures WellFormed(HostsRemoved(ls, domain))
  {
    if ls != [] {
      var rest := ls[1..];
      assert WellFormed(rest) by {
        forall k | 0 <= k < |rest| ensures IsLine(rest[k]) { assert rest[k] == ls[k + 1]; }
        forall k | 0 <= k < |rest| - 1 ensures Terminated(rest[k]) { assert rest[k] == ls[k + 1]; }
      }
      HostsRemovedWellFormed(rest, domain);
      var tail := HostsRemoved(rest, domain);
      if tail != [] && !Contains(ls[0], domain) {
        assert rest != [];
        assert Terminated(ls[0]);
      }
    }
  }

  /** What is left of the file once the entry line is filtered out again. */
  function LeftAfterRoundTrip(ls: seq<string>): seq<string> {
    if EndsWithNewline(ls) then ls + ["\n"] else ls[..|ls| - 1] + [ls[|ls| - 1] + "\n"]
  }

  lemma RoundTripTerminated(ls: seq<string>, domain: string)
    requires WellFormed(ls) && domain != "" && '\n' !in domain
    requires !AnyLineContains(ls, domain) && EndsWithNewline(ls)
    ensures HostsRemoved(AppendedShape(ls, EntryLine(domain)), domain) == ls + ["\n"]
  {
    var e := EntryLine(domain);
    EntryLineIsLine(domain);
    CharNeeded("\n", domain, 0);
    assert HostsRemoved([e], domain) == [];
    assert HostsRemoved(["\n"], domain) == ["\n"];
    HostsRemovedUnchanged(ls, domain);
    HostsRemovedConcat(ls, ["\n"], domain);
    HostsRemovedConcat(ls + ["\n"], [e], domain);
    assert ls + ["\n", e] == ls + ["\n"] + [e];
  }

  lemma RoundTripUnterminated(ls: seq<string>, domain: string)
    requires WellFormed(ls) && domain != "" && '\n' !in domain
    requires !AnyLineContains(ls, domain) && !EndsWithNewline(ls)
    ensures HostsRemoved(AppendedShape(ls, EntryLine(domain)), domain) == ls[..|ls| - 1] + [ls[|ls| - 1] + "\n"]
  {
    var e := EntryLine(domain);
    EntryLineIsLine(domain);
    assert HostsRemoved([e], domain) == [];
    var init := ls[..|ls| - 1];
    var last := ls[|ls| - 1];
    assert !Contains(last, domain);
    ContainsBeforeChar(last, '\n', domain);
    assert last + "\n" == last + ['\n'];
    assert HostsRemoved([last + "\n"], domain) == [last + "\n"];
    assert !AnyLineContains(init, domain) by {
      forall k | 0 <= k < |init| ensures !Contains(init[k], domain) { assert init[k] == ls[k]; }
    }
    HostsRemovedUnchanged(init, domain);
    HostsRemovedConcat(init, [last + "\n"], domain);
    HostsRemovedConcat(init + [last + "\n"], [e], domain);
    assert init + [last + "\n", e] == init + [last + "\n"] + [e];
  }

  lemma LeftAfterRoundTripJoin(ls: seq<string>)
    ensures Join(LeftAfterRoundTrip(ls)) == Join(ls) + "\n"
  {
    if EndsWithNewline(ls) {
      JoinAppend(ls, ["\n"]);
      assert Join(["\n"]) == "\n" + Join([]);
    } else {
      var init := ls[..|ls| - 1];
      var last := ls[|ls| - 1];
      assert ls == init + [last];
      JoinAppend(init, [last]);
      JoinAppend(init, [last + "\n"]);
      assert Join([last]) == last + Join([]);
      assert Join([last + "\n"]) == last + "\n" + Join([]);
    }
  }

  /**
   * Registering then removing a domain the file did not mention does not
   * give the original bytes back: the separating '\n' stays behind, either
   * as a blank line or as the newly added terminator of the last line.
   */
  lemma HostsAddThenRemove(ls: seq<string>, domain: string)
    requires WellFormed(ls) && domain != "" && '\n' !in domain
    requires !AnyLineContains(ls, domain)
    ensures HostsRemoved(HostsAdded(ls, domain), domain) == LeftAfterRoundTrip(ls)
    ensures Join(HostsRemoved(HostsAdded(ls, domain), domain)) == Join(ls) + "\n"
  {
    HostsAddedAppends(ls, domain);
    if EndsWithNewline(ls) {
      RoundTripTerminated(ls, domain);
    } else {
      RoundTripUnterminated(ls, domain);
    }
    LeftAfterRoundTripJoin(ls);
  }
}
