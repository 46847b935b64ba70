/**
 * The per-domain virtual-host file: the fixed template `create_vhost_file`
 * renders (phpvhost.py:474-501, laravel_vhoster.py:113-140) and the reading
 * back that `get_existing_projects` does (phpvhost.py:392-414).
 */
module VhostFile {
  import opened Text

  /** `f"{project_name}.test"` */
  function DomainFor(projectName: string): (domain: string)
    ensures '\n' !in projectName ==> '\n' !in domain
  {
    assert forall i :: 0 <= i < |".test"| ==> ".test"[i] != '\n';
    projectName + ".test"
  }

  /** `f"{domain}.conf"`, the file's name in the vhost directory. */
  function FileName(domain: string): string {
    domain + ".conf"
  }

  function DocRootLine(root: string): string {
    "    DocumentRoot \"" + root + "\""
  }

  function DirectoryLine(root: string): string {
    "    <Directory \"" + root + "\">"
  }

  /** The lines of the template, between its opening and closing newline. */
  function TemplateLines(domain: string, root: string, cert: string, key: string): seq<string> {
    [ "<VirtualHost *:80>",
      "    ServerName " + domain,
      DocRootLine(root),
      DirectoryLine(root),
      "        AllowOverride All",
      "        Require all granted",
      "    </Directory>",
      "</VirtualHost>",
      "",
      "<VirtualHost *:443>",
      "    ServerName " + domain,
      DocRootLine(root),
      "",
      "    SSLEngine on",
      "    SSLCertificateFile \"" + cert + "\"",
      "    SSLCertificateKeyFile \"" + key + "\"",
      "",
      DirectoryLine(root),
      "        AllowOverride All",
      "        Require all granted",
      "    </Directory>",
      "</VirtualHost>" ]
  }

  /** The template string as the f-string builds it, before `.strip()`. */
  function RawTemplate(domain: string, root: string, cert: string, key: string): string {
    "\n" + JoinOn(TemplateLines(domain, root, cert, key), '\n') + "\n"
  }

  /** The content `create_vhost_file` writes: a pure function of its four inputs. */
  function Render(domain: string, root: string, cert: string, key: string): string {
    Strip(RawTemplate(domain, root, cert, key))
  }

  /** `.strip()` only removes the template's opening and closing newline. */
  lemma RenderIsJoin(domain: string, root: string, cert: string, key: string)
    ensures Render(domain, root, cert, key) == JoinOn(TemplateLines(domain, root, cert, key), '\n')
  {
    var lines := TemplateLines(domain, root, cert, key);
    var j := JoinOn(lines, '\n');
    JoinOnStartsWith(lines, '\n');
    JoinOnEndsWith(lines, '\n');
    assert j[0] == j[..|lines[0]|][0] == lines[0][0] == '<';
    assert j[|j| - 1] == j[|j| - |lines[21]|..][|lines[21]| - 1] == lines[21][|lines[21]| - 1] == '>';
    StripFramed(j);
  }

  /**
   * One `*:80` block (lines 0-7) and one `*:443` block (lines 9-21); both
   * carry the DocumentRoot line, and only the 443 block holds the TLS
   * directives.
   */
  lemma TemplateShape(domain: string, root: string, cert: string, key: string)
    ensures var lines := TemplateLines(domain, root, cert, key);
      && |lines| == 22
      && (forall i | 0 <= i < |lines| :: lines[i] == "<VirtualHost *:80>" <==> i == 0)
      && (forall i | 0 <= i < |lines| :: lines[i] == "<VirtualHost *:443>" <==> i == 9)
      && (forall i | 0 <= i < |lines| :: lines[i] == "</VirtualHost>" <==> i == 7 || i == 21)
      && (forall i | 0 <= i < |lines| :: lines[i] == DocRootLine(root) <==> i == 2 || i == 11)
      && (forall i | 0 <= i < |lines| :: lines[i] == "    SSLEngine on" <==> i == 13)
      && (forall i | 0 <= i < |lines| :: StartsWith(lines[i], "    SSLCertificate") <==> i == 14 || i == 15)
  {
    var lines := TemplateLines(domain, root, cert, key);
    var tls := "    SSLCertificate";
    assert DocRootLine(root)[4] == 'D';
    assert tls[4] == 'S' && tls[5] == 'S' && tls[7] == 'C';
    forall i | 0 <= i < |lines|
      ensures lines[i] == "<VirtualHost *:80>" <==> i == 0
      ensures lines[i] == "<VirtualHost *:443>" <==> i == 9
      ensures lines[i] == "</VirtualHost>" <==> i == 7 || i == 21
      ensures lines[i] == DocRootLine(root) <==> i == 2 || i == 11
      ensures lines[i] == "    SSLEngine on" <==> i == 13
      ensures StartsWith(lines[i], tls) <==> i == 14 || i == 15
    {
      var l := lines[i];
      assert |l| >= |tls| ==> l[..|tls|][4] == l[4] && l[..|tls|][5] == l[5] && l[..|tls|][7] == l[7];
      if i == 0 || i == 7 || i == 9 || i == 21 {
        assert l[0] == '<';
      } else if i == 8 || i == 12 || i == 16 {
        assert l == "";
      } else if i == 1 || i == 10 {
        assert l[4] == 'S' && l[5] == 'e';
      } else if i == 2 || i == 11 {
        assert l == DocRootLine(root);
      } else if i == 3 || i == 17 {
        assert l[4] == '<';
      } else if i == 4 || i == 5 || i == 18 || i == 19 {
        assert l[0] == ' ' && l[4] == ' ';
      } else if i == 6 || i == 20 {
        assert l[4] == '<' && |l| < |tls|;
      } else if i == 13 {
        assert l[7] == 'E';
      } else {
        assert i == 14 || i == 15;
        assert l[..|tls|] == tls;
        assert l[4] == 'S';
      }
    }
  }

  // ---------------------------------------------------------------------
  // Reading a vhost file back (get_existing_projects).

  /** What the DocumentRoot scan yields: a root, no such line, or an IndexError. */
  datatype RootScan = Found(root: string) | NotFound | Raised

  /**
   * `line.split('"')[1] if '"' in line else line.split()[1]`: a quoted root
   * never raises and holds no '"'; an unquoted line raises when it has
   * fewer than two tokens, and otherwise gives its second token.
   */
  function RootOfLine(line: string): (r: RootScan)
    ensures !r.NotFound?
    ensures '"' in line ==> r.Found? && '"' !in r.root
    ensures r.Raised? <==> '"' !in line && |SplitWhitespace(line)| < 2
    ensures r.Found? && '"' !in line ==> r.root != "" && forall i :: 0 <= i < |r.root| ==> !IsSpace(r.root[i])
  {
    if '"' in line then Found(SplitOn(line, '"')[1])
    else
      var tokens := SplitWhitespace(line);
      if |tokens| >= 2 then Found(tokens[1]) else Raised
  }

  /**
   * On a line with a '"', the root is the text after the first '"', up to the
   * next '"' or the end of the line.
   */
  lemma RootOfQuotedLine(a: string, b: string, t: string)
    requires '"' !in a && '"' !in b
    ensures RootOfLine(a + ['"'] + b) == Found(b)
    ensures RootOfLine(a + ['"'] + b + ['"'] + t) == Found(b)
  {
    SplitPiece(b, '"');
    SplitPieceThen(a, '"', b);
    assert a + ['"'] + b + ['"'] + t == a + ['"'] + (b + ['"'] + t);
    SplitPieceThen(a, '"', b + ['"'] + t);
    SplitPieceThen(b, '"', t);
  }

  /** The first line that mentions `DocumentRoot` decides; the scan stops there. */
  function DocumentRootOf(lines: seq<string>): (r: RootScan)
    ensures r.NotFound? <==> forall k :: 0 <= k < |lines| ==> !Contains(lines[k], "DocumentRoot")
  {
    if lines == [] then NotFound
    else if Contains(lines[0], "DocumentRoot") then RootOfLine(lines[0])
    else
      assert forall k :: 0 <= k < |lines[1..]| ==> lines[1..][k] == lines[k + 1];
      DocumentRootOf(lines[1..])
  }

  /** The scan's result is that of the first mentioning line, or NotFound when there is none. */
  lemma {:induction false} DocumentRootOfFirst(lines: seq<string>, i: nat)
    requires i <= |lines|
    requires forall j :: 0 <= j < i ==> !Contains(lines[j], "DocumentRoot")
    requires i < |lines| ==> Contains(lines[i], "DocumentRoot")
    ensures DocumentRootOf(lines) == if i < |lines| then RootOfLine(lines[i]) else NotFound
  {
    if i > 0 {
      assert !Contains(lines[0], "DocumentRoot");
      DocumentRootOfFirst(lines[1..], i - 1);
    }
  }

  /** The `for ... break` scan over `content.split('\n')`. */
  method ScanDocumentRoot(lines: seq<string>) returns (r: RootScan)
    ensures r == DocumentRootOf(lines)
  {
    r := NotFound;
    var i := 0;
    while i < |lines|
      invariant 0 <= i <= |lines|
      invariant DocumentRootOf(lines[i..]) == DocumentRootOf(lines)
    {
      if Contains(lines[i], "DocumentRoot") {
        r := RootOfLine(lines[i]);
        break;
      }
      assert lines[i..][1..] == lines[i + 1..];
      i := i + 1;
    }
  }

  datatype Status = Active | Missing

  /** A row of the project listing: `(domain, doc_root, ssl_status, status)`. */
  datatype Project = Project(domain: string, docRoot: string, ssl: bool, status: Status)

  /**
   * The listing row for a file: an IndexError in the scan leaves the root
   * "Unknown" and skips the SSL test; `existing` is the oracle for
   * `os.path.exists`.
   */
  function ProjectOf(domain: string, content: string, existing: set<string>): (r: Project)
    ensures r.domain == domain
    ensures r.status == Active <==> r.docRoot in existing
    ensures !DocumentRootOf(SplitOn(content, '\n')).Found? ==> r.docRoot == "Unknown"
    ensures DocumentRootOf(SplitOn(content, '\n')).Found? ==> r.docRoot == DocumentRootOf(SplitOn(content, '\n')).root
    ensures r.ssl <==> !DocumentRootOf(SplitOn(content, '\n')).Raised? && Contains(content, "SSLEngine on")
  {
    var scan := DocumentRootOf(SplitOn(content, '\n'));
    var root := if scan.Found? then scan.root else "Unknown";
    var ssl := !scan.Raised? && Contains(content, "SSLEngine on");
    Project(domain, root, ssl, if root in existing then Active else Missing)
  }

  /** `file.endswith('.conf') and '.test' in file` */
  predicate IsProjectFile(name: string) {
    EndsWith(name, ".conf") && Contains(name, ".test")
  }

  /**
   * The domain as the source derives it: `file.replace('.conf', '')`. It
   * removes at least the extension of a `.conf` file.
   */
  function DomainOfFileAsWritten(name: string): (domain: string)
    ensures EndsWith(name, ".conf") ==> |domain| <= |name| - 5
  {
    RemoveAll(name, ".conf")
  }

  /** The domain with only the `.conf` extension removed. */
  function DomainOfFile(name: string): (domain: string)
    requires EndsWith(name, ".conf")
    ensures FileName(domain) == name
  {
    name[..|name| - 5]
  }

  /**
   * The replace-based derivation is right as long as the domain itself
   * holds no ".conf".
   */
  lemma DomainOfFileAsWrittenAgrees(projectName: string)
    requires !Contains(DomainFor(projectName), ".conf")
    ensures DomainOfFileAsWritten(FileName(DomainFor(projectName))) == DomainFor(projectName)
  {
    var d := DomainFor(projectName);
    assert d[|d| - 1] == 't';
    StripSuffix(d, ".conf");
  }

  /**
   * It is wrong otherwise: the project folder `app.config` gets the file
   * `app.config.test.conf`, which is listed as `appig.test`, and a later
   * removal of that domain targets `appig.test.conf` instead.
   */
  lemma DomainOfFileAsWrittenMangles()
    ensures DomainOfFileAsWritten(FileName(DomainFor("app.config"))) == "appig.test"
    ensures FileName("appig.test") != FileName(DomainFor("app.config"))
    ensures DomainOfFile(FileName(DomainFor("app.config"))) == DomainFor("app.config")
  {
    var name := FileName(DomainFor("app.config"));
    MangledListing();
    assert |FileName("appig.test")| != |name|;
    FileNameInjective(DomainOfFile(name), DomainFor("app.config"));
  }

  lemma MangledListing()
    ensures DomainOfFileAsWritten(FileName(DomainFor("app.config"))) == "appig.test"
  {
    assert DomainOfFileAsWritten(FileName(DomainFor("app.config"))) == "app" + RemoveAll(".config.test.conf", ".conf") by {
      MangledName();
      MangleHead();
    }
    assert RemoveAll(".config.test.conf", ".conf") == "ig.test" by {
      MangleMiddle();
      MangleTail();
    }
    MangledJoin();
  }

  lemma MangledJoin()
    ensures "app" + "ig.test" == "appig.test"
  {
  }

  lemma MangledName()
    ensures FileName(DomainFor("app.config")) == "app" + ".config.test.conf"
  {
  }

  /** Different domains get different file names. */
  lemma FileNameInjective(d1: string, d2: string)
    requires FileName(d1) == FileName(d2)
    ensures d1 == d2
  {
    assert d1 == FileName(d1)[..|d1|];
  }

  lemma MangleHead()
    ensures RemoveAll("app" + ".config.test.conf", ".conf") == "app" + RemoveAll(".config.test.conf", ".conf")
  {
    var t := "app" + ".config.test.conf";
    forall i: nat | i < 3 ensures !OccursAt(t, ".conf", i) {
      assert t[i] != '.';
      assert i + 5 <= |t| ==> t[i..i + 5][0] == t[i];
    }
    RemoveAllKeepsPrefix("app", ".config.test.conf", ".conf");
  }

  lemma MangleMiddle()
    ensures RemoveAll(".config.test.conf", ".conf") == RemoveAll("ig.test.conf", ".conf")
  {
    assert ".config.test.conf" == ".conf" + "ig.test.conf";
    RemoveAllLeading(".conf", "ig.test.conf");
  }

  lemma MangleTail()
    ensures RemoveAll("ig.test.conf", ".conf") == "ig.test"
  {
    assert "ig.test.conf" == "ig.test" + ".conf";
    CharNeeded("ig.test", ".conf", 1);
    assert "ig.test"[6] == 't';
    StripSuffix("ig.test", ".conf");
  }

  /** No template line holds a newline when none of the inputs does. */
  lemma TemplateLinesSingle(domain: string, root: string, cert: string, key: string)
    requires '\n' !in domain && '\n' !in root && '\n' !in cert && '\n' !in key
    ensures forall k | 0 <= k < 22 :: '\n' !in TemplateLines(domain, root, cert, key)[k]
  {
    var lines := TemplateLines(domain, root, cert, key);
    forall k | 0 <= k < 22 ensures '\n' !in lines[k] {
      if k == 1 || k == 10 {
        assert lines[k] == "    ServerName " + domain;
      } else if k == 2 || k == 11 {
        assert lines[k] == "    DocumentRoot \"" + root + "\"";
      } else if k == 3 || k == 17 {
        assert lines[k] == "    <Directory \"" + root + "\">";
      } else if k == 14 {
        assert lines[k] == "    SSLCertificateFile \"" + cert + "\"";
      } else if k == 15 {
        assert lines[k] == "    SSLCertificateKeyFile \"" + key + "\"";
      }
    }
  }

  /** A rendered file splits back on '\n' into the template's lines. */
  lemma RenderSplits(domain: string, root: string, cert: string, key: string)
    requires '\n' !in domain && '\n' !in root && '\n' !in cert && '\n' !in key
    ensures SplitOn(Render(domain, root, cert, key), '\n') == TemplateLines(domain, root, cert, key)
  {
    var lines := TemplateLines(domain, root, cert, key);
    var j := JoinOn(lines, '\n');
    assert Render(domain, root, cert, key) == j by { RenderIsJoin(domain, root, cert, key); }
    assert SplitOn(j, '\n') == lines by {
      TemplateLinesSingle(domain, root, cert, key);
      SplitJoin(lines, '\n');
    }
  }

  /** A DocumentRoot line of the template mentions the directive. */
  lemma DocRootLineMentions(root: string)
    ensures Contains(DocRootLine(root), "DocumentRoot")
  {
    assert DocRootLine(root) == "    " + "DocumentRoot" + (" \"" + root + "\"");
    ContainsMiddle("    ", "DocumentRoot", " \"" + root + "\"");
  }

  /** A DocumentRoot line of the template yields its quoted root. */
  lemma DocRootLineRoot(root: string)
    requires '"' !in root
    ensures RootOfLine(DocRootLine(root)) == Found(root)
  {
    var line := DocRootLine(root);
    var parts := ["    DocumentRoot ", root, ""];
    assert line == JoinOn(parts, '"') by {
      assert JoinOn(parts[1..], '"') == root + ['"'] + "" by {
        assert parts[1..][1..] == [""];
      }
    }
    assert SplitOn(line, '"') == parts by {
      SplitJoin(parts, '"');
    }
    assert line[17] == '"';
  }

  /** The scan stops at the first DocumentRoot line and reads the quoted root. */
  lemma TemplateRoot(domain: string, root: string, cert: string, key: string)
    requires '"' !in root && !Contains(domain, "DocumentRoot")
    ensures DocumentRootOf(TemplateLines(domain, root, cert, key)) == Found(root)
  {
    var lines := TemplateLines(domain, root, cert, key);
    assert !Contains(lines[0], "DocumentRoot") by {
      CharNeeded(lines[0], "DocumentRoot", 0);
    }
    assert !Contains(lines[1], "DocumentRoot") by {
      assert lines[1] == "    ServerName " + domain;
      ContainsPastPrefix("    ServerName ", domain, "DocumentRoot");
    }
    assert lines[2] == DocRootLine(root);
    DocRootLineMentions(root);
    DocRootLineRoot(root);
    DocumentRootOfFirst(lines, 2);
  }

  lemma SslEngineLine()
    ensures Contains("    SSLEngine on", "SSLEngine on")
  {
    assert "    SSLEngine on" == "    " + "SSLEngine on" + "";
    ContainsMiddle("    ", "SSLEngine on", "");
  }

  lemma RenderHasSsl(domain: string, root: string, cert: string, key: string)
    ensures Contains(Render(domain, root, cert, key), "SSLEngine on")
  {
    var lines := TemplateLines(domain, root, cert, key);
    assert lines[13] == "    SSLEngine on";
    SslEngineLine();
    ContainsJoinPart(lines, '\n', 13, "SSLEngine on");
    RenderIsJoin(domain, root, cert, key);
  }

  /**
   * A file rendered for `<name>.test` is listed back as that domain, with
   * the rendered document root and SSL on, provided the inputs hold no
   * newline, the root no '"' and the domain no "DocumentRoot".
   */
  lemma RenderThenList(projectName: string, root: string, cert: string, key: string, existing: set<string>)
    requires '\n' !in projectName && '\n' !in root && '\n' !in cert && '\n' !in key
    requires '"' !in root
    requires !Contains(DomainFor(projectName), "DocumentRoot")
    ensures IsProjectFile(FileName(DomainFor(projectName)))
    ensures var d := DomainFor(projectName);
      ProjectOf(DomainOfFile(FileName(d)), Render(d, root, cert, key), existing)
        == Project(d, root, true, if root in existing then Active else Missing)
  {
    var d := DomainFor(projectName);
    assert '\n' !in d;
    RenderSplits(d, root, cert, key);
    TemplateRoot(d, root, cert, key);
    RenderHasSsl(d, root, cert, key);
    ContainsMiddle(projectName, ".test", ".conf");
    assert FileName(d) == projectName + ".test" + ".conf";
  }

  /**
   * How a listed file name becomes a domain: `ReplaceAll` is the source's
   * `file.replace('.conf', '')`, `StripExtension` removes only the final
   * extension.
   */
  datatype DomainRule = ReplaceAll | StripExtension

  function DomainOfEntry(name: string, rule: DomainRule): (domain: string)
    requires EndsWith(name, ".conf")
    ensures |domain| <= |name| - 5
    ensures rule == StripExtension ==> FileName(domain) == name
  {
    match rule
    case ReplaceAll => DomainOfFileAsWritten(name)
    case StripExtension => DomainOfFile(name)
  }

  /** `names` is what `os.listdir` returns for the directory: every file exactly once. */
  predicate ListsDirectory(names: seq<string>, vhosts: map<string, string>) {
    && (forall k :: 0 <= k < |names| ==> names[k] in vhosts)
    && (forall f :: f in vhosts ==> f in names)
    && (forall j, k :: 0 <= j < k < |names| ==> names[j] != names[k])
  }

  /**
   * The listing of a vhost directory, entry by entry in `os.listdir` order:
   * at most one row per entry, and no row exactly when no entry is a
   * project file.
   */
  function ListedProjects(names: seq<string>, vhosts: map<string, string>, existing: set<string>, rule: DomainRule)
    : (r: seq<Project>)
    requires forall k :: 0 <= k < |names| ==> names[k] in vhosts
    ensures |r| <= |names|
    ensures r == [] <==> forall k :: 0 <= k < |names| ==> !IsProjectFile(names[k])
  {
    if names == [] then []
    else
      assert forall k :: 0 <= k < |names[1..]| ==> names[1..][k] == names[k + 1];
      (if IsProjectFile(names[0]) then [ProjectOf(DomainOfEntry(names[0], rule), vhosts[names[0]], existing)] else [])
      + ListedProjects(names[1..], vhosts, existing, rule)
  }

  /** One step of the listing, from entry `i` on. */
  lemma ListedProjectsStep(names: seq<string>, i: int, vhosts: map<string, string>, existing: set<string>,
                           rule: DomainRule)
    requires 0 <= i < |names|
    requires forall k :: 0 <= k < |names| ==> names[k] in vhosts
    ensures ListedProjects(names[i..], vhosts, existing, rule)
         == (if IsProjectFile(names[i]) then [ProjectOf(DomainOfEntry(names[i], rule), vhosts[names[i]], existing)] else [])
            + ListedProjects(names[i + 1..], vhosts, existing, rule)
  {
    assert names[i..][0] == names[i];
    assert names[i..][1..] == names[i + 1..];
  }

  /**
   * A row is listed exactly when some entry is a project file (it ends in
   * ".conf" and mentions ".test") whose content gives that row; every other
   * entry is skipped.
   */
  lemma {:induction false} ListedProjectsFilter(names: seq<string>, vhosts: map<string, string>, existing: set<string>,
                                                rule: DomainRule, p: Project)
    requires forall k :: 0 <= k < |names| ==> names[k] in vhosts
    ensures p in ListedProjects(names, vhosts, existing, rule)
        <==> exists k :: 0 <= k < |names| && IsProjectFile(names[k])
                         && p == ProjectOf(DomainOfEntry(names[k], rule), vhosts[names[k]], existing)
  {
    if names != [] {
      ListedProjectsFilter(names[1..], vhosts, existing, rule, p);
      if exists k :: 0 <= k < |names| && IsProjectFile(names[k])
                     && p == ProjectOf(DomainOfEntry(names[k], rule), vhosts[names[k]], existing) {
        var k :| 0 <= k < |names| && IsProjectFile(names[k])
                 && p == ProjectOf(DomainOfEntry(names[k], rule), vhosts[names[k]], existing);
        if k > 0 {
          assert names[1..][k - 1] == names[k];
        }
      }
      if exists k :: 0 <= k < |names[1..]| && IsProjectFile(names[1..][k])
                     && p == ProjectOf(DomainOfEntry(names[1..][k], rule), vhosts[names[1..][k]], existing) {
        var k :| 0 <= k < |names[1..]| && IsProjectFile(names[1..][k])
                 && p == ProjectOf(DomainOfEntry(names[1..][k], rule), vhosts[names[1..][k]], existing);
        assert names[k + 1] == names[1..][k];
      }
    }
  }

  /**
   * The two rules list the same rows when `replace` yields each project
   * file's domain, as it does for every file made for a project whose name
   * holds no ".conf" (DomainOfFileAsWrittenAgrees).
   */
  lemma {:induction false} ListingsAgree(names: seq<string>, vhosts: map<string, string>, existing: set<string>)
    requires forall k :: 0 <= k < |names| ==> names[k] in vhosts
    requires forall k :: 0 <= k < |names| && IsProjectFile(names[k]) ==> DomainOfFileAsWritten(names[k]) == DomainOfFile(names[k])
    ensures ListedProjects(names, vhosts, existing, ReplaceAll) == ListedProjects(names, vhosts, existing, StripExtension)
  {
    if names != [] {
      assert forall k :: 0 <= k < |names[1..]| ==> names[1..][k] == names[k + 1];
      ListingsAgree(names[1..], vhosts, existing);
    }
  }

  /**
   * A domain whose file was rendered by `create_vhost_file` shows up in the
   * listing, under either rule as long as the project name holds no ".conf".
   */
  lemma RenderedIsListed(names: seq<string>, vhosts: map<string, string>, existing: set<string>, rule: DomainRule,
                         projectName: string, root: string, cert: string, key: string)
    requires ListsDirectory(names, vhosts)
    requires '\n' !in projectName && '\n' !in root && '\n' !in cert && '\n' !in key
    requires '"' !in root
    requires !Contains(DomainFor(projectName), "DocumentRoot")
    requires rule == ReplaceAll ==> !Contains(DomainFor(projectName), ".conf")
    requires FileName(DomainFor(projectName)) in vhosts
    requires vhosts[FileName(DomainFor(projectName))] == Render(DomainFor(projectName), root, cert, key)
    ensures Project(DomainFor(projectName), root, true, if root in existing then Active else Missing)
            in ListedProjects(names, vhosts, existing, rule)
  {
    var d := DomainFor(projectName);
    var name := FileName(d);
    var k :| 0 <= k < |names| && names[k] == name;
    RenderThenList(projectName, root, cert, key, existing);
    if rule == ReplaceAll {
      DomainOfFileAsWrittenAgrees(projectName);
    }
    assert DomainOfEntry(name, rule) == DomainOfFile(name);
    ListedProjectsFilter(names, vhosts, existing, rule,
                         Project(d, root, true, if root in existing then Active else Missing));
  }
}
