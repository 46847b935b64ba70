/**
 * The file-changing steps of `PHPVHostManager` (phpvhost.py): registering a
 * project, listing the registered projects and removing one. Prompts are
 * parameters: whether the entered path exists, the user's answers, and what
 * mkcert does.
 */
module PhpVHost {
  import opened Options
  import opened Text
  import opened Lines
  import opened HostsFile
  import opened HttpdConf
  import opened Certificates
  import opened VhostFile
  import opened SystemFiles

  /** What the system and the user answer during `register_project`. */
  datatype Oracle = Oracle(pathExists: bool, confirmed: bool, mkcertOk: bool, debris: set<string>)

  datatype RegisterOutcome = PathNotFound | Declined | CertFailed | Registered

  /**
   * `register_project` once a folder and an entry path are chosen: the path
   * check and the confirmation come first; of the prerequisites only the
   * include directive touches a modelled file (mkcert installation, its CA
   * and a2enmod swallow their failures); then the shared provisioning.
   */
  function RegisterRun(s: Snapshot, certsDir: string, projectName: string, fullPath: string, o: Oracle): (r: Run<RegisterOutcome>)
    ensures r.outcome == PathNotFound <==> !o.pathExists
    ensures r.outcome == Declined <==> o.pathExists && !o.confirmed
    ensures r.outcome == Registered
            <==> o.pathExists && o.confirmed && (PairFiles(certsDir, DomainFor(projectName)) <= s.certs || o.mkcertOk)
    ensures r.outcome == PathNotFound || r.outcome == Declined ==> r.after == s
    ensures r.outcome == CertFailed ==> r.after.hosts == s.hosts && r.after.vhosts == s.vhosts
    ensures r.outcome == CertFailed || r.outcome == Registered ==> r.after.httpdConf == IncludeEnsured(s.httpdConf)
  {
    if !o.pathExists then Run(PathNotFound, s)
    else if !o.confirmed then Run(Declined, s)
    else
      var s1 := s.(httpdConf := IncludeEnsured(s.httpdConf));
      var p := Provisioned(s1, certsDir, DomainFor(projectName), fullPath, o.mkcertOk, o.debris);
      Run(if p.outcome then Registered else CertFailed, p.after)
  }

  /**
   * A registered project has its include directive, its vhost file (the
   * template for its domain and path, naming its certificate pair), a hosts
   * line and both certificate files.
   */
  lemma RegisterEstablishes(s: Snapshot, certsDir: string, projectName: string, fullPath: string, o: Oracle)
    requires Tidy(s) && '\n' !in projectName
    requires RegisterRun(s, certsDir, projectName, fullPath, o).outcome == Registered
    ensures var t := RegisterRun(s, certsDir, projectName, fullPath, o).after;
      var d := DomainFor(projectName);
      && Tidy(t)
      && AnyLineContains(t.httpdConf, IncludeMarker)
      && t.vhosts == s.vhosts[FileName(d) := Render(d, fullPath, CertPath(certsDir, d), KeyPath(certsDir, d))]
      && AnyLineContains(t.hosts, d)
      && PairFiles(certsDir, d) <= t.certs
  {
    IncludedProvisionedEstablishes(s, certsDir, DomainFor(projectName), fullPath, o.mkcertOk, o.debris);
  }

  /** Registering the same project again (path still there, confirmed) changes nothing. */
  lemma RegisterIdempotent(s: Snapshot, certsDir: string, projectName: string, fullPath: string, o: Oracle, o2: Oracle)
    requires Tidy(s) && '\n' !in projectName
    requires RegisterRun(s, certsDir, projectName, fullPath, o).outcome == Registered
    requires o2.pathExists && o2.confirmed
    ensures var t := RegisterRun(s, certsDir, projectName, fullPath, o).after;
      RegisterRun(t, certsDir, projectName, fullPath, o2) == Run(Registered, t)
  {
    IncludedProvisionedIdempotent(s, certsDir, DomainFor(projectName), fullPath, o.mkcertOk, o.debris, o2.mkcertOk, o2.debris);
  }

  /**
   * Registering a project nothing referred to and removing its domain
   * restores the vhost and certificate directories; httpd.conf keeps the
   * include directive and the hosts file keeps one extra '\n'.
   */
  lemma RegisterThenRemove(s: Snapshot, certsDir: string, projectName: string, fullPath: string, o: Oracle)
    requires Tidy(s) && '\n' !in projectName
    requires !Mentions(s, certsDir, DomainFor(projectName))
    requires RegisterRun(s, certsDir, projectName, fullPath, o).outcome == Registered
    ensures Purged(RegisterRun(s, certsDir, projectName, fullPath, o).after, certsDir, DomainFor(projectName))
            == Snapshot(LeftAfterRoundTrip(s.hosts), IncludeEnsured(s.httpdConf), s.vhosts, s.certs)
  {
    var s1 := s.(httpdConf := IncludeEnsured(s.httpdConf));
    ProvisionedThenPurged(s1, certsDir, DomainFor(projectName), fullPath, o.mkcertOk, o.debris);
  }

  /** `register_project` from the path check on. */
  method RegisterProject(m: Machine, projectName: string, fullPath: string, o: Oracle) returns (outcome: RegisterOutcome)
    requires m.Valid()
    modifies m
    ensures m.Valid()
    ensures Run(outcome, m.State()) == RegisterRun(old(m.State()), m.certsDir, projectName, fullPath, o)
  {
    var domain := DomainFor(projectName);
    if !o.pathExists {
      return PathNotFound;
    }
    if !o.confirmed {
      return Declined;
    }
    m.EnsureIncludeInHttpd();
    var ok := m.Provision(domain, fullPath, o.mkcertOk, o.debris);
    // restart_apache: a failing restart is swallowed and touches no file
    outcome := if ok then Registered else CertFailed;
  }

  /** `remove_project(domain)`: the removal steps, then the restart. */
  method RemoveProject(m: Machine, domain: string)
    requires m.Valid()
    modifies m
    ensures m.Valid()
    ensures m.State() == Purged(old(m.State()), m.certsDir, domain)
  {
    m.Purge(domain);
  }

  /** The listing built so far grows by the row of entry `i`. */
  lemma ListingGrows(names: seq<string>, i: int, vhosts: map<string, string>, existing: set<string>,
                     projects: seq<Project>, row: seq<Project>)
    requires 0 <= i < |names|
    requires forall k :: 0 <= k < |names| ==> names[k] in vhosts
    requires projects + ListedProjects(names[i..], vhosts, existing, ReplaceAll)
             == ListedProjects(names, vhosts, existing, ReplaceAll)
    requires row == if IsProjectFile(names[i])
                    then [ProjectOf(DomainOfFileAsWritten(names[i]), vhosts[names[i]], existing)] else []
    ensures (projects + row) + ListedProjects(names[i + 1..], vhosts, existing, ReplaceAll)
            == ListedProjects(names, vhosts, existing, ReplaceAll)
  {
    ListedProjectsStep(names, i, vhosts, existing, ReplaceAll);
    AppendAssociates(projects, row, ListedProjects(names[i + 1..], vhosts, existing, ReplaceAll));
  }

  lemma AppendAssociates<T>(a: seq<T>, b: seq<T>, c: seq<T>)
    ensures (a + b) + c == a + (b + c)
  {
  }

  /** The row `get_existing_projects` builds for one project file. */
  method ReadProject(file: string, content: string, existing: set<string>) returns (p: Project)
    ensures p == ProjectOf(DomainOfFileAsWritten(file), content, existing)
  {
    var domain := DomainOfFileAsWritten(file);
    var scan := ScanDocumentRoot(SplitOn(content, '\n'));
    var docRoot := if scan.Found? then scan.root else "Unknown";
    var sslStatus := !scan.Raised? && Contains(content, "SSLEngine on");
    var status := if docRoot in existing then Active else Missing;
    p := Project(domain, docRoot, sslStatus, status);
  }

  /**
   * `get_existing_projects()`: one row per vhost file that ends in ".conf"
   * and mentions ".test", in directory order, its domain derived with
   * `replace`; `names` is that order and `existing` the paths
   * `os.path.exists` accepts.
   */
  method GetExistingProjects(vhostDirExists: bool, names: seq<string>, vhosts: map<string, string>,
                             existing: set<string>) returns (projects: seq<Project>)
    requires ListsDirectory(names, vhosts)
    ensures projects == if vhostDirExists then ListedProjects(names, vhosts, existing, ReplaceAll) else []
  {
    projects := [];
    if !vhostDirExists {
      return;
    }
    var i := 0;
    assert names[i..] == names;
    while i < |names|
      invariant 0 <= i <= |names|
      invariant projects + ListedProjects(names[i..], vhosts, existing, ReplaceAll)
                == ListedProjects(names, vhosts, existing, ReplaceAll)
    {
      var file := names[i];
      var row: seq<Project> := [];
      if EndsWith(file, ".conf") && Contains(file, ".test") {
        var p := ReadProject(file, vhosts[file], existing);
        row := [p];
      }
      ListingGrows(names, i, vhosts, existing, projects, row);
      projects := projects + row;
      i := i + 1;
    }
    assert names[i..] == [];
  }

  /**
   * `manage_projects()` after the listing: `selection` is the number the
   * user typed (None for an empty or non-numeric answer) and `confirmed`
   * the answer to the removal prompt.
   */
  function ManageRun(s: Snapshot, certsDir: string, projects: seq<Project>, selection: Option<int>, confirmed: bool): (r: Snapshot)
    ensures r != s ==> selection.Some? && 1 <= selection.value <= |projects| && confirmed
    ensures selection.Some? && 1 <= selection.value <= |projects| && confirmed
            ==> !Mentions(r, certsDir, projects[selection.value - 1].domain)
  {
    if selection.Some? && 1 <= selection.value <= |projects| && confirmed
    then Purged(s, certsDir, projects[selection.value - 1].domain)
    else s
  }

  /**
   * With the domain taken as the file name minus its extension, removing a
   * listed row deletes exactly the vhost file the row was read from.
   */
  lemma ManageRemovesChosenFile(s: Snapshot, certsDir: string, names: seq<string>, existing: set<string>, n: int)
    requires ListsDirectory(names, s.vhosts)
    requires 1 <= n <= |ListedProjects(names, s.vhosts, existing, StripExtension)|
    ensures var p := ListedProjects(names, s.vhosts, existing, StripExtension)[n - 1];
      && FileName(p.domain) in names
      && ManageRun(s, certsDir, ListedProjects(names, s.vhosts, existing, StripExtension), Some(n), true).vhosts.Keys
           == s.vhosts.Keys - {FileName(p.domain)}
  {
    var listing := ListedProjects(names, s.vhosts, existing, StripExtension);
    ListedRowFile(names, s.vhosts, existing, n);
    assert ManageRun(s, certsDir, listing, Some(n), true) == Purged(s, certsDir, listing[n - 1].domain);
  }

  /** With the extension-stripping rule, every listed row comes from a directory entry named after its domain. */
  lemma ListedRowFile(names: seq<string>, vhosts: map<string, string>, existing: set<string>, n: int)
    requires forall k :: 0 <= k < |names| ==> names[k] in vhosts
    requires 1 <= n <= |ListedProjects(names, vhosts, existing, StripExtension)|
    ensures FileName(ListedProjects(names, vhosts, existing, StripExtension)[n - 1].domain) in names
  {
    var p := ListedProjects(names, vhosts, existing, StripExtension)[n - 1];
    ListedProjectsFilter(names, vhosts, existing, StripExtension, p);
    var k :| 0 <= k < |names| && IsProjectFile(names[k])
             && p == ProjectOf(DomainOfEntry(names[k], StripExtension), vhosts[names[k]], existing);
    assert p.domain == DomainOfEntry(names[k], StripExtension);
  }

  /**
   * As written, the listing of a directory that holds only the file of the
   * project folder `app.config` shows the domain `appig.test`, and removing
   * that row leaves every vhost file in place.
   */
  lemma AsWrittenRemovalKeepsFile(s: Snapshot, certsDir: string, existing: set<string>)
    requires s.vhosts.Keys == {FileName(DomainFor("app.config"))}
    ensures var names := [FileName(DomainFor("app.config"))];
      var listing := ListedProjects(names, s.vhosts, existing, ReplaceAll);
      && ListsDirectory(names, s.vhosts)
      && |listing| == 1 && listing[0].domain == "appig.test"
      && ManageRun(s, certsDir, listing, Some(1), true).vhosts == s.vhosts
  {
    var name := FileName(DomainFor("app.config"));
    var names := [name];
    assert IsProjectFile(name) by {
      assert name == "app.config" + ".test" + ".conf";
      ContainsMiddle("app.config", ".test", ".conf");
    }
    assert names[1..] == [];
    var listing := ListedProjects(names, s.vhosts, existing, ReplaceAll);
    assert listing == [ProjectOf(DomainOfFileAsWritten(name), s.vhosts[name], existing)];
    DomainOfFileAsWrittenMangles();
    assert s.vhosts - {FileName("appig.test")} == s.vhosts;
  }

  /** `manage_projects()`: list, pick a row, confirm, remove. */
  method ManageProjects(m: Machine, vhostDirExists: bool, names: seq<string>, existing: set<string>,
                        selection: Option<int>, confirmed: bool)
    requires m.Valid()
    requires ListsDirectory(names, m.vhosts)
    modifies m
    ensures m.Valid()
    ensures m.State() == ManageRun(old(m.State()), m.certsDir,
                                   if vhostDirExists then ListedProjects(names, old(m.vhosts), existing, ReplaceAll) else [],
                                   selection, confirmed)
  {
    var projects := GetExistingProjects(vhostDirExists, names, m.vhosts, existing);
    if projects == [] || selection.None? {
      return;
    }
    var index := selection.value - 1;
    if 0 <= index < |projects| && confirmed {
      RemoveProject(m, projects[index].domain);
    }
  }
}
