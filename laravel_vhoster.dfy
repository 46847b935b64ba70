/**
 * The file-changing steps of laravel_vhoster.py: the `register` and
 * `remove` commands. Unlike phpvhost.py this script checks its
 * prerequisites before the project path, exits when mkcert or its CA
 * cannot be installed, and looks for a loaded mod_ssl in httpd.conf.
 */
module LaravelVHoster {
  import opened Options
  import opened Text
  import opened Lines
  import opened HostsFile
  import opened HttpdConf
  import opened Certificates
  import opened VhostFile
  import opened SystemFiles
  import opened Installers
  import PhpVHost

  // ---------------------------------------------------------------------
  // check_and_enable_mod_ssl

  /** A line that loads mod_ssl: it names the directive and is not commented out. */
  predicate LoadsSslModule(line: string) {
    Contains(line, "LoadModule ssl_module") && !StartsWith(Strip(line), "#")
  }

  predicate SslModuleLoaded(lines: seq<string>) {
    exists k | 0 <= k < |lines| :: LoadsSslModule(lines[k])
  }

  /**
   * Indentation does not matter: behind any run of whitespace, a line
   * naming the directive loads the module exactly when it does not start
   * with '#'.
   */
  lemma LoadsSslModuleIndented(indent: string, rest: string)
    requires forall i | 0 <= i < |indent| :: IsSpace(indent[i])
    requires Contains(rest, "LoadModule ssl_module") && !IsSpace(rest[0])
    ensures LoadsSslModule(indent + rest) <==> rest[0] != '#'
  {
    assert Contains(indent + rest, "LoadModule ssl_module") by {
      ContainsInPart(indent, rest, "", "LoadModule ssl_module");
      assert indent + rest + "" == indent + rest;
    }
    var stripped := Strip(indent + rest);
    assert stripped != "" && stripped[0] == rest[0] by {
      StripIndentFirst(indent, rest);
    }
    assert StartsWith(stripped, "#") <==> stripped[0] == '#' by {
      assert stripped[..1] == [stripped[0]];
    }
  }

  /** The `for line in f` scan with its flag and `break`. */
  method ScanModSsl(lines: seq<string>) returns (enabled: bool)
    ensures enabled <==> SslModuleLoaded(lines)
  {
    enabled := false;
    var i := 0;
    while i < |lines|
      invariant 0 <= i <= |lines|
      invariant !enabled
      invariant forall k | 0 <= k < i :: !LoadsSslModule(lines[k])
    {
      var line := lines[i];
      if Contains(line, "LoadModule ssl_module") && !StartsWith(Strip(line), "#") {
        enabled := true;
        break;
      }
      i := i + 1;
    }
  }

  /** `EnableFailed` is the uncaught error of a failing `a2enmod`, which ends the script. */
  datatype ModSslOutcome = AlreadyEnabled | Enabled | EnableFailed | ManualNeeded

  /** What `check_and_enable_mod_ssl` does, given whether a2enmod exists and succeeds. */
  function ModSslStep(loaded: bool, a2enmodPresent: bool, a2enmodOk: bool): (r: ModSslOutcome)
    ensures r == AlreadyEnabled <==> loaded
    ensures r == Enabled || r == EnableFailed <==> !loaded && a2enmodPresent
    ensures r == EnableFailed <==> !loaded && a2enmodPresent && !a2enmodOk
  {
    if loaded then AlreadyEnabled
    else if a2enmodPresent then (if a2enmodOk then Enabled else EnableFailed)
    else ManualNeeded
  }

  /** `check_and_enable_mod_ssl()` on the lines of httpd.conf. */
  method CheckAndEnableModSsl(httpdConf: seq<string>, a2enmodPresent: bool, a2enmodOk: bool) returns (r: ModSslOutcome)
    ensures r == ModSslStep(SslModuleLoaded(httpdConf), a2enmodPresent, a2enmodOk)
  {
    var enabled := ScanModSsl(httpdConf);
    if enabled {
      r := AlreadyEnabled;
    } else if a2enmodPresent {
      r := if a2enmodOk then Enabled else EnableFailed;
    } else {
      r := ManualNeeded;
    }
  }

  // ---------------------------------------------------------------------
  // install_mkcert

  /** `Exit` is the `sys.exit(1)` of the source. */
  datatype InstallOutcome = AlreadyInstalled | Installed(via: Installer) | Exit

  /**
   * `install_mkcert()`: nothing to do when mkcert is on the PATH; otherwise
   * the first available manager installs it, and the script exits when
   * there is none or the install fails.
   */
  function InstallMkcert(mkcertPresent: bool, av: Available, installOk: bool): (r: InstallOutcome)
    ensures r == AlreadyInstalled <==> mkcertPresent
    ensures r.Installed? ==> installOk && ChooseInstaller(av) == Some(r.via)
    ensures r == Exit <==> !mkcertPresent && (ChooseInstaller(av).None? || !installOk)
  {
    if mkcertPresent then AlreadyInstalled
    else
      match ChooseInstaller(av)
      case None => Exit
      case Some(i) => if installOk then Installed(i) else Exit
  }

  // ---------------------------------------------------------------------
  // register_interactive / remove_interactive

  /** What the system answers during `register_interactive`. */
  datatype Oracle = Oracle(mkcertPresent: bool, available: Available, installOk: bool, caOk: bool,
                           a2enmodPresent: bool, a2enmodOk: bool, pathExists: bool,
                           mkcertOk: bool, debris: set<string>)

  datatype RegisterOutcome = Exited | Crashed | PathMissing | CertFailed | Registered

  /**
   * `register_interactive` once the project name and entry path are given:
   * include directive, mkcert, its CA, mod_ssl, and only then the path
   * check, followed by the shared provisioning.
   */
  function RegisterRun(s: Snapshot, certsDir: string, projectName: string, publicPath: string, o: Oracle): (r: Run<RegisterOutcome>)
    ensures r.after.httpdConf == IncludeEnsured(s.httpdConf)
    ensures r.outcome == Exited <==> InstallMkcert(o.mkcertPresent, o.available, o.installOk) == Exit || !o.caOk
    ensures r.outcome == Crashed
            <==> InstallMkcert(o.mkcertPresent, o.available, o.installOk) != Exit && o.caOk
                 && ModSslStep(SslModuleLoaded(IncludeEnsured(s.httpdConf)), o.a2enmodPresent, o.a2enmodOk) == EnableFailed
    ensures r.outcome == PathMissing
            <==> InstallMkcert(o.mkcertPresent, o.available, o.installOk) != Exit && o.caOk
                 && ModSslStep(SslModuleLoaded(IncludeEnsured(s.httpdConf)), o.a2enmodPresent, o.a2enmodOk) != EnableFailed
                 && !o.pathExists
    ensures r.outcome == CertFailed
            <==> InstallMkcert(o.mkcertPresent, o.available, o.installOk) != Exit && o.caOk
                 && ModSslStep(SslModuleLoaded(IncludeEnsured(s.httpdConf)), o.a2enmodPresent, o.a2enmodOk) != EnableFailed
                 && o.pathExists && !(PairFiles(certsDir, DomainFor(projectName)) <= s.certs) && !o.mkcertOk
    ensures r.outcome == Exited || r.outcome == Crashed || r.outcome == PathMissing
            ==> r.after == s.(httpdConf := IncludeEnsured(s.httpdConf))
    ensures !o.pathExists ==> r.after == s.(httpdConf := IncludeEnsured(s.httpdConf))
    ensures r.outcome == CertFailed ==> r.after.hosts == s.hosts && r.after.vhosts == s.vhosts
  {
    var s1 := s.(httpdConf := IncludeEnsured(s.httpdConf));
    if InstallMkcert(o.mkcertPresent, o.available, o.installOk) == Exit then Run(Exited, s1)
    else if !o.caOk then Run(Exited, s1)
    else if ModSslStep(SslModuleLoaded(s1.httpdConf), o.a2enmodPresent, o.a2enmodOk) == EnableFailed then Run(Crashed, s1)
    else if !o.pathExists then Run(PathMissing, s1)
    else
      var p := Provisioned(s1, certsDir, DomainFor(projectName), publicPath, o.mkcertOk, o.debris);
      Run(if p.outcome then Registered else CertFailed, p.after)
  }

  /** `register_interactive(config)` from the prerequisites on. */
  method RegisterInteractive(m: Machine, projectName: string, publicPath: string, o: Oracle) returns (outcome: RegisterOutcome)
    requires m.Valid()
    modifies m
    ensures m.Valid()
    ensures Run(outcome, m.State()) == RegisterRun(old(m.State()), m.certsDir, projectName, publicPath, o)
  {
    m.EnsureIncludeInHttpd();
    var install := InstallMkcert(o.mkcertPresent, o.available, o.installOk);
    if install == Exit {
      return Exited;
    }
    if !o.caOk {
      return Exited;
    }
    var modSsl := CheckAndEnableModSsl(m.httpdConf, o.a2enmodPresent, o.a2enmodOk);
    if modSsl == EnableFailed {
      return Crashed;
    }
    var domain := DomainFor(projectName);
    if !o.pathExists {
      return PathMissing;
    }
    var ok := m.Provision(domain, publicPath, o.mkcertOk, o.debris);
    // restart_apache: a failing restart is only reported
    outcome := if ok then Registered else CertFailed;
  }

  /** A registration succeeds only through the shared provisioning, on the conf with the directive ensured. */
  lemma RegisteredProvisioned(s: Snapshot, certsDir: string, projectName: string, publicPath: string, o: Oracle)
    requires RegisterRun(s, certsDir, projectName, publicPath, o).outcome == Registered
    ensures Provisioned(s.(httpdConf := IncludeEnsured(s.httpdConf)), certsDir, DomainFor(projectName), publicPath,
                        o.mkcertOk, o.debris)
            == Run(true, RegisterRun(s, certsDir, projectName, publicPath, o).after)
  {
  }

  /**
   * A registered project has its include directive, its vhost file, a
   * hosts line and both certificate files.
   */
  lemma RegisterEstablishes(s: Snapshot, certsDir: string, projectName: string, publicPath: string, o: Oracle)
    requires Tidy(s) && '\n' !in projectName
    requires RegisterRun(s, certsDir, projectName, publicPath, o).outcome == Registered
    ensures var t := RegisterRun(s, certsDir, projectName, publicPath, o).after;
      var d := DomainFor(projectName);
      && Tidy(t)
      && AnyLineContains(t.httpdConf, IncludeMarker)
      && t.vhosts == s.vhosts[FileName(d) := Render(d, publicPath, CertPath(certsDir, d), KeyPath(certsDir, d))]
      && AnyLineContains(t.hosts, d)
      && PairFiles(certsDir, d) <= t.certs
  {
    RegisteredProvisioned(s, certsDir, projectName, publicPath, o);
    IncludedProvisionedEstablishes(s, certsDir, DomainFor(projectName), publicPath, o.mkcertOk, o.debris);
  }

  /**
   * Registering a project again, whatever the system answers the second
   * time, changes nothing, and the second run cannot fail for want of a
   * certificate.
   */
  lemma RegisterIdempotent(s: Snapshot, certsDir: string, projectName: string, publicPath: string,
                           o: Oracle, o2: Oracle)
    requires Tidy(s) && '\n' !in projectName
    requires RegisterRun(s, certsDir, projectName, publicPath, o).outcome == Registered
    ensures var t := RegisterRun(s, certsDir, projectName, publicPath, o).after;
      && RegisterRun(t, certsDir, projectName, publicPath, o2).after == t
      && RegisterRun(t, certsDir, projectName, publicPath, o2).outcome != CertFailed
  {
    RegisteredProvisioned(s, certsDir, projectName, publicPath, o);
    IncludedProvisionedIdempotent(s, certsDir, DomainFor(projectName), publicPath, o.mkcertOk, o.debris, o2.mkcertOk, o2.debris);
  }

  /**
   * The two scripts order the path check differently: for a path that does
   * not exist phpvhost.py changes no file, while this script changes
   * httpd.conf alone, appending the include directive when it lacked it.
   */
  lemma PathCheckAfterPrerequisites(s: Snapshot, certsDir: string, projectName: string, path: string,
                                    o: Oracle, po: PhpVHost.Oracle)
    requires !o.pathExists && !po.pathExists
    ensures PhpVHost.RegisterRun(s, certsDir, projectName, path, po) == Run(PhpVHost.PathNotFound, s)
    ensures RegisterRun(s, certsDir, projectName, path, o).outcome != Registered
    ensures RegisterRun(s, certsDir, projectName, path, o).after == s.(httpdConf := IncludeEnsured(s.httpdConf))
    ensures !AnyLineContains(s.httpdConf, IncludeMarker)
            ==> RegisterRun(s, certsDir, projectName, path, o).after.httpdConf != s.httpdConf
  {
    if !AnyLineContains(s.httpdConf, IncludeMarker) {
      var conf := IncludeEnsured(s.httpdConf);
      assert |Join(conf)| != |Join(s.httpdConf)|;
    }
  }

  /** `remove_interactive(config)`: a declined confirmation changes nothing. */
  function RemoveRun(s: Snapshot, certsDir: string, projectName: string, confirmed: bool): (r: Snapshot)
    ensures !confirmed ==> r == s
    ensures confirmed ==> !Mentions(r, certsDir, DomainFor(projectName))
    ensures r.httpdConf == s.httpdConf
  {
    if confirmed then Purged(s, certsDir, DomainFor(projectName)) else s
  }

  method RemoveInteractive(m: Machine, projectName: string, confirmed: bool)
    requires m.Valid()
    modifies m
    ensures m.Valid()
    ensures m.State() == RemoveRun(old(m.State()), m.certsDir, projectName, confirmed)
  {
    var domain := DomainFor(projectName);
    if !confirmed {
      return;
    }
    m.Purge(domain);
    // restart_apache: a failing restart is only reported
  }

  /** Removing a project a second time, confirmed or not, changes nothing more. */
  lemma RemoveIdempotent(s: Snapshot, certsDir: string, projectName: string, confirmed2: bool)
    ensures var t := RemoveRun(s, certsDir, projectName, true);
      RemoveRun(t, certsDir, projectName, confirmed2) == t
  {
    PurgedIdempotent(s, certsDir, DomainFor(projectName));
  }

  /**
   * Registering a project nothing referred to and then removing it leaves
   * the vhost and certificate directories as they were; httpd.conf keeps
   * the include directive and the hosts file one extra '\n'.
   */
  lemma RegisterThenRemove(s: Snapshot, certsDir: string, projectName: string, publicPath: string, o: Oracle)
    requires Tidy(s) && '\n' !in projectName
    requires !Mentions(s, certsDir, DomainFor(projectName))
    requires RegisterRun(s, certsDir, projectName, publicPath, o).outcome == Registered
    ensures RemoveRun(RegisterRun(s, certsDir, projectName, publicPath, o).after, certsDir, projectName, true)
            == Snapshot(LeftAfterRoundTrip(s.hosts), IncludeEnsured(s.httpdConf), s.vhosts, s.certs)
  {
    var s1 := s.(httpdConf := IncludeEnsured(s.httpdConf));
    RegisteredProvisioned(s, certsDir, projectName, publicPath, o);
    ProvisionedThenPurged(s1, certsDir, DomainFor(projectName), publicPath, o.mkcertOk, o.debris);
  }
}
