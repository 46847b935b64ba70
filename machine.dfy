/**
 * The part of the file system both scripts reconcile: the hosts file and
 * httpd.conf as `readlines()` sees them, the vhost directory as a map from
 * file name to content, and the certificate directory as a set of paths.
 * The step functions of both scripts (phpvhost.py:425-534,
 * laravel_vhoster.py:38-188) are the methods of `Machine`; `Snapshot` is
 * the value their specifications speak about.
 */
module SystemFiles {
  import opened Options
  import opened Text
  import opened Lines
  import opened HostsFile
  import opened HttpdConf
  import opened Certificates
  import opened VhostFile

  datatype Snapshot = Snapshot(hosts: seq<string>, httpdConf: seq<string>,
                               vhosts: map<string, string>, certs: set<string>)

  /** What a pipeline reports, and the files it leaves behind. */
  datatype Run<O> = Run(outcome: O, after: Snapshot)

  /** Both line files have the shape `readlines()` gives. */
  predicate Tidy(s: Snapshot) {
    WellFormed(s.hosts) && WellFormed(s.httpdConf)
  }

  /** Whether anything in the files still refers to `domain`. */
  predicate Mentions(s: Snapshot, certsDir: string, domain: string) {
    || FileName(domain) in s.vhosts
    || AnyLineContains(s.hosts, domain)
    || CertPath(certsDir, domain) in s.certs
    || KeyPath(certsDir, domain) in s.certs
  }

  /**
   * The files after the removal steps for `domain`: delete its vhost file
   * if present, filter the hosts file, delete each certificate file if
   * present. httpd.conf is left alone.
   */
  function Purged(s: Snapshot, certsDir: string, domain: string): (r: Snapshot)
    ensures !Mentions(r, certsDir, domain)
    ensures r.httpdConf == s.httpdConf
    ensures r.vhosts.Keys == s.vhosts.Keys - {FileName(domain)}
    ensures forall f | f in r.vhosts :: r.vhosts[f] == s.vhosts[f]
    ensures r.certs == s.certs - PairFiles(certsDir, domain)
  {
    var r := Snapshot(HostsRemoved(s.hosts, domain), s.httpdConf,
                      s.vhosts - {FileName(domain)}, Deleted(s.certs, certsDir, domain));
    HostsRemovedClears(s.hosts, domain);
    r
  }

  /** Removal keeps both line files in `readlines()` shape. */
  lemma PurgedTidy(s: Snapshot, certsDir: string, domain: string)
    requires Tidy(s)
    ensures Tidy(Purged(s, certsDir, domain))
  {
    HostsRemovedWellFormed(s.hosts, domain);
  }

  /** On a domain nothing refers to, removal changes no file. */
  lemma PurgedNothing(s: Snapshot, certsDir: string, domain: string)
    requires !Mentions(s, certsDir, domain)
    ensures Purged(s, certsDir, domain) == s
  {
    HostsRemovedUnchanged(s.hosts, domain);
    assert s.vhosts - {FileName(domain)} == s.vhosts;
    assert Deleted(s.certs, certsDir, domain) == s.certs;
  }

  /** A second removal of the same domain changes nothing. */
  lemma PurgedIdempotent(s: Snapshot, certsDir: string, domain: string)
    ensures Purged(Purged(s, certsDir, domain), certsDir, domain) == Purged(s, certsDir, domain)
  {
    PurgedNothing(Purged(s, certsDir, domain), certsDir, domain);
  }

  /**
   * The registration steps both scripts share once their checks have
   * passed: obtain the certificate pair, write the vhost file, add the
   * hosts line. Without a pair the pipeline stops after the first step;
   * the outcome says whether a pair was obtained.
   */
  function Provisioned(s: Snapshot, certsDir: string, domain: string, root: string,
                       mkcertOk: bool, debris: set<string>): (r: Run<bool>)
    ensures r.outcome <==> PairFiles(certsDir, domain) <= s.certs || mkcertOk
    ensures r.after.httpdConf == s.httpdConf
    ensures !r.outcome ==> r.after.hosts == s.hosts && r.after.vhosts == s.vhosts
    ensures r.after.certs - PairFiles(certsDir, domain) == s.certs - PairFiles(certsDir, domain)
  {
    var g := Generate(s.certs, certsDir, domain, mkcertOk, debris);
    if g.pair.None? then Run(false, s.(certs := g.files))
    else
      var pair := g.pair.value;
      Run(true, Snapshot(HostsAdded(s.hosts, domain), s.httpdConf,
                         s.vhosts[FileName(domain) := Render(domain, root, pair.cert, pair.key)], g.files))
  }

  /**
   * After a successful run the domain is fully set up: its vhost file holds
   * the rendered template naming the pair, a hosts line mentions it and
   * both certificate files exist.
   */
  lemma ProvisionedEstablishes(s: Snapshot, certsDir: string, domain: string, root: string,
                               mkcertOk: bool, debris: set<string>)
    requires Tidy(s) && '\n' !in domain
    requires Provisioned(s, certsDir, domain, root, mkcertOk, debris).outcome
    ensures var t := Provisioned(s, certsDir, domain, root, mkcertOk, debris).after;
      && Tidy(t)
      && t.vhosts == s.vhosts[FileName(domain) := Render(domain, root, CertPath(certsDir, domain), KeyPath(certsDir, domain))]
      && AnyLineContains(t.hosts, domain)
      && PairFiles(certsDir, domain) <= t.certs
  {
    HostsAddedRegisters(s.hosts, domain);
  }

  /** Provisioning an already provisioned domain changes nothing, whatever mkcert would do. */
  lemma ProvisionedIdempotent(s: Snapshot, certsDir: string, domain: string, root: string,
                              mkcertOk: bool, debris: set<string>, mkcertOk2: bool, debris2: set<string>)
    requires Tidy(s) && '\n' !in domain
    requires Provisioned(s, certsDir, domain, root, mkcertOk, debris).outcome
    ensures var t := Provisioned(s, certsDir, domain, root, mkcertOk, debris).after;
      Provisioned(t, certsDir, domain, root, mkcertOk2, debris2) == Run(true, t)
  {
    var t := Provisioned(s, certsDir, domain, root, mkcertOk, debris).after;
    ProvisionedEstablishes(s, certsDir, domain, root, mkcertOk, debris);
    ProvisionedSettled(t, certsDir, domain, root, mkcertOk2, debris2);
  }

  /** On a domain whose vhost file, hosts line and pair are in place, provisioning changes nothing. */
  lemma ProvisionedSettled(t: Snapshot, certsDir: string, domain: string, root: string,
                           mkcertOk: bool, debris: set<string>)
    requires FileName(domain) in t.vhosts
    requires t.vhosts[FileName(domain)] == Render(domain, root, CertPath(certsDir, domain), KeyPath(certsDir, domain))
    requires AnyLineContains(t.hosts, domain)
    requires PairFiles(certsDir, domain) <= t.certs
    ensures Provisioned(t, certsDir, domain, root, mkcertOk, debris) == Run(true, t)
  {
    assert Generate(t.certs, certsDir, domain, mkcertOk, debris) == Generation(Some(PairFor(certsDir, domain)), t.certs);
    assert t.vhosts[FileName(domain) := Render(domain, root, CertPath(certsDir, domain), KeyPath(certsDir, domain))] == t.vhosts;
  }

  /**
   * After ensuring the include directive and a successful provisioning,
   * httpd.conf has the directive and the domain is fully set up.
   */
  lemma IncludedProvisionedEstablishes(s: Snapshot, certsDir: string, domain: string, root: string,
                                       mkcertOk: bool, debris: set<string>)
    requires Tidy(s) && '\n' !in domain
    requires Provisioned(s.(httpdConf := IncludeEnsured(s.httpdConf)), certsDir, domain, root, mkcertOk, debris).outcome
    ensures var t := Provisioned(s.(httpdConf := IncludeEnsured(s.httpdConf)), certsDir, domain, root, mkcertOk, debris).after;
      && Tidy(t)
      && AnyLineContains(t.httpdConf, IncludeMarker)
      && t.vhosts == s.vhosts[FileName(domain) := Render(domain, root, CertPath(certsDir, domain), KeyPath(certsDir, domain))]
      && AnyLineContains(t.hosts, domain)
      && PairFiles(certsDir, domain) <= t.certs
  {
    var s1 := s.(httpdConf := IncludeEnsured(s.httpdConf));
    IncludeEnsuredPresent(s.httpdConf);
    ProvisionedEstablishes(s1, certsDir, domain, root, mkcertOk, debris);
  }

  /**
   * Ensuring the include directive and provisioning, run again on the
   * result, change nothing.
   */
  lemma IncludedProvisionedIdempotent(s: Snapshot, certsDir: string, domain: string, root: string,
                                      mkcertOk: bool, debris: set<string>, mkcertOk2: bool, debris2: set<string>)
    requires Tidy(s) && '\n' !in domain
    requires Provisioned(s.(httpdConf := IncludeEnsured(s.httpdConf)), certsDir, domain, root, mkcertOk, debris).outcome
    ensures var t := Provisioned(s.(httpdConf := IncludeEnsured(s.httpdConf)), certsDir, domain, root, mkcertOk, debris).after;
      && t.(httpdConf := IncludeEnsured(t.httpdConf)) == t
      && Provisioned(t, certsDir, domain, root, mkcertOk2, debris2) == Run(true, t)
  {
    var s1 := s.(httpdConf := IncludeEnsured(s.httpdConf));
    IncludeEnsuredIdempotent(s.httpdConf);
    ProvisionedIdempotent(s1, certsDir, domain, root, mkcertOk, debris, mkcertOk2, debris2);
  }

  /**
   * Provisioning a domain nothing referred to and then removing it gives
   * every file back except the hosts file, which keeps the separator '\n'
   * that the added line brought with it.
   */
  lemma ProvisionedThenPurged(s: Snapshot, certsDir: string, domain: string, root: string,
                              mkcertOk: bool, debris: set<string>)
    requires Tidy(s) && domain != "" && '\n' !in domain
    requires !Mentions(s, certsDir, domain)
    requires Provisioned(s, certsDir, domain, root, mkcertOk, debris).outcome
    ensures Purged(Provisioned(s, certsDir, domain, root, mkcertOk, debris).after, certsDir, domain)
            == s.(hosts := LeftAfterRoundTrip(s.hosts))
  {
    var g := Generate(s.certs, certsDir, domain, mkcertOk, debris);
    var vhosts := s.vhosts[FileName(domain) := Render(domain, root, g.pair.value.cert, g.pair.value.key)];
    var t := Snapshot(HostsAdded(s.hosts, domain), s.httpdConf, vhosts, g.files);
    assert Provisioned(s, certsDir, domain, root, mkcertOk, debris).after == t;
    assert HostsRemoved(t.hosts, domain) == LeftAfterRoundTrip(s.hosts) by {
      HostsAddThenRemove(s.hosts, domain);
    }
    assert vhosts - {FileName(domain)} == s.vhosts;
    assert Deleted(g.files, certsDir, domain) == s.certs by {
      assert PairFiles(certsDir, domain) == {CertPath(certsDir, domain), KeyPath(certsDir, domain)};
      assert g.files - PairFiles(certsDir, domain) == s.certs - PairFiles(certsDir, domain);
    }
  }

  /**
   * The machine the scripts run on. Each method performs one step of the
   * source on the fields it names; subprocess results are parameters.
   */
  class Machine {
    var hosts: seq<string>
    var httpdConf: seq<string>
    var vhosts: map<string, string>
    var certs: set<string>
    /** `~/.localhost-ssl` */
    const certsDir: string

    ghost predicate Valid()
      reads this
    {
      Tidy(State())
    }

    function State(): Snapshot
      reads this
    {
      Snapshot(hosts, httpdConf, vhosts, certs)
    }

    /** A machine whose two line files hold the given texts. */
    constructor (hostsText: string, httpdText: string, vhostFiles: map<string, string>,
                 certFiles: set<string>, dir: string)
      ensures Valid()
      ensures Join(hosts) == hostsText && Join(httpdConf) == httpdText
      ensures vhosts == vhostFiles && certs == certFiles && certsDir == dir
    {
      hosts := SplitLines(hostsText);
      httpdConf := SplitLines(httpdText);
      vhosts := vhostFiles;
      certs := certFiles;
      certsDir := dir;
    }

    /** `update_hosts(domain, add)`: read the lines, then append or rewrite. */
    method UpdateHosts(domain: string, add: bool)
      requires Valid()
      modifies this
      ensures Valid()
      ensures hosts == if add then HostsAdded(old(hosts), domain) else HostsRemoved(old(hosts), domain)
      ensures httpdConf == old(httpdConf) && vhosts == old(vhosts) && certs == old(certs)
    {
      var lines := hosts;
      if add {
        if !AnyLineContains(lines, domain) {
          // the file is opened in append mode; the next read sees the new text
          hosts := SplitLines(Join(lines) + "\n" + EntryLine(domain));
        }
      } else {
        hosts := HostsRemoved(lines, domain);
        HostsRemovedWellFormed(lines, domain);
      }
    }

    /** `ensure_include_in_httpd()` */
    method EnsureIncludeInHttpd()
      requires Valid()
      modifies this
      ensures Valid()
      ensures httpdConf == IncludeEnsured(old(httpdConf))
      ensures hosts == old(hosts) && vhosts == old(vhosts) && certs == old(certs)
    {
      var contents := httpdConf;
      if !AnyLineContains(contents, IncludeMarker) {
        httpdConf := SplitLines(Join(contents) + "\n" + IncludeLine);
      }
    }

    /**
     * `generate_ssl_cert(domain)`; `mkcertOk` is whether the mkcert run
     * succeeds and `debris` what a failing run leaves behind.
     */
    method GenerateSslCert(domain: string, mkcertOk: bool, debris: set<string>) returns (pair: Option<CertPair>)
      requires Valid()
      modifies this
      ensures Valid()
      ensures pair == Generate(old(certs), certsDir, domain, mkcertOk, debris).pair
      ensures certs == Generate(old(certs), certsDir, domain, mkcertOk, debris).files
      ensures hosts == old(hosts) && httpdConf == old(httpdConf) && vhosts == old(vhosts)
    {
      var certPath := CertPath(certsDir, domain);
      var keyPath := KeyPath(certsDir, domain);
      if certPath in certs && keyPath in certs {
        return Some(CertPair(certPath, keyPath));
      }
      if mkcertOk {
        certs := certs + {certPath, keyPath};
        pair := Some(CertPair(certPath, keyPath));
      } else {
        certs := certs + debris * {certPath, keyPath};
        pair := None;
      }
    }

    /** `create_vhost_file(...)`: the file is written whole, replacing any old one. */
    method CreateVhostFile(domain: string, publicPath: string, sslCert: string, sslKey: string)
      requires Valid()
      modifies this
      ensures Valid()
      ensures vhosts == old(vhosts)[FileName(domain) := Render(domain, publicPath, sslCert, sslKey)]
      ensures hosts == old(hosts) && httpdConf == old(httpdConf) && certs == old(certs)
    {
      var config := Render(domain, publicPath, sslCert, sslKey);
      vhosts := vhosts[FileName(domain) := config];
    }

    /** `delete_vhost(domain)` */
    method DeleteVhost(domain: string)
      requires Valid()
      modifies this
      ensures Valid()
      ensures vhosts == old(vhosts) - {FileName(domain)}
      ensures hosts == old(hosts) && httpdConf == old(httpdConf) && certs == old(certs)
    {
      var path := FileName(domain);
      if path in vhosts {
        vhosts := vhosts - {path};
      }
    }

    /**
     * `delete_ssl_cert(domain)`: each file is unlinked if present, and
     * `deleted` records whether either was.
     */
    method DeleteSslCert(domain: string) returns (deleted: bool)
      requires Valid()
      modifies this
      ensures Valid()
      ensures certs == Deleted(old(certs), certsDir, domain)
      ensures deleted <==> CertPath(certsDir, domain) in old(certs) || KeyPath(certsDir, domain) in old(certs)
      ensures hosts == old(hosts) && httpdConf == old(httpdConf) && vhosts == old(vhosts)
    {
      var certPath := CertPath(certsDir, domain);
      var keyPath := KeyPath(certsDir, domain);
      deleted := false;
      if certPath in certs {
        certs := certs - {certPath};
        deleted := true;
      }
      if keyPath in certs {
        certs := certs - {keyPath};
        deleted := true;
      }
    }

    /** The registration steps both scripts share after their checks. */
    method Provision(domain: string, root: string, mkcertOk: bool, debris: set<string>) returns (ok: bool)
      requires Valid()
      modifies this
      ensures Valid()
      ensures Run(ok, State()) == Provisioned(old(State()), certsDir, domain, root, mkcertOk, debris)
    {
      var pair := GenerateSslCert(domain, mkcertOk, debris);
      if pair.None? {
        return false;
      }
      CreateVhostFile(domain, root, pair.value.cert, pair.value.key);
      UpdateHosts(domain, true);
      ok := true;
    }

    /** The removal steps both scripts share, up to the restart. */
    method Purge(domain: string)
      requires Valid()
      modifies this
      ensures Valid()
      ensures State() == Purged(old(State()), certsDir, domain)
    {
      DeleteVhost(domain);
      UpdateHosts(domain, false);
      var _ := DeleteSslCert(domain);
      PurgedTidy(old(State()), certsDir, domain);
    }
  }
}
