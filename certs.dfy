/**
 * The certificate directory: one `<domain>.pem` / `<domain>-key.pem` pair
 * per domain, produced by the external mkcert tool
 * (phpvhost.py:460-472 and 508-515, laravel_vhoster.py:96-111 and 151-164).
 * The directory is a set of file paths; mkcert is an oracle.
 */
module Certificates {
  import opened Options

  datatype CertPair = CertPair(cert: string, key: string)

  function CertPath(dir: string, domain: string): string {
    dir + "/" + domain + ".pem"
  }

  function KeyPath(dir: string, domain: string): string {
    dir + "/" + domain + "-key.pem"
  }

  function PairFor(dir: string, domain: string): CertPair {
    CertPair(CertPath(dir, domain), KeyPath(dir, domain))
  }

  /** The two files of a domain, as a set. */
  function PairFiles(dir: string, domain: string): (files: set<string>)
    ensures |files| == 2
  {
    assert |CertPath(dir, domain)| != |KeyPath(dir, domain)|;
    {CertPath(dir, domain), KeyPath(dir, domain)}
  }

  /** What `generate_ssl_cert` returns, and the directory afterwards. */
  datatype Generation = Generation(pair: Option<CertPair>, files: set<string>)

  /**
   * `generate_ssl_cert(domain)`: an existing pair is returned as it is;
   * otherwise mkcert writes both files, or fails, returning `(None, None)`
   * and possibly leaving some of the files it had begun (`debris`, an
   * oracle) behind.
   */
  function Generate(files: set<string>, dir: string, domain: string, mkcertOk: bool, debris: set<string>): (g: Generation)
    ensures g.pair.Some? ==> g.pair.value == PairFor(dir, domain) && PairFiles(dir, domain) <= g.files
    ensures g.pair.None? <==> !(PairFiles(dir, domain) <= files) && !mkcertOk
    ensures PairFiles(dir, domain) <= files ==> g.files == files
    ensures files <= g.files && g.files - PairFiles(dir, domain) == files - PairFiles(dir, domain)
  {
    var pair := PairFor(dir, domain);
    if pair.cert in files && pair.key in files then Generation(Some(pair), files)
    else if mkcertOk then Generation(Some(pair), files + {pair.cert, pair.key})
    else Generation(None, files + (debris * {pair.cert, pair.key}))
  }

  /** The directory after `delete_ssl_cert(domain)`. */
  function Deleted(files: set<string>, dir: string, domain: string): (r: set<string>)
    ensures CertPath(dir, domain) !in r && KeyPath(dir, domain) !in r
    ensures forall f :: f in files && f !in PairFiles(dir, domain) ==> f in r
    ensures r <= files
  {
    files - {CertPath(dir, domain), KeyPath(dir, domain)}
  }
}
