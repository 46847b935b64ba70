/**
 * How `install_mkcert` picks a package manager when mkcert is missing:
 * the first of brew, pacman and apt that `shutil.which` finds
 * (laravel_vhoster.py:56-64, phpvhost.py:438-443).
 */
module Installers {
  import opened Options

  datatype Installer = Brew | Pacman | Apt

  /** Which package managers are on the PATH. */
  datatype Available = Available(brew: bool, pacman: bool, apt: bool)

  predicate Has(av: Available, i: Installer) {
    match i
    case Brew => av.brew
    case Pacman => av.pacman
    case Apt => av.apt
  }

  /** Position in the order the source tries the managers. */
  function Rank(i: Installer): nat {
    match i
    case Brew => 0
    case Pacman => 1
    case Apt => 2
  }

  /** The manager used: the first available one in brew, pacman, apt order. */
  function ChooseInstaller(av: Available): (r: Option<Installer>)
    ensures r.Some? ==> Has(av, r.value)
    ensures r.Some? ==> forall i: Installer :: Rank(i) < Rank(r.value) ==> !Has(av, i)
    ensures r.None? <==> forall i: Installer :: !Has(av, i)
  {
    assert Has(av, Brew) == av.brew && Has(av, Pacman) == av.pacman && Has(av, Apt) == av.apt;
    if av.brew then Some(Brew)
    else if av.pacman then Some(Pacman)
    else if av.apt then Some(Apt)
    else None
  }
}
