# phpvhost — a Dafny model of the virtual-host reconciliation

phpvhost ships two scripts, `phpvhost.py` (an interactive manager) and
`laravel_vhoster.py` (a `register` / `remove` command). Both register a
local PHP project under Apache as `<folder>.test` with a locally trusted
TLS certificate, and both remove it again. Registering touches four things:

- `httpd.conf` gets an `IncludeOptional conf/extra/*.conf` directive unless
  some line already mentions `IncludeOptional conf/extra/`;
- `~/.localhost-ssl` gets `<domain>.pem` and `<domain>-key.pem` from mkcert
  unless both already exist;
- `/etc/httpd/conf/extra/<domain>.conf` gets a fixed two-block template
  (HTTP on port 80, HTTPS on port 443);
- `/etc/hosts` gets `127.0.0.1    <domain>` unless some line already
  mentions the domain.

Removal deletes the vhost file if present, drops every hosts line that
mentions the domain, deletes each certificate file if present, and
restarts Apache. `phpvhost.py` also lists the registered projects by
reading the vhost directory back.

The model works as follows:

- Both line files are sequences of lines as `readlines()` returns them,
  with their '\n' kept (module `Lines`). An append is
  `SplitLines(Join(lines) + text)`.
- The vhost directory is a map from file name to content, and the
  certificate directory is a set of paths.
- The steps that change files are methods of the class
  `SystemFiles.Machine`. The pipelines are methods proved equal to pure
  specification functions (`RegisterRun`, `Purged`, `ManageRun`,
  `RemoveRun`). The lemmas are stated about those functions.
- Every subprocess result, every `os.path.exists` answer and every user
  answer is a parameter. What `os.listdir` returns is a sequence of
  names that lists every file of the vhost directory exactly once
  (`VhostFile.ListsDirectory`), in the order the listing follows.
- How a listed file name becomes a domain is a parameter of the listing
  (`VhostFile.DomainRule`). `ReplaceAll` is the source's
  `file.replace('.conf', '')`, which the pipelines use. `StripExtension`
  removes only the final extension; it is the corrected rule of
  "## Findings".
- Python's string operations are defined in module `Text`: `in`,
  `startswith`, `endswith`, `strip` with Python's whitespace set,
  `split(c)`, `split()` and `replace(p, '')`.

Modules:

- `Text` and `Lines`: Python string operations and the `readlines()`
  shape.
- `HostsFile`, `HttpdConf`, `Certificates` and `VhostFile`: the per-file
  edits and the vhost template with its listing parser.
- `Installers`: the package manager chosen for mkcert.
- `SystemFiles`: the state and its step methods, plus the provisioning
  and removal steps both scripts share.
- `PhpVHost` and `LaravelVHoster`: the two scripts' pipelines.

### Behaviour worth knowing

The model follows the code in each case.

- **Register, then remove, is not byte-identical.** The hosts append
  writes `"\n127.0.0.1    <domain>\n"`, and removal drops only the
  mapping line, so one '\n' stays behind. It either ends a last line that
  had no newline or remains as a blank line. httpd.conf also keeps the
  include directive. See `HostsFile.HostsAddThenRemove`,
  `PhpVHost.RegisterThenRemove` and `LaravelVHoster.RegisterThenRemove`.
- **"Exactly one hosts line per domain" is not kept.** Matching is by
  substring, so an existing line for `myapp.test` stops `app.test` from
  being added. Removing `app.test` also drops the `myapp.test` line.
  After a registration, the model proves that at least one line mentions
  the domain.
- **Certificate files do not always come in pairs.** A failing mkcert run
  may leave part of its output behind; this is the `debris` parameter.
  The files are not checked after a successful run.
- **laravel_vhoster.py runs its prerequisites before the path check.** A
  missing project path can therefore still have changed httpd.conf
  (`LaravelVHoster.PathCheckAfterPrerequisites`).

## Model

| member | source | states |
|---|---|---|
| Text.LStrip | laravel_vhoster.py:83 | the result is a suffix of the input, every dropped character is Python whitespace, and the result does not start with whitespace |
| Text.RStrip | phpvhost.py:501 | the result is a prefix of the input, every dropped character is Python whitespace, and the result does not end with whitespace |
| Text.Strip | laravel_vhoster.py:83 | the result is empty exactly when the input is all whitespace; otherwise it starts and ends with a non-space character |
| Text.StripFramed | phpvhost.py:475-501 | `strip()` of text framed by one '\n' on each side gives the text back when it starts and ends with a non-space |
| Text.SplitOn | phpvhost.py:404 | `split(c)` gives at least one part; there are two or more exactly when `c` occurs; no part holds `c` |
| Text.SplitJoin | phpvhost.py:404 | splitting a '\n'-join of separator-free parts gives the parts back |
| Text.SplitWhitespace | phpvhost.py:406 | `split()` tokens are non-empty and hold no whitespace; there are none exactly when the line is all whitespace |
| Text.SplitWhitespaceFirst | phpvhost.py:406 | leading whitespace, then a token, then a rest that is empty or starts with whitespace: `split()` gives that token followed by the tokens of the rest |
| Text.RemoveAll | phpvhost.py:394 | `replace(p, '')` never lengthens the text; it changes nothing when `p` does not occur; a text ending in `p` loses at least `len(p)` characters |
| Text.StripSuffix | phpvhost.py:394 | `replace('.conf', '')` on `stem + ".conf"` gives `stem` when the stem holds no ".conf" and cannot run into the suffix |
| Lines.SplitLines | phpvhost.py:518-519 | the lines `readlines()` returns join back to the file content, hold '\n' only at line ends, and only the last line may lack one |
| Lines.SplitJoinLines | phpvhost.py:518-519 | well-formed lines are read back exactly from their join |
| Lines.AppendNewlineThenLine | phpvhost.py:523-524 | appending "\n" + a complete line to a well-formed file keeps every earlier line; the '\n' ends the last line or forms a blank line, and the new line comes last |
| HostsFile.HostsAdded | phpvhost.py:521-524 | the new content is the old content plus `"\n127.0.0.1    <domain>\n"` when no line mentions the domain, and unchanged otherwise |
| HostsFile.EntryLineIsLine | phpvhost.py:524 | the mapping line is one complete line and mentions the domain |
| HostsFile.HostsAddedAppends | laravel_vhoster.py:170-176 | when no line mentions the domain, every earlier line is kept and one or two lines are added at the end |
| HostsFile.HostsAddedRegisters | phpvhost.py:521-524 | after adding, some line mentions the domain |
| HostsFile.HostsAddedIdempotent | laravel_vhoster.py:170-176 | adding twice equals adding once |
| HostsFile.HostsRemoved | phpvhost.py:525-528 | removal never adds lines; every kept line is an original line and none mentions the domain |
| HostsFile.HostsRemovedCounts | phpvhost.py:526 | every line that does not mention the domain keeps its multiplicity; lines that do mention it are all gone |
| HostsFile.HostsRemovedConcat | phpvhost.py:526 | the filter works line by line and keeps the original order |
| HostsFile.HostsRemovedClears | laravel_vhoster.py:177-181 | after removal, no line mentions the domain |
| HostsFile.HostsRemovedUnchanged | phpvhost.py:525-528 | removal changes nothing when no line mentions the domain |
| HostsFile.HostsRemovedIdempotent | laravel_vhoster.py:177-181 | a second removal changes nothing |
| HostsFile.HostsRemovedWellFormed | phpvhost.py:527-528 | the rewritten file keeps the `readlines()` shape |
| HostsFile.RoundTripTerminated | phpvhost.py:521-528 | add then remove on a file ending in '\n' leaves the file plus one blank line |
| HostsFile.RoundTripUnterminated | phpvhost.py:521-528 | add then remove on a file without a final '\n' leaves the file with its last line terminated |
| HostsFile.LeftAfterRoundTripJoin | phpvhost.py:524 | what the round trip leaves is the original content plus exactly one '\n' |
| HostsFile.HostsAddThenRemove | phpvhost.py:521-528 | adding a new domain and removing it leaves `LeftAfterRoundTrip` of the original lines, whose content is the original plus "\n" |
| HttpdConf.IncludeEnsured | phpvhost.py:425-431 | the content gains `"\nIncludeOptional conf/extra/*.conf\n"` exactly when no line mentions `IncludeOptional conf/extra/`, and the `readlines()` shape is kept |
| HttpdConf.IncludeLineShape | laravel_vhoster.py:39 | the directive is one complete line that mentions the marker |
| HttpdConf.IncludeEnsuredAppends | laravel_vhoster.py:38-45 | the directive is appended as a new last line only when absent, and earlier lines are kept |
| HttpdConf.IncludeEnsuredPresent | phpvhost.py:425-431 | afterwards some line mentions the marker |
| HttpdConf.IncludeEnsuredIdempotent | laravel_vhoster.py:38-45 | a second call is a no-op |
| Certificates.PairFiles | phpvhost.py:462-463 | `<domain>.pem` and `<domain>-key.pem` are two distinct files |
| Certificates.Generate | phpvhost.py:460-472 | an existing pair is returned with the directory untouched; otherwise a successful mkcert adds the pair; a failure returns None and at most adds debris of the pair; no other file changes |
| Certificates.Deleted | laravel_vhoster.py:151-162 | neither file of the domain remains, and every other file does |
| VhostFile.DomainFor | phpvhost.py:237 | the domain `<name>.test` holds no newline when the project name holds none |
| VhostFile.RenderIsJoin | phpvhost.py:475-501 | the written text is the 22 template lines joined by '\n', with no leading or trailing newline |
| VhostFile.TemplateShape | phpvhost.py:475-498 | there is one `*:80` block and one `*:443` block; both carry `DocumentRoot "<path>"`; only the 443 block has `SSLEngine on` and the certificate lines |
| VhostFile.TemplateLinesSingle | phpvhost.py:475-498 | no template line holds a newline when the inputs do not |
| VhostFile.RenderSplits | phpvhost.py:404 | splitting the rendered file on '\n' gives back the template lines |
| VhostFile.RootOfLine | phpvhost.py:405-406 | a line with '"' always yields a root, which holds no '"'; a line without '"' raises `IndexError` exactly when it has fewer than two tokens, and otherwise yields a non-empty token without whitespace |
| VhostFile.RootOfQuotedLine | phpvhost.py:405-406 | on a line with '"', the root is exactly the text between the first '"' and the next '"', or the end of the line when there is no second one |
| VhostFile.DocumentRootOf | phpvhost.py:403-407 | the scan finds nothing exactly when no line mentions `DocumentRoot` |
| VhostFile.ProjectOf | phpvhost.py:396-414 | the row keeps the given domain; the root is the one the scan found, and "Unknown" when it found none; SSL is on exactly when the scan did not raise and the content holds `SSLEngine on`; the status is Active exactly when the root exists |
| VhostFile.DocumentRootOfFirst | phpvhost.py:404-407 | the scan's result is decided by the first line mentioning `DocumentRoot`, or is NotFound |
| VhostFile.ScanDocumentRoot | phpvhost.py:404-407 | the loop with `break` returns what the first `DocumentRoot` line yields |
| VhostFile.TemplateRoot | phpvhost.py:404-406 | in a rendered file, the scan reads back the quoted document root |
| VhostFile.RenderHasSsl | phpvhost.py:408 | a rendered file contains `SSLEngine on` |
| VhostFile.DomainOfFile | phpvhost.py:393-394 | the domain is the file name without its `.conf` extension, so the file name is recovered from it |
| VhostFile.DomainOfFileAsWritten | phpvhost.py:394 | `replace('.conf', '')` on a name ending in `.conf` drops at least those five characters |
| VhostFile.DomainOfEntry | phpvhost.py:394 | under either rule a listed name loses at least its extension; under `StripExtension` the name is recovered from the domain |
| VhostFile.DomainOfFileAsWrittenAgrees | phpvhost.py:394 | `replace('.conf', '')` gives the right domain when the domain holds no ".conf" |
| VhostFile.DomainOfFileAsWrittenMangles | phpvhost.py:394 | for the folder `app.config`, `replace` gives `appig.test`, whose file name is not the listed file; stripping the suffix gives `app.config.test` |
| VhostFile.RenderThenList | phpvhost.py:392-414 | a file rendered for `<name>.test` is a project file and lists back as that domain, with the rendered document root and SSL on |
| VhostFile.ListedProjects | phpvhost.py:392-414 | the listing has at most one row per directory entry, and none exactly when no entry ends in `.conf` and mentions `.test` |
| VhostFile.ListingsAgree | phpvhost.py:394 | the `replace` listing and the `StripExtension` listing are equal when `replace` gives each project file's domain |
| VhostFile.ListedProjectsFilter | phpvhost.py:392-414 | a row is listed exactly when some directory entry ends in `.conf`, mentions `.test` and yields that row; other entries are skipped |
| VhostFile.RenderedIsListed | phpvhost.py:385-416 | when `names` lists the directory, a rendered vhost file in it shows up in the listing: always under `StripExtension`, and under `replace` when the domain holds no ".conf" |
| Installers.ChooseInstaller | laravel_vhoster.py:56-64 | the manager used is available and no earlier manager in brew, pacman, apt order is; None exactly when none is available |
| SystemFiles.Purged | phpvhost.py:325-338 | after removal, no vhost file, hosts line or certificate file for the domain remains; httpd.conf is untouched; every other vhost and certificate file is kept |
| SystemFiles.PurgedTidy | phpvhost.py:525-528 | removal keeps both line files in `readlines()` shape |
| SystemFiles.PurgedNothing | phpvhost.py:503-515 | removing a domain nothing refers to changes no file |
| SystemFiles.PurgedIdempotent | laravel_vhoster.py:230-232 | a second removal changes nothing |
| SystemFiles.Provisioned | phpvhost.py:256-268 | a pair is obtained exactly when both files existed or mkcert succeeds; without one, hosts and vhosts are untouched; httpd.conf is never touched; no foreign certificate file changes |
| SystemFiles.ProvisionedEstablishes | phpvhost.py:264-268 | after success, the vhost file holds the rendered template naming the pair, a hosts line mentions the domain and both certificate files exist |
| SystemFiles.ProvisionedSettled | phpvhost.py:256-268 | when the vhost file, a hosts line and both certificate files are already in place, provisioning reports success and changes nothing |
| SystemFiles.ProvisionedIdempotent | laravel_vhoster.py:212-217 | provisioning again changes nothing, whatever mkcert would do |
| SystemFiles.ProvisionedThenPurged | phpvhost.py:256-268 | provisioning a fresh domain and removing it restores everything but the extra hosts '\n' |
| SystemFiles.Machine.constructor | phpvhost.py:518-519 | the line fields are the `readlines()` of the given texts |
| SystemFiles.Machine.UpdateHosts | phpvhost.py:517-528 | the hosts lines become `HostsAdded` or `HostsRemoved` of the old ones; nothing else changes |
| SystemFiles.Machine.EnsureIncludeInHttpd | phpvhost.py:425-431 | httpd.conf becomes `IncludeEnsured` of the old lines; nothing else changes |
| SystemFiles.Machine.GenerateSslCert | phpvhost.py:460-472 | result and certificate directory are those of `Generate`; nothing else changes |
| SystemFiles.Machine.CreateVhostFile | phpvhost.py:474-501 | `<domain>.conf` is overwritten with the rendered template; nothing else changes |
| SystemFiles.Machine.DeleteVhost | phpvhost.py:503-506 | `<domain>.conf` is gone and every other vhost file is kept |
| SystemFiles.Machine.DeleteSslCert | laravel_vhoster.py:151-164 | both certificate files are gone; `deleted` is true exactly when at least one existed |
| SystemFiles.Machine.Provision | phpvhost.py:256-268 | the steps certificate, vhost file, hosts line, with an early return on certificate failure, perform `Provisioned` |
| SystemFiles.Machine.Purge | phpvhost.py:328-335 | the steps delete vhost, filter hosts, delete certificate files perform `Purged` |
| PhpVHost.RegisterRun | phpvhost.py:243-271 | a missing path or a declined confirmation changes nothing; the run registers exactly when the path exists, the user confirms and the certificate pair already exists or mkcert succeeds, and otherwise ends in a certificate failure; a certificate failure leaves hosts and vhosts untouched; any run past the confirmation has ensured the include directive |
| PhpVHost.RegisterEstablishes | phpvhost.py:243-271 | a registered project has the include directive, its rendered vhost file, a hosts line and both certificate files |
| PhpVHost.RegisterIdempotent | phpvhost.py:243-271 | registering the same project again changes nothing |
| PhpVHost.RegisterThenRemove | phpvhost.py:243-338 | register then remove restores the vhost and certificate directories; httpd.conf keeps the directive and hosts keeps one '\n' |
| PhpVHost.RegisterProject | phpvhost.py:243-271 | the step sequence performs `RegisterRun` |
| PhpVHost.RemoveProject | phpvhost.py:325-338 | the step sequence performs `Purged` |
| PhpVHost.ReadProject | phpvhost.py:394-414 | the row built for one project file is the `ProjectOf` row for the domain that `replace('.conf', '')` gives |
| PhpVHost.GetExistingProjects | phpvhost.py:385-416 | when `names` lists every file of the directory once, the loop returns the `replace` listing in directory order, or nothing when the directory is missing |
| PhpVHost.ManageRun | phpvhost.py:307-321 | files change only after a valid row number and a confirmation, and then nothing refers to the chosen domain any more |
| PhpVHost.ListedRowFile | phpvhost.py:392-394 | under `StripExtension`, every listed row comes from a directory entry named after the row's domain |
| PhpVHost.ManageRemovesChosenFile | phpvhost.py:392-394 | under `StripExtension`, removing a listed row deletes exactly the vhost file the row was read from and keeps every other |
| PhpVHost.AsWrittenRemovalKeepsFile | phpvhost.py:394 | in a directory holding only the file of the folder `app.config`, the `replace` listing has the one row `appig.test`, and removing it leaves the vhost directory unchanged |
| PhpVHost.ManageProjects | phpvhost.py:282-323 | when `names` lists the directory, listing with `replace`, selection, confirmation and removal perform `ManageRun` on that listing |
| LaravelVHoster.LoadsSslModuleIndented | laravel_vhoster.py:83 | behind any indentation, a line naming `LoadModule ssl_module` counts exactly when it does not start with '#' |
| LaravelVHoster.ScanModSsl | laravel_vhoster.py:79-85 | the flag-and-break scan is true exactly when some line loads mod_ssl |
| LaravelVHoster.ModSslStep | laravel_vhoster.py:87-94 | a2enmod runs exactly when mod_ssl is not loaded and a2enmod exists; its failure ends the script |
| LaravelVHoster.CheckAndEnableModSsl | laravel_vhoster.py:77-94 | the outcome is `ModSslStep` of the scan result |
| LaravelVHoster.InstallMkcert | laravel_vhoster.py:47-67 | nothing happens when mkcert is present; otherwise the first available manager is used, and the script exits when there is none or the install fails |
| LaravelVHoster.RegisterRun | laravel_vhoster.py:190-219 | the include directive is always ensured; the run exits exactly when mkcert cannot be installed or its CA fails, crashes exactly when those pass and a2enmod fails, and stops at the path check exactly when those pass and the path is missing, and ends in a certificate failure exactly when those pass, the path exists, the pair is absent and mkcert fails (so it registers in every other case past the path check); a missing path, an exit or a crash changes nothing but httpd.conf; a certificate failure leaves hosts and vhosts untouched |
| LaravelVHoster.RegisterInteractive | laravel_vhoster.py:196-218 | the step sequence performs `RegisterRun` |
| LaravelVHoster.RegisterEstablishes | laravel_vhoster.py:212-218 | a registered project has the include directive, its rendered vhost file, a hosts line and both certificate files |
| LaravelVHoster.RegisterIdempotent | laravel_vhoster.py:190-219 | registering the project again, whatever the system answers, leaves every file as the first registration left it and cannot end in a certificate failure |
| LaravelVHoster.PathCheckAfterPrerequisites | laravel_vhoster.py:196-210 | for a missing path, phpvhost.py changes no file, while this script changes httpd.conf alone, and does change it when the directive was absent |
| LaravelVHoster.RemoveRun | laravel_vhoster.py:221-234 | a declined confirmation changes nothing; otherwise nothing refers to the domain afterwards; httpd.conf is untouched |
| LaravelVHoster.RemoveIdempotent | laravel_vhoster.py:221-234 | after a confirmed removal, a second removal, confirmed or not, changes nothing |
| LaravelVHoster.RemoveInteractive | laravel_vhoster.py:221-234 | the step sequence performs `RemoveRun` |
| LaravelVHoster.RegisterThenRemove | laravel_vhoster.py:190-234 | register then remove restores the vhost and certificate directories; httpd.conf keeps the directive and hosts keeps one '\n' |

The shared steps are written once and serve both scripts. Their
laravel_vhoster.py copies are:

- `update_hosts`: laravel_vhoster.py:166-181
- `ensure_include_in_httpd`: laravel_vhoster.py:38-45
- `generate_ssl_cert`: laravel_vhoster.py:96-111
- `create_vhost_file`: laravel_vhoster.py:113-141
- `delete_vhost`: laravel_vhoster.py:143-149
- `delete_ssl_cert`: laravel_vhoster.py:151-164

## Left out

- Presentation, which has no effect on files: menus, prompts, coloured
  output, the fuzzy folder picker, `draw_box`, `show_loading`,
  `show_system_status`, and the automatic install of `rich`.
- Startup plumbing: the JSON configuration and base-path prompt, the
  root-privilege check and argument parsing. The project name and the
  joined project path are parameters.
- External programs: mkcert, brew, pacman, apt, `mkcert -install`,
  a2enmod and systemctl are success flags. What they do to the system is
  not modelled, beyond the certificate files mkcert writes.
- `restart_apache` touches no modelled file. A `CalledProcessError` is
  swallowed, as in the source. An error from a missing `sudo` is not
  modelled.
- In phpvhost.py, `install_mkcert`, `setup_mkcert_ca` and
  `check_and_enable_mod_ssl` swallow every failure and touch no modelled
  file. They are left out of `PhpVHost.RegisterRun`. Their package-manager
  order is the one `Installers.ChooseInstaller` states.
- I/O errors: the hosts file and httpd.conf are assumed readable and
  writable, and the vhost and certificate directories writable. A missing
  file raises an exception in the source, which phpvhost.py reports and
  laravel_vhoster.py does not catch. That path is not modelled.
- Directory creation (`mkdir(parents=True)`) is not modelled.
- In `get_existing_projects`, the only exception modelled is the
  `IndexError` of the DocumentRoot split. An unreadable vhost file is not.
- `check_and_enable_mod_ssl` in laravel_vhoster.py reads httpd.conf only
  if it exists. The model always reads it, since `ensure_include_in_httpd`
  has just read that same file.
- Newline translation: files are taken to use '\n' only. Python's
  universal-newline reading of "\r\n" and "\r" is not modelled.
- Paths: `os.path.join` and `Path /` are string concatenation with '/'.
  Files in the vhost directory are keyed by their bare name.
- `int(selection)` in `manage_projects` is an optional integer. An empty
  or non-numeric answer is None.
- Concurrent runs and lost updates to `/etc/hosts`.

## Findings

| source | as written | input that shows it | evidently intended | confidence | as-written member | corrected member |
|---|---|---|---|---|---|---|
| phpvhost.py:394 | the listed domain is `file.replace('.conf', '')`, which removes every ".conf" in the name | project folder `app.config`: its file `app.config.test.conf` is listed as `appig.test`. Removing that row targets `appig.test.conf`, so the real file, hosts line and certificates stay | remove only the trailing `.conf` extension | high; not executed | VhostFile.DomainOfFileAsWrittenMangles | PhpVHost.ManageRemovesChosenFile |
