/**
 * The kernel probe: the package name derived from the running kernel's
 * release string, the package-manager probe, the headers-package check with
 * its install hint, and the installed-kernel listing of the report summary
 * and of the interactive check.  The output of `uname -r`, the entries of
 * /lib/modules, the outcome of each `which` run and the package query are
 * inputs.
 */
module KernelCheck {
  import opened Wrappers
  import opened Text
  import opened StringOrder

  datatype PackageManager = Pacman | Apt | Dnf | Apk | Zypper | Emerge

  /** The executable name handed to `which`. */
  function Executable(pm: PackageManager): string {
    match pm
    case Pacman => "pacman"
    case Apt => "apt"
    case Dnf => "dnf"
    case Apk => "apk"
    case Zypper => "zypper"
    case Emerge => "emerge"
  }

  /** The order in which the package managers are probed. */
  const ProbeOrder: seq<PackageManager> := [Pacman, Apt, Dnf, Apk, Zypper, Emerge]

  /**
   * `status().unwrap_or_default().success()` on a `which` run: `None` stands
   * for a `which` that could not be started, whose default exit status
   * counts as success; `Some(ok)` for one that ran and exited with success
   * exactly when `ok`.
   */
  predicate ProbeSucceeds(status: Option<bool>) {
    status.None? || status.value
  }

  /**
   * Whether the probe for `pm` succeeds: `which(name)` is the outcome of
   * running `which name`.
   */
  predicate Found(which: string -> Option<bool>, pm: PackageManager) {
    ProbeSucceeds(which(Executable(pm)))
  }

  /** The manager the probe settles on: the first in `ProbeOrder` whose probe succeeds. */
  function DetectedManager(which: string -> Option<bool>): (r: Option<PackageManager>)
    ensures r.None? <==> forall i :: 0 <= i < |ProbeOrder| ==> !Found(which, ProbeOrder[i])
    ensures r.Some? ==> Found(which, r.value)
  {
    match FirstIndex(ProbeOrder, (pm: PackageManager) => Found(which, pm))
    case None => None
    case Some(i) => Some(ProbeOrder[i])
  }

  /** The manager detected is the first of the probe order whose probe succeeds. */
  lemma DetectedFirstOnPath(which: string -> Option<bool>, i: nat)
    requires i < |ProbeOrder| && Found(which, ProbeOrder[i])
    requires forall j :: 0 <= j < i ==> !Found(which, ProbeOrder[j])
    ensures DetectedManager(which) == Some(ProbeOrder[i])
  {
    var found := FirstIndex(ProbeOrder, (pm: PackageManager) => Found(which, pm));
    assert found.Some? && found.value == i;
  }

  /**
   * A `which` that cannot be started counts as a successful probe, so the
   * first candidate, pacman, is reported whatever is installed.
   */
  lemma UnstartableWhichPicksPacman(which: string -> Option<bool>)
    requires which("pacman").None?
    ensures DetectedManager(which) == Some(Pacman)
  {
    assert Executable(ProbeOrder[0]) == "pacman";
    DetectedFirstOnPath(which, 0);
  }

  /**
   * `detect_package_manager`: runs `which` for each candidate in turn and
   * stops at the first whose probe succeeds.
   */
  method DetectPackageManager(which: string -> Option<bool>) returns (pm: Option<PackageManager>)
    ensures pm.None? <==> forall i :: 0 <= i < |ProbeOrder| ==> !Found(which, ProbeOrder[i])
    ensures pm.Some? ==> exists i :: 0 <= i < |ProbeOrder| && ProbeOrder[i] == pm.value
                                 && Found(which, ProbeOrder[i])
                                 && forall j :: 0 <= j < i ==> !Found(which, ProbeOrder[j])
    ensures pm == DetectedManager(which)
  {
    for i := 0 to |ProbeOrder|
      invariant forall j :: 0 <= j < i ==> !Found(which, ProbeOrder[j])
    {
      if ProbeSucceeds(which(Executable(ProbeOrder[i]))) {
        DetectedFirstOnPath(which, i);
        return Some(ProbeOrder[i]);
      }
    }
    return None;
  }

  /**
   * `kernel_package_name`: "linux-" followed by the release string from its
   * first letter on, or by the whole release string when it has no letter.
   */
  function KernelPackageName(release: string): (name: string)
    ensures StartsWith(name, "linux-")
    ensures (forall i :: 0 <= i < |release| ==> !IsAlphabetic(release[i])) ==> name == "linux-" + release
    ensures forall p :: 0 <= p < |release| && IsAlphabetic(release[p])
                        && (forall j :: 0 <= j < p ==> !IsAlphabetic(release[j]))
                        ==> name == "linux-" + release[p..]
  {
    match FirstIndex(release, IsAlphabetic)
    case Some(p) => "linux-" + release[p..]
    case None => "linux-" + release
  }

  /** The example the source documents: the distribution suffix starts at the first letter. */
  lemma KernelPackageNameExample(release: string)
    requires release == "6.15.2-2-cachyos-eevdf-lto"
    ensures KernelPackageName(release) == "linux-cachyos-eevdf-lto"
  {
    ExampleReleaseParts(release);
    ExamplePackageName(release[9..]);
    assert release == release[..9] + release[9..];
    KernelPackageNameOfSuffix(release[..9], release[9..]);
  }

  /*
   * The example is proved through the general `KernelPackageNameOfSuffix`:
   * the two lemmas below take the literals as parameters, which keeps the
   * verifier from evaluating the name function on the literal directly.
   */

  /** The example release: version numbers without a letter, then the suffix. */
  lemma ExampleReleaseParts(release: string)
    requires release == "6.15.2-2-cachyos-eevdf-lto"
    ensures forall j :: 0 <= j < 9 ==> !IsAlphabetic(release[j])
    ensures release[9..] == "cachyos-eevdf-lto"
  {
    var numbers := release[..9];
    forall j | 0 <= j < 9 ensures !IsAlphabetic(release[j]) {
      assert release[j] == numbers[j] && numbers[j] in numbers;
    }
  }

  lemma ExamplePackageName(suffix: string)
    requires suffix == "cachyos-eevdf-lto"
    ensures "linux-" + suffix == "linux-cachyos-eevdf-lto"
  {
  }

  /** A release made of a part without letters and a suffix starting with one gives "linux-" and the suffix. */
  lemma KernelPackageNameOfSuffix(numbers: string, suffix: string)
    requires forall j :: 0 <= j < |numbers| ==> !IsAlphabetic(numbers[j])
    requires suffix != [] && IsAlphabetic(suffix[0])
    ensures KernelPackageName(numbers + suffix) == "linux-" + suffix
  {
    var release := numbers + suffix;
    var p := |numbers|;
    assert release[p] == suffix[0];
    forall j | 0 <= j < p ensures !IsAlphabetic(release[j]) {
      assert release[j] == numbers[j];
    }
    assert release[p..] == suffix;
  }

  /** The headers package `run` looks for. */
  function HeadersPackageName(release: string): (name: string)
    ensures StartsWith(name, KernelPackageName(release)) && EndsWith(name, "-headers")
    ensures |name| == |KernelPackageName(release)| + |"-headers"|
  {
    KernelPackageName(release) + "-headers"
  }

  /** The arguments of the install command; only pacman and apt name the headers package. */
  function InstallArguments(pm: PackageManager, headers: string): (args: string)
    ensures pm == Pacman || pm == Apt ==> EndsWith(args, headers)
  {
    match pm
    case Pacman => "-S " + headers
    case Apt => "install " + headers
    case Dnf => "install kernel-headers"
    case Apk => "add linux-headers"
    case Zypper => "install kernel-devel"
    case Emerge => "--ask sys-kernel/linux-headers"
  }

  /**
   * The line `run` prints under "Try installing it with:" when the headers
   * package is missing: a `sudo` command of the manager itself, which names
   * the headers package for pacman and apt only.
   */
  function InstallHint(pm: PackageManager, headers: string): (hint: string)
    ensures StartsWith(hint, "    sudo " + Executable(pm) + " ")
    ensures pm == Pacman || pm == Apt ==> EndsWith(hint, headers)
  {
    var command := "    sudo " + Executable(pm) + " ";
    var args := InstallArguments(pm, headers);
    assert (command + args)[..|command|] == command;
    assert (pm == Pacman || pm == Apt) ==> (command + args)[|command + args| - |headers|..] == args[|args| - |headers|..];
    command + args
  }

  /**
   * Only the pacman and apt hints name the derived headers package: for those
   * two the hint ends with the package and tells packages apart, for the
   * other four it is fixed.
   */
  lemma InstallHintUsesPackageOnlyForPacmanApt(pm: PackageManager, a: string, b: string)
    ensures pm == Pacman || pm == Apt ==> EndsWith(InstallHint(pm, a), a)
    ensures pm == Pacman || pm == Apt ==> (InstallHint(pm, a) == InstallHint(pm, b) <==> a == b)
    ensures pm != Pacman && pm != Apt ==> InstallHint(pm, a) == InstallHint(pm, b)
  {
    if pm == Pacman || pm == Apt {
      var q := "    sudo " + Executable(pm) + " " + (if pm == Pacman then "-S " else "install ");
      HintOfPackage(pm, q, a);
      HintOfPackage(pm, q, b);
      PrefixCancels(q, a, b);
    }
  }

  /** The pacman and apt hints are a fixed command followed by the package. */
  lemma HintOfPackage(pm: PackageManager, q: string, h: string)
    requires pm == Pacman || pm == Apt
    requires q == "    sudo " + Executable(pm) + " " + (if pm == Pacman then "-S " else "install ")
    ensures InstallHint(pm, h) == q + h
  {
    var command := "    sudo " + Executable(pm) + " ";
    var verb := if pm == Pacman then "-S " else "install ";
    assert InstallArguments(pm, h) == verb + h;
    assert command + (verb + h) == command + verb + h;
  }

  /** Texts after a common prefix are equal exactly when the whole texts are. */
  lemma PrefixCancels(q: string, a: string, b: string)
    ensures q + a == q + b <==> a == b
  {
    if q + a == q + b {
      assert a == (q + a)[|q|..];
      assert b == (q + b)[|q|..];
    }
  }

  /** What `run` reports about the headers package. */
  datatype HeadersReport =
    | NoPackageManager
    | HeadersInstalled(package: string)
    | HeadersMissing(package: string, hint: string)

  /**
   * The headers check of `run`: without a package manager nothing is checked;
   * otherwise the derived headers package is looked up, and a missing one
   * comes with the manager's install hint.  `isInstalled(pm, name)` is the
   * package query.
   */
  function CheckHeaders(release: string, pm: Option<PackageManager>,
                        isInstalled: (PackageManager, string) -> bool): (r: HeadersReport)
    ensures r.NoPackageManager? <==> pm.None?
    ensures !r.NoPackageManager? ==> r.package == HeadersPackageName(release)
    ensures r.HeadersMissing? <==> pm.Some? && !isInstalled(pm.value, HeadersPackageName(release))
    ensures r.HeadersMissing? ==> r.hint == InstallHint(pm.value, r.package)
  {
    match pm
    case None => NoPackageManager
    case Some(m) =>
      var headers := HeadersPackageName(release);
      if isInstalled(m, headers) then HeadersInstalled(headers) else HeadersMissing(headers, InstallHint(m, headers))
  }

  /** An entry of /lib/modules whose file type could be read. */
  datatype DirEntry = DirEntry(name: string, isDir: bool)

  /** The names of the directory entries, in listing order. */
  function KernelDirs(entries: seq<DirEntry>): (names: seq<string>)
    ensures |names| <= |entries|
    ensures forall n :: n in names <==> DirEntry(n, true) in entries
    ensures (forall i, j :: 0 <= i < j < |entries| ==> entries[i].name != entries[j].name) ==>
              forall i, j :: 0 <= i < j < |names| ==> names[i] != names[j]
  {
    if entries == [] then []
    else
      var init, last := entries[..|entries| - 1], entries[|entries| - 1];
      assert entries == init + [last];
      KernelDirs(init) + if last.isDir then [last.name] else []
  }

  /** The loop both `run` and `get_summary` use to collect the kernel directories. */
  method CollectKernelDirs(entries: seq<DirEntry>) returns (names: seq<string>)
    ensures names == KernelDirs(entries)
  {
    names := [];
    for i := 0 to |entries|
      invariant names == KernelDirs(entries[..i])
    {
      KernelDirsSnoc(entries, i);
      if entries[i].isDir {
        names := names + [entries[i].name];
      }
    }
    assert entries[..|entries|] == entries;
  }

  /** One more entry adds its name exactly when it is a directory. */
  lemma KernelDirsSnoc(entries: seq<DirEntry>, i: nat)
    requires i < |entries|
    ensures KernelDirs(entries[..i + 1]) == KernelDirs(entries[..i]) + if entries[i].isDir then [entries[i].name] else []
  {
    assert entries[..i + 1][..i] == entries[..i];
  }

  /** One kernel line of the summary: the running kernel is starred and marked. */
  function SummaryLine(current: string, kernel: string): (line: string)
    ensures StartsWith(line, "  * ") <==> kernel == current
    ensures StartsWith(line, "  - ") <==> kernel != current
    ensures OccursAt(line, kernel, 4)
    ensures kernel == current ==> EndsWith(line, " (running)")
    ensures |line| == 4 + |kernel| + (if kernel == current then |" (running)"| else 0)
  {
    if kernel == current then
      "  * " + kernel + " (running)"
    else
      var line := "  - " + kernel;
      assert line[2] == '-';
      line
  }

  function SummaryHeader(current: string): seq<string> {
    ["Kernel: " + current, "Installed Kernels:"]
  }

  function SummaryLines(current: string, kernels: seq<string>): (lines: seq<string>)
    ensures |lines| == |kernels|
  {
    seq(|kernels|, i requires 0 <= i < |kernels| => SummaryLine(current, kernels[i]))
  }

  /** The summary text: the header lines, then one line per kernel in the given order. */
  function SummaryText(current: string, kernels: seq<string>): string {
    JoinLines(SummaryHeader(current) + SummaryLines(current, kernels))
  }

  /**
   * `kernel_check::get_summary`: the trimmed `uname -r` output, then the
   * kernel directories sorted, each on its own line.  An unreadable
   * /lib/modules lists no kernel.
   */
  method KernelSummary(unameOutput: string, modules: Option<seq<DirEntry>>) returns (summary: string)
    ensures summary == SummaryText(Trim(unameOutput),
                                   SortStrings(KernelDirs(if modules.Some? then modules.value else [])))
  {
    var current := Trim(unameOutput);
    var entries := if modules.Some? then modules.value else [];
    var installed := CollectKernelDirs(entries);
    installed := SortStrings(installed);
    summary := "Kernel: " + current + "\nInstalled Kernels:";
    SummaryTextEmpty(current, installed);
    for i := 0 to |installed|
      invariant summary == SummaryText(current, installed[..i])
    {
      SummaryTextSnoc(current, installed, i);
      summary := summary + "\n" + SummaryLine(current, installed[i]);
    }
    assert installed[..|installed|] == installed;
  }

  lemma SummaryTextEmpty(current: string, kernels: seq<string>)
    ensures SummaryText(current, kernels[..0]) == "Kernel: " + current + "\nInstalled Kernels:"
  {
    var header := SummaryHeader(current);
    assert header + SummaryLines(current, kernels[..0]) == header;
    assert header[1..] == ["Installed Kernels:"];
    assert JoinLines(header) == header[0] + "\n" + "Installed Kernels:";
    assert "\n" + "Installed Kernels:" == "\nInstalled Kernels:";
  }

  lemma SummaryTextSnoc(current: string, kernels: seq<string>, i: nat)
    requires i < |kernels|
    ensures SummaryText(current, kernels[..i + 1])
         == SummaryText(current, kernels[..i]) + "\n" + SummaryLine(current, kernels[i])
  {
    var head := SummaryHeader(current) + SummaryLines(current, kernels[..i]);
    assert SummaryHeader(current) + SummaryLines(current, kernels[..i + 1])
        == head + [SummaryLine(current, kernels[i])];
    JoinLinesSnoc(head, SummaryLine(current, kernels[i]));
  }

  /** Text without a line break in it, as release strings and directory names are. */
  predicate SingleLine(s: string) {
    '\n' !in s && '\r' !in s
  }

  /** A text without line breaks is a line `lines` gives back unchanged. */
  lemma SingleLinePlain(l: string)
    requires SingleLine(l)
    ensures PlainLine(l)
  {
    if |l| > 0 {
      assert l[|l| - 1..] == [l[|l| - 1]];
      assert l[|l| - 1] in l;
    }
  }

  /** A kernel line of the summary is a non-empty single line when the kernel's name is. */
  lemma SummaryLineSingle(current: string, kernel: string)
    requires SingleLine(kernel)
    ensures SingleLine(SummaryLine(current, kernel)) && SummaryLine(current, kernel) != []
  {
    if kernel == current {
      SingleLineConcat("  * ", kernel);
      SingleLineConcat("  * " + kernel, " (running)");
    } else {
      SingleLineConcat("  - ", kernel);
    }
  }

  /** Joining two texts without line breaks gives none. */
  lemma SingleLineConcat(a: string, b: string)
    requires SingleLine(a) && SingleLine(b)
    ensures SingleLine(a + b)
  {
    forall i | 0 <= i < |a + b| ensures (a + b)[i] != '\n' && (a + b)[i] != '\r' {
      if i < |a| {
        assert (a + b)[i] == a[i] && a[i] in a;
      } else {
        assert (a + b)[i] == b[i - |a|] && b[i - |a|] in b;
      }
    }
  }

  /** Both header lines of the summary are non-empty single lines when the release is. */
  lemma SummaryHeaderSingle(current: string)
    requires SingleLine(current)
    ensures forall i :: 0 <= i < 2 ==> SingleLine(SummaryHeader(current)[i]) && SummaryHeader(current)[i] != []
  {
    SingleLineConcat("Kernel: ", current);
  }

  /**
   * Read line by line, the summary is the two header lines followed by one
   * line per kernel, in the order given, each starred exactly when it is the
   * running kernel.
   */
  lemma SummaryTextLines(current: string, kernels: seq<string>)
    requires SingleLine(current)
    requires forall i :: 0 <= i < |kernels| ==> SingleLine(kernels[i])
    ensures Lines(SummaryText(current, kernels)) == SummaryHeader(current) + SummaryLines(current, kernels)
  {
    var ls := SummaryHeader(current) + SummaryLines(current, kernels);
    forall i | 0 <= i < |ls| ensures PlainLine(ls[i]) && ls[i] != [] {
      if i >= 2 {
        assert ls[i] == SummaryLine(current, kernels[i - 2]);
        SummaryLineSingle(current, kernels[i - 2]);
      } else {
        SummaryHeaderSingle(current);
      }
      SingleLinePlain(ls[i]);
    }
    LinesOfJoinLines(ls);
  }

  /** One kernel line of the interactive check: a check mark for the running kernel, a diamond otherwise. */
  function ConsoleLine(current: string, kernel: string): (line: string)
    ensures StartsWith(line, "  ✅ ") <==> kernel == current
    ensures StartsWith(line, "  🔸 ") <==> kernel != current
    ensures |line| == 4 + |kernel| && line[4..] == kernel
  {
    if kernel == current then
      "  ✅ " + kernel
    else
      var line := "  🔸 " + kernel;
      assert line[2] != '✅';
      line
  }

  /** The kernel lines `run` prints, one per kernel in the given order. */
  method ConsoleListing(current: string, kernels: seq<string>) returns (listing: seq<string>)
    ensures |listing| == |kernels|
    ensures forall i :: 0 <= i < |kernels| ==> listing[i] == ConsoleLine(current, kernels[i])
  {
    listing := [];
    for i := 0 to |kernels|
      invariant |listing| == i
      invariant forall j :: 0 <= j < i ==> listing[j] == ConsoleLine(current, kernels[j])
    {
      listing := listing + [ConsoleLine(current, kernels[i])];
    }
  }

  datatype RunReport =
    | ModulesUnreadable(current: string)
    | Checked(current: string, listing: seq<string>, headers: HeadersReport)

  /**
   * `kernel_check::run`: stops after the running kernel when /lib/modules
   * cannot be read; otherwise lists the kernel directories sorted, marking
   * the running one, then checks the headers package with the detected
   * package manager.
   */
  method Run(unameOutput: string, modules: Option<seq<DirEntry>>, which: string -> Option<bool>,
             isInstalled: (PackageManager, string) -> bool) returns (report: RunReport)
    ensures report.current == Trim(unameOutput)
    ensures report.ModulesUnreadable? <==> modules.None?
    ensures report.Checked? ==>
              var kernels := SortStrings(KernelDirs(modules.value));
              && |report.listing| == |kernels|
              && (forall i :: 0 <= i < |kernels| ==> report.listing[i] == ConsoleLine(report.current, kernels[i]))
              && report.headers == CheckHeaders(report.current, DetectedManager(which), isInstalled)
  {
    var current := Trim(unameOutput);
    if modules.None? {
      return ModulesUnreadable(current);
    }
    var installed := CollectKernelDirs(modules.value);
    installed := SortStrings(installed);
    var listing := ConsoleListing(current, installed);
    var pm := DetectPackageManager(which);
    report := Checked(current, listing, CheckHeaders(current, pm, isInstalled));
  }
}
