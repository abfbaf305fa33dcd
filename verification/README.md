# Nephyra probing helpers in Dafny

Nephyra is a local diagnostic assistant for Linux machines. This project
models the decision logic of three of its probing modules and proves
properties about it:

- **Kernel check** (`src/modules/kernel_check.rs`) does four things:
  - it picks the package manager, the first of pacman, apt, dnf, apk, zypper
    and emerge whose `which` probe succeeds;
  - it derives the kernel package name from `uname -r`: `linux-` followed by
    the release from its first letter on;
  - it checks the headers package and gives the manager's install hint when
    that package is missing;
  - it lists the directories of `/lib/modules` sorted, marking the running
    kernel, both in the report summary and in the interactive check.
- **Hardware info** (`src/modules/hardware_info.rs`) holds four parsers:
  - the `lscpu` scanner, where keys match at the start of a line, the last
    match wins and `"Unknown"` is the default;
  - the `/proc/meminfo` scanner, which fails as a whole on a malformed number;
  - the MiB/GiB unit choice;
  - the `lsblk` row slicer, which cuts each row at the column offsets found
    in the header.
- **Bootloader check** (`src/modules/bootloader_check.rs`) holds two parts:
  - detection, a fixed-priority first match over six configuration files;
  - the one-line summary of the result.

Everything the modules read from the machine becomes a parameter:

- the output of `uname -r`, `lscpu` and `lsblk`, as strings;
- the entries of `/lib/modules`, as `None` when the directory cannot be read;
- the outcome of each `which` run, as `None` when `which` could not be
  started and otherwise whether it exited successfully;
- the package query, as a predicate on a manager and a package name;
- the contents of `/proc/meminfo`, as `None` when the file cannot be read;
- the set of paths that exist.

The modules are organised as follows:

- `Text` models the parts of Rust's `str` the parsers use: `lines`, `trim`,
  `split_whitespace`, `find`, `contains` and `parse::<u64>`. It works over
  ASCII text, one character per byte.
- `StringOrder` models `String`'s ordering and `Vec::sort`. The sort is an
  insertion sort. It is proved sorted and a permutation of its input, and
  any two sorted permutations of the same strings are proved equal, so it
  agrees with any correct sort.
- The loops of the source are methods, each proved equal to a function that
  describes its result without the loop. That includes the package-manager
  probe, the directory collection, the summary builder, and the CPU,
  meminfo and storage scanners.

The code has no kernel recommendation engine, preference persistence or
kernel catalogue, so the model follows the code and has none either.

Three behaviours of the code are modelled as written and proved outright:

- The package-manager probe reads `which`'s exit status with
  `unwrap_or_default()`, and the default exit status counts as success. If
  `which` cannot be started at all, the first candidate, pacman, is
  reported whatever is installed (`UnstartableWhichPicksPacman`).
- If the `lsblk` header lacks SIZE, TYPE or MOUNTPOINT, that column's offset
  falls back to 0. This empties a field of every row, so no device is
  reported at all, instead of only the missing field degrading
  (`StorageNeedsAllColumns`).
- The summary hides an extra note containing "permission denied", but the
  only note detection produces, the U-Boot one, never contains it. The note
  is therefore always shown (`UBootNoteShown`).

## Model

| member | source | states |
|---|---|---|
| KernelCheck.DetectPackageManager | src/modules/kernel_check.rs:5-19 | the result is the first manager in the order pacman, apt, dnf, apk, zypper, emerge whose probe succeeds (a `which` that could not be started counts as success); it is None exactly when every probe fails; it equals the first-match function `DetectedManager` |
| KernelCheck.DetectedManager | src/modules/kernel_check.rs:5-19 | no manager is detected exactly when every probe fails; a detected manager's probe succeeded |
| KernelCheck.UnstartableWhichPicksPacman | src/modules/kernel_check.rs:8-14 | when `which pacman` cannot be started, the default exit status counts as success and pacman is detected |
| KernelCheck.DetectedFirstOnPath | src/modules/kernel_check.rs:5-19 | when a manager is on the path and none before it in the probe order is, that manager is the one detected |
| KernelCheck.KernelPackageName | src/modules/kernel_check.rs:24-32 | the name always starts with "linux-"; with a first letter at p it is "linux-" plus the release from p on; with no letter it is "linux-" plus the whole release |
| KernelCheck.KernelPackageNameOfSuffix | src/modules/kernel_check.rs:26-27 | a release made of a letter-free version part followed by a suffix starting with a letter gives "linux-" plus the suffix |
| KernelCheck.KernelPackageNameExample | src/modules/kernel_check.rs:22-23 | "6.15.2-2-cachyos-eevdf-lto" gives "linux-cachyos-eevdf-lto" |
| KernelCheck.HeadersPackageName | src/modules/kernel_check.rs:146 | the headers package is the kernel package name followed by "-headers" |
| KernelCheck.InstallArguments | src/modules/kernel_check.rs:156-161 | the pacman and apt install arguments end with the headers package |
| KernelCheck.InstallHint | src/modules/kernel_check.rs:155-161 | the printed hint is a `sudo` command of the detected manager itself, indented by four spaces; for pacman and apt it ends with the headers package |
| KernelCheck.InstallHintUsesPackageOnlyForPacmanApt | src/modules/kernel_check.rs:155-161 | the pacman and apt hints end with the headers package, and two hints for one of them are equal exactly when the packages are; the dnf, apk, zypper and emerge hints are the same whatever the package |
| KernelCheck.CheckHeaders | src/modules/kernel_check.rs:145-169 | without a package manager nothing is checked; otherwise the headers package is the derived one; it is reported missing exactly when the query says it is not installed, and then it comes with that manager's install hint |
| KernelCheck.KernelDirs | src/modules/kernel_check.rs:183-191 | a name is collected exactly when an entry with that name is a directory; there are never more names than entries; when the entries have distinct names, no name is collected twice |
| KernelCheck.CollectKernelDirs | src/modules/kernel_check.rs:181-191 | the collecting loop yields exactly `KernelDirs` of the listing |
| StringOrder.SortStrings | src/modules/kernel_check.rs:192 | the sorted list is a permutation of the input |
| StringOrder.SortStringsSorted | src/modules/kernel_check.rs:192 | the sorted list is in ascending lexicographic order |
| StringOrder.SortedUnique | src/modules/kernel_check.rs:135 | two ascending orders of the same strings are equal, so this sort agrees with the library's |
| StringOrder.LessEqTotal | src/modules/kernel_check.rs:192 | any two strings are comparable |
| StringOrder.LessEqTransitive | src/modules/kernel_check.rs:192 | the order is transitive |
| StringOrder.LessEqAntisymmetric | src/modules/kernel_check.rs:192 | strings ordered both ways are equal |
| KernelCheck.SummaryLine | src/modules/kernel_check.rs:195-199 | a kernel's line starts with "  * " exactly when it is the running kernel, and with "  - " exactly when it is not; the kernel's name follows the four-character prefix; the running kernel's line ends with " (running)", and any other line holds nothing after the name |
| KernelCheck.KernelSummary | src/modules/kernel_check.rs:174-202 | the summary is the header for the trimmed `uname -r` output, then one line per sorted kernel directory; an unreadable /lib/modules lists none |
| KernelCheck.SummaryTextLines | src/modules/kernel_check.rs:193-200 | read back line by line, the summary is "Kernel: <current>", "Installed Kernels:", then one line per kernel in order |
| KernelCheck.ConsoleLine | src/modules/kernel_check.rs:137-143 | the console line has the check mark exactly when the kernel is the running one and the diamond exactly when it is not; the kernel's name follows the four-character prefix and ends the line |
| KernelCheck.ConsoleListing | src/modules/kernel_check.rs:137-143 | the console listing has one line per sorted kernel, in order, each marked as `ConsoleLine` says |
| KernelCheck.Run | src/modules/kernel_check.rs:103-172 | the running kernel is the trimmed `uname -r` output; the check stops there exactly when /lib/modules is unreadable; otherwise it lists every sorted directory with its mark, then the headers report for the detected manager |
| HardwareInfo.FormatMemKib | src/modules/hardware_info.rs:30-38 | GiB is chosen exactly when `kib >= 1024*1024`; the amount in that unit stands for exactly `kib`; it is at least 1 in GiB and below 1024 in MiB |
| HardwareInfo.LastLineWith | src/modules/hardware_info.rs:45-55 | it finds the last line starting with the key, or None when no line does |
| HardwareInfo.ValueAfterColon | src/modules/hardware_info.rs:47 | a line without a colon gives ""; a value is trimmed at both ends |
| HardwareInfo.FirstColonOfKey | src/modules/hardware_info.rs:46-47 | in a line starting with a key that ends in its only colon, the first colon is the key's last character |
| HardwareInfo.ValueAfterKey | src/modules/hardware_info.rs:46-47 | for a key that ends in its only colon, the value is the rest of the line after the key, trimmed |
| HardwareInfo.CpuKeysEndInOnlyColon | src/modules/hardware_info.rs:46-53 | the three `lscpu` keys each end in their only colon |
| HardwareInfo.CpuField | src/modules/hardware_info.rs:41-55 | a field is "Unknown" when no line starts with its key |
| HardwareInfo.CpuFieldLastMatch | src/modules/hardware_info.rs:45-55 | when some line starts with the key, the field is the value of the last line that does: a later match overwrites an earlier one |
| HardwareInfo.ParseBasicCpuInfo | src/modules/hardware_info.rs:40-58 | model, cores and threads are each the `CpuField` of their key over the lines of the output |
| HardwareInfo.SecondFieldNumber | src/modules/hardware_info.rs:66-69 | a line with fewer than two whitespace-separated fields gives no number |
| HardwareInfo.SecondFieldOfMeminfoLine | src/modules/hardware_info.rs:65-70 | a line made of a key, spaces, a number in decimal, spaces and a unit gives back that number |
| HardwareInfo.MeminfoFromLines | src/modules/hardware_info.rs:60-77 | any result has both numbers positive |
| HardwareInfo.MeminfoFromLinesSpec | src/modules/hardware_info.rs:64-74 | a keyed line without a number in its second field makes the result None; so does the absence of a MemTotal line; a result carries the numbers of the last MemTotal and MemAvailable lines |
| HardwareInfo.ParseMeminfo | src/modules/hardware_info.rs:60-77 | an unreadable file gives None; otherwise the loop's result equals `MeminfoFromLines` of the file's lines, and any result has both numbers positive |
| HardwareInfo.ColumnStart | src/modules/hardware_info.rs:84-87 | a title missing from the header starts at 0; otherwise the start is the first offset where the title occurs |
| HardwareInfo.Cut | src/modules/hardware_info.rs:94-96 | a range inside the line gives that slice; a reversed range or one past the end gives "" |
| HardwareInfo.CutFrom | src/modules/hardware_info.rs:97 | a start inside the line gives the rest of the line; a start past the end gives "" |
| HardwareInfo.DeviceEntry | src/modules/hardware_info.rs:90-101 | a blank row gives nothing; otherwise a row gives an entry exactly when its trimmed slices name-to-size, size-to-type and type-to-mount are all non-empty, and the entry is "name: size [type] mounted at mount" made of those slices and the trimmed rest from the mount column |
| HardwareInfo.StorageRowLayout | src/modules/hardware_info.rs:89-101 | a row that lays out a name, size and type word and a mount point at the column starts, each padded with spaces to the next, gives back exactly those fields in the device line |
| HardwareInfo.StorageSummaryOfLayout | src/modules/hardware_info.rs:79-104 | a header whose column starts leave room for the fields, followed by one such row, yields exactly that row's device |
| HardwareInfo.DeviceEntries | src/modules/hardware_info.rs:89-103 | there are never more entries than rows |
| HardwareInfo.StorageSummary | src/modules/hardware_info.rs:79-104 | empty output gives no device; there is at most one device per line below the header |
| HardwareInfo.ParseStorageSummary | src/modules/hardware_info.rs:79-104 | the parser yields the entries of the rows below the header under the header's columns, in order; empty output gives no device |
| HardwareInfo.CollectDevices | src/modules/hardware_info.rs:89-103 | the row loop yields exactly `DeviceEntries` of the rows, in row order |
| HardwareInfo.DeviceEntriesBound | src/modules/hardware_info.rs:89-101 | there are never more devices than non-blank rows below the header |
| HardwareInfo.DeviceEntriesFromRows | src/modules/hardware_info.rs:99-100 | every device is the entry of some row below the header |
| HardwareInfo.StorageNeedsAllColumns | src/modules/hardware_info.rs:84-99 | a header without SIZE, TYPE or MOUNTPOINT yields no device at all |
| BootloaderCheck.CheckBootloader | src/modules/bootloader_check.rs:29-75 | detection always succeeds; there is no config path exactly when none of the six files exists, and then the type is "Unknown"; a config path is a file that exists; the extra note is present exactly for U-Boot, and is then the fixed U-Boot note |
| BootloaderCheck.DetectionIsFirstMatch | src/modules/bootloader_check.rs:35-64 | the result is the first of GRUB, systemd-boot, rEFInd, Syslinux, LILO, U-Boot whose file exists, whichever later ones exist too; the config path is exactly that file |
| BootloaderCheck.DetectionIgnoresOtherPaths | src/modules/bootloader_check.rs:35-68 | paths other than the six files do not change the result |
| BootloaderCheck.BootloaderSummary | src/modules/bootloader_check.rs:77-93 | an error gives "Bootloader: Unknown (error)"; otherwise the line starts "Bootloader: <type>", has " (Config: <path>)" right after it when there is a path, and ends " [<extra>]" when the note is shown; nothing else is in it |
| BootloaderCheck.NoteHasNoPe | src/modules/bootloader_check.rs:63 | the U-Boot note has no 'p' directly followed by 'e' |
| BootloaderCheck.UBootNoteShown | src/modules/bootloader_check.rs:63-87 | the U-Boot note never contains "permission denied", so the summary always shows it |
| BootloaderCheck.SummaryOfDetection | src/modules/bootloader_check.rs:77-89 | when a bootloader is found, the summary is "Bootloader: <type> (Config: <file>)", followed for U-Boot by the note in brackets |
| BootloaderCheck.SummaryUndetected | src/modules/bootloader_check.rs:66-89 | with none of the six files present the summary is "Bootloader: Unknown" |
| Text.FirstIndex | src/modules/kernel_check.rs:26 | `find` with a character predicate gives the first matching position, or None when nothing matches |
| Text.Find | src/modules/hardware_info.rs:84 | `find` with a string gives the first offset at which it occurs, or None when it never occurs |
| Text.Lines | src/modules/hardware_info.rs:45 | the text is empty exactly when there are no lines; no line contains a line feed |
| Text.LinesOfJoinLines | src/modules/kernel_check.rs:193-198 | splitting lines joined with line feeds gives them back, when the last one is not empty |
| Text.JoinLinesOfLines | src/modules/hardware_info.rs:45 | joining the lines of a text without carriage returns or a final line feed gives the text back |
| Text.Trim | src/modules/kernel_check.rs:179 | the result is empty exactly when the text is blank, and never starts or ends with whitespace |
| Text.TrimIsSlice | src/modules/hardware_info.rs:94-97 | `trim` removes only leading and trailing whitespace: the result is the slice of the text between a blank prefix and a blank suffix |
| Text.Words | src/modules/hardware_info.rs:66 | `split_whitespace` gives no field exactly when the text is blank |
| Text.WordsOfWord | src/modules/hardware_info.rs:66 | a single word is its own only field |
| Text.WordsAfterWord | src/modules/hardware_info.rs:66 | a word followed by spaces is the first field, and the fields of the rest follow |
| Text.SecondWord | src/modules/hardware_info.rs:66 | the second field of a word, spaces, a second word, spaces and anything is that second word |
| Text.TrimOfPadded | src/modules/hardware_info.rs:94-97 | a field without whitespace, padded with spaces, trims back to itself |
| Text.WordsAreWords | src/modules/hardware_info.rs:66 | every field of `split_whitespace` is non-empty and contains no whitespace |
| Text.ParseU64 | src/modules/hardware_info.rs:66 | a parsed number comes from text made only of decimal digits, after at most one leading '+', with at least one digit |
| Text.ParseU64Digits | src/modules/hardware_info.rs:66 | digits, with or without a leading '+' and leading zeros, parse to the value they denote when it fits in 64 bits |
| Text.ParseU64TooLarge | src/modules/hardware_info.rs:66 | digits denoting 2^64 or more fail to parse, with or without a leading '+' or leading zeros |
| Text.ParseU64Decimal | src/modules/hardware_info.rs:66 | parsing the decimal form of any 64-bit value gives that value back |
| Text.ContainsAdjacent | src/modules/bootloader_check.rs:85 | a text containing a pattern has the pattern's first two characters side by side somewhere |

## Left out

- Command execution, file reads and directory listing are left out: `uname`, `which`, the package queries in `is_package_installed`, `lscpu`, `lsblk`, `/proc/meminfo`, `/lib/modules` and `Path::exists`. Their results are parameters of the model (src/modules/kernel_check.rs:34-101, src/modules/hardware_info.rs:6-27).
- Printing, the log file and its chrono timestamp are left out (`run` in all three modules, `write_log`).
- The panic when `uname` cannot be run is left out (src/modules/kernel_check.rs:109,178).
- Invalid UTF-8 handling by `from_utf8_lossy` and `to_string_lossy` is left out. Names and outputs are taken as given.
- Directory entries whose type cannot be read are left out. They are dropped by `flatten` and `file_type`, so the model's entry list holds only readable ones.
- KernelCheck.InstallHint: the `_ =>` arm is not modelled (src/modules/kernel_check.rs:162). The manager always comes from the fixed list of six, so that arm cannot be reached.
- HardwareInfo.FormatMemKib: the amount is an exact real. The two-decimal rounding of `{:.2}` and the floating-point division are not modelled.
- Text.IsAlphabetic: Unicode letters outside ASCII are not modelled. Text is ASCII, so `char::is_alphabetic`, `char::is_whitespace` and byte-offset slicing act on one character per byte.
- Text.Trim: Unicode whitespace outside ASCII is not modelled, for the same reason.
- `src/modules/package_check.rs` is not part of this model. It only runs external package commands and an interactive prompt.
- `src/modules/power_status.rs` is not part of this model. It only reads sysfs and prints.
- `src/main.rs` and `src/modules/system_report.rs` are not part of this model. They only dispatch and concatenate strings.
- `hardware_info::run` is left out beyond the parsers it calls (src/modules/hardware_info.rs:106-198). It only gathers command output, writes the log and prints the parsed values.
