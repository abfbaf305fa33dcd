/**
 * Bootloader detection: a fixed-priority search for six well-known
 * configuration files, and the one-line summary made from its result.
 * Which paths exist on the machine is given as a set.
 */
module BootloaderCheck {
  import opened Wrappers
  import opened Text

  datatype BootloaderInfo = BootloaderInfo(bootloaderType: string, configPath: Option<string>, extraInfo: Option<string>)

  const GRUB_CFG := "/boot/grub/grub.cfg"
  const SYSTEMD_BOOT_CFG := "/boot/loader/loader.conf"
  const REFIND_CFG := "/boot/efi/EFI/refind/refind.conf"
  const SYSLINUX_CFG := "/boot/syslinux/syslinux.cfg"
  const LILO_CFG := "/etc/lilo.conf"
  const UBOOT_SCRIPT := "/boot/boot.scr"

  /**
   * The note attached to a U-Boot detection.  It is written in the two
   * halves `NoteHasNoPe` reasons about, so that the proof never has to
   * compare the whole literal with a concatenation character by character.
   */
  const UBOOT_NOTE := "U-Boot script detected. Kernel " + "parsing not implemented."

  /** An extra note containing this is left out of the summary. */
  const HIDDEN_NOTE_MARK := "permission denied"

  /** The bootloaders in the order they are tried, each with the file that identifies it. */
  const Probes: seq<(string, string)> := [
    ("GRUB", GRUB_CFG),
    ("systemd-boot", SYSTEMD_BOOT_CFG),
    ("rEFInd", REFIND_CFG),
    ("Syslinux", SYSLINUX_CFG),
    ("LILO", LILO_CFG),
    ("U-Boot", UBOOT_SCRIPT)
  ]

  /** The detection when none of the files exists. */
  const Undetected := BootloaderInfo("Unknown", None, None)

  /**
   * `check_bootloader`: the first bootloader whose file exists, with that file
   * as its configuration path, and the note for U-Boot; "Unknown" without a
   * path when none exists. It never fails.
   */
  function CheckBootloader(existing: set<string>): (r: Result<BootloaderInfo, string>)
    ensures r.Ok?
    ensures r.value.configPath.None? <==> forall i :: 0 <= i < |Probes| ==> Probes[i].1 !in existing
    ensures r.value.configPath.None? ==> r.value == Undetected
    ensures r.value.configPath.Some? ==> r.value.configPath.value in existing
    ensures r.value.extraInfo.Some? <==> r.value.bootloaderType == "U-Boot"
    ensures r.value.extraInfo.Some? ==> r.value.extraInfo.value == UBOOT_NOTE
  {
    assert Probes[0].1 == GRUB_CFG && Probes[1].1 == SYSTEMD_BOOT_CFG && Probes[2].1 == REFIND_CFG;
    assert Probes[3].1 == SYSLINUX_CFG && Probes[4].1 == LILO_CFG && Probes[5].1 == UBOOT_SCRIPT;
    if GRUB_CFG in existing then
      Ok(BootloaderInfo("GRUB", Some(GRUB_CFG), None))
    else if SYSTEMD_BOOT_CFG in existing then
      Ok(BootloaderInfo("systemd-boot", Some(SYSTEMD_BOOT_CFG), None))
    else if REFIND_CFG in existing then
      Ok(BootloaderInfo("rEFInd", Some(REFIND_CFG), None))
    else if SYSLINUX_CFG in existing then
      Ok(BootloaderInfo("Syslinux", Some(SYSLINUX_CFG), None))
    else if LILO_CFG in existing then
      Ok(BootloaderInfo("LILO", Some(LILO_CFG), None))
    else if UBOOT_SCRIPT in existing then
      Ok(BootloaderInfo("U-Boot", Some(UBOOT_SCRIPT), Some(UBOOT_NOTE)))
    else
      Ok(Undetected)
  }

  /**
   * Detection is a first match over the priority table: the bootloader found
   * is the first in `Probes` whose file exists, whichever later ones exist too.
   */
  lemma DetectionIsFirstMatch(existing: set<string>, i: nat)
    requires i < |Probes| && Probes[i].1 in existing
    requires forall j :: 0 <= j < i ==> Probes[j].1 !in existing
    ensures CheckBootloader(existing).value.bootloaderType == Probes[i].0
    ensures CheckBootloader(existing).value.configPath == Some(Probes[i].1)
  {
    if i > 0 { assert Probes[0].1 !in existing; }
    if i > 1 { assert Probes[1].1 !in existing; }
    if i > 2 { assert Probes[2].1 !in existing; }
    if i > 3 { assert Probes[3].1 !in existing; }
    if i > 4 { assert Probes[4].1 !in existing; }
  }

  /** Only the six identifying files matter: every other path is ignored. */
  lemma DetectionIgnoresOtherPaths(existing: set<string>, others: set<string>)
    requires forall i :: 0 <= i < |Probes| ==> Probes[i].1 !in others
    ensures CheckBootloader(existing + others) == CheckBootloader(existing)
  {
    assert Probes[0].1 !in others && Probes[1].1 !in others && Probes[2].1 !in others;
    assert Probes[3].1 !in others && Probes[4].1 !in others && Probes[5].1 !in others;
  }

  /** The summary's config part: " (Config: <path>)", or nothing. */
  function ConfigPart(configPath: Option<string>): string {
    match configPath
    case None => ""
    case Some(p) => " (Config: " + p + ")"
  }

  /** Whether the summary shows the extra note. */
  predicate ShowsExtra(extraInfo: Option<string>) {
    extraInfo.Some? && !Contains(extraInfo.value, HIDDEN_NOTE_MARK)
  }

  /**
   * `get_summary` given the detection result: "Bootloader: <type>", then the
   * config part when there is a path, then " [<extra>]" when there is a note
   * that does not mention a denied permission; a fixed line for an error.
   */
  function BootloaderSummary(r: Result<BootloaderInfo, string>): (s: string)
    ensures r.Err? ==> s == "Bootloader: Unknown (error)"
    ensures r.Ok? ==> StartsWith(s, "Bootloader: " + r.value.bootloaderType)
    ensures r.Ok? && r.value.configPath.Some? ==>
              OccursAt(s, " (Config: " + r.value.configPath.value + ")", |"Bootloader: " + r.value.bootloaderType|)
    ensures r.Ok? && ShowsExtra(r.value.extraInfo) ==> EndsWith(s, " [" + r.value.extraInfo.value + "]")
    ensures r.Ok? ==> |s| == 12 + |r.value.bootloaderType|
                             + (if r.value.configPath.Some? then 11 + |r.value.configPath.value| else 0)
                             + (if ShowsExtra(r.value.extraInfo) then 3 + |r.value.extraInfo.value| else 0)
  {
    match r
    case Err(_) => "Bootloader: Unknown (error)"
    case Ok(info) =>
      var head := "Bootloader: " + info.bootloaderType;
      var withPath := head + ConfigPart(info.configPath);
      var s := withPath + if ShowsExtra(info.extraInfo) then " [" + info.extraInfo.value + "]" else "";
      assert s[..|head|] == head;
      assert info.configPath.Some? ==>
               s[|head|..|head| + 11 + |info.configPath.value|] == ConfigPart(info.configPath);
      s
  }

  /*
   * The note is shown to have no "pe" piece by piece: each piece either lacks
   * 'p' or 'e' altogether, or is joined to the next at a character other
   * than 'p'.  Small pieces keep every literal comparison short.
   */

  lemma ScriptHasNoPe()
    ensures NoAdjacent("U-Boot script", 'p', 'e')
  {
    var a, b := "U-Boot scri", "pt";
    NoAdjacentOfMissing(a, 'p', 'e');
    NoAdjacentOfMissing(b, 'p', 'e');
    assert a + b == "U-Boot script";
    NoAdjacentConcat(a, b, 'p', 'e');
  }

  /** The first half of the U-Boot note has no "pe" in it. */
  lemma NoteHeadHasNoPe()
    ensures NoAdjacent("U-Boot script detected. Kernel ", 'p', 'e')
  {
    var c := " detected. Kernel ";
    ScriptHasNoPe();
    NoAdjacentOfMissing(c, 'p', 'e');
    assert "U-Boot script" + c == "U-Boot script detected. Kernel ";
    NoAdjacentConcat("U-Boot script", c, 'p', 'e');
  }

  lemma ImplHasNoPe()
    ensures NoAdjacent("parsing not impl", 'p', 'e')
  {
    var a, b := "parsing not im", "pl";
    NoAdjacentOfMissing(a, 'p', 'e');
    NoAdjacentOfMissing(b, 'p', 'e');
    assert a + b == "parsing not impl";
    NoAdjacentConcat(a, b, 'p', 'e');
  }

  /** The second half of the U-Boot note has no "pe" in it. */
  lemma NoteTailHasNoPe()
    ensures NoAdjacent("parsing not implemented.", 'p', 'e')
  {
    var c := "emented.";
    ImplHasNoPe();
    NoAdjacentOfMissing(c, 'p', 'e');
    assert "parsing not impl" + c == "parsing not implemented.";
    NoAdjacentConcat("parsing not impl", c, 'p', 'e');
  }

  /** The whole U-Boot note has no "pe" in it. */
  lemma NoteHasNoPe()
    ensures NoAdjacent(UBOOT_NOTE, 'p', 'e')
  {
    NoteHeadHasNoPe();
    NoteTailHasNoPe();
    NoAdjacentConcat("U-Boot script detected. Kernel ", "parsing not implemented.", 'p', 'e');
  }

  lemma MarkStartsWithPe(mark: string)
    requires mark == HIDDEN_NOTE_MARK
    ensures |mark| >= 2 && mark[0] == 'p' && mark[1] == 'e'
  {
  }

  /**
   * The U-Boot note never mentions a denied permission (it has no "pe"), so
   * the summary always shows it: the filter never removes anything.
   */
  lemma UBootNoteShown()
    ensures ShowsExtra(Some(UBOOT_NOTE))
  {
    NoteHasNoPe();
    MarkStartsWithPe(HIDDEN_NOTE_MARK);
    ContainsAdjacent(UBOOT_NOTE, HIDDEN_NOTE_MARK);
  }

  /** The summary of a detection with a configuration path. */
  lemma SummaryWithPath(info: BootloaderInfo)
    requires info.configPath.Some?
    ensures BootloaderSummary(Ok(info))
         == "Bootloader: " + info.bootloaderType + " (Config: " + info.configPath.value + ")"
            + if ShowsExtra(info.extraInfo) then " [" + info.extraInfo.value + "]" else ""
  {
  }

  /**
   * The summary line of a machine on which the `i`-th bootloader of the table
   * is found: its name and configuration file, and for U-Boot, the last one,
   * the note.
   */
  lemma SummaryOfDetection(existing: set<string>, i: nat)
    requires i < |Probes| && Probes[i].1 in existing
    requires forall j :: 0 <= j < i ==> Probes[j].1 !in existing
    ensures BootloaderSummary(CheckBootloader(existing))
         == "Bootloader: " + Probes[i].0 + " (Config: " + Probes[i].1 + ")"
            + if i == |Probes| - 1 then " [" + UBOOT_NOTE + "]" else ""
  {
    DetectionIsFirstMatch(existing, i);
    var info := CheckBootloader(existing).value;
    SummaryWithPath(info);
    if i == |Probes| - 1 {
      UBootNoteShown();
    } else {
      assert info.extraInfo.None?;
    }
  }

  /** With none of the six files present the line is just "Bootloader: Unknown". */
  lemma SummaryUndetected(existing: set<string>)
    requires forall i :: 0 <= i < |Probes| ==> Probes[i].1 !in existing
    ensures BootloaderSummary(CheckBootloader(existing)) == "Bootloader: Unknown"
  {
    assert BootloaderSummary(Ok(Undetected)) == "Bootloader: " + "Unknown";
  }
}
