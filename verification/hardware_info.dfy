/**
 * The text parsers of the hardware probe: the CPU fields of `lscpu` output,
 * the two memory totals of /proc/meminfo, the unit chosen to show a memory
 * size, and the device rows of `lsblk -o NAME,SIZE,TYPE,MOUNTPOINT` output.
 * Command output and file contents are inputs.
 */
module HardwareInfo {
  import opened Wrappers
  import opened Text

  // ---------------------------------------------------------------------------
  // Memory sizes

  const KIB_PER_GIB: nat := 1024 * 1024

  datatype MemUnit = MiB | GiB

  /** A memory size as it is shown: an amount and its unit. */
  datatype MemSize = MemSize(amount: real, unit: MemUnit)

  function UnitKib(unit: MemUnit): real {
    match unit
    case MiB => 1024.0
    case GiB => 1048576.0
  }

  /**
   * `format_mem_kib`: GiB from one GiB on, MiB below it, so the amount shown
   * is at least 1 in GiB and below 1024 in MiB, and stands for exactly `kib`.
   */
  function FormatMemKib(kib: u64): (m: MemSize)
    ensures m.unit == GiB <==> kib >= KIB_PER_GIB
    ensures m.amount * UnitKib(m.unit) == kib as real
    ensures m.unit == GiB ==> m.amount >= 1.0
    ensures m.unit == MiB ==> 0.0 <= m.amount < 1024.0
  {
    if kib >= 1024 * 1024 then
      MemSize(kib as real / 1024.0 / 1024.0, GiB)
    else
      MemSize(kib as real / 1024.0, MiB)
  }

  // ---------------------------------------------------------------------------
  // Keyed lines

  /** Index of the last line that starts with `key`. */
  function LastLineWith(lines: seq<string>, key: string): (r: Option<nat>)
    ensures r.Some? ==> r.value < |lines| && StartsWith(lines[r.value], key)
    ensures r.Some? ==> forall j :: r.value < j < |lines| ==> !StartsWith(lines[j], key)
    ensures r.None? ==> forall j :: 0 <= j < |lines| ==> !StartsWith(lines[j], key)
  {
    if lines == [] then None
    else if StartsWith(lines[|lines| - 1], key) then Some(|lines| - 1)
    else LastLineWith(lines[..|lines| - 1], key)
  }

  // ---------------------------------------------------------------------------
  // lscpu

  const MODEL_KEY := "Model name:"
  const CPUS_KEY := "CPU(s):"
  const THREADS_KEY := "Thread(s) per core:"

  predicate IsColon(c: char) {
    c == ':'
  }

  /** `line.splitn(2, ':').nth(1).unwrap_or("").trim()`. */
  function ValueAfterColon(line: string): (v: string)
    ensures ':' !in line ==> v == ""
    ensures v != [] ==> !IsWhitespace(v[0]) && !IsWhitespace(v[|v| - 1])
  {
    match FirstIndex(line, IsColon)
    case None => ""
    case Some(i) =>
      assert IsColon(line[i]) && line[i] in line;
      Trim(line[i + 1..])
  }

  /**
   * A key that ends in its only colon: the value of a line starting with it
   * is the rest of the line, trimmed.
   */
  lemma ValueAfterKey(line: string, key: string)
    requires key != [] && key[|key| - 1] == ':' && ':' !in key[..|key| - 1]
    requires StartsWith(line, key)
    ensures ValueAfterColon(line) == Trim(line[|key|..])
  {
    FirstColonOfKey(line, key);
  }

  /** In a line starting with such a key, the first colon is the key's last character. */
  lemma FirstColonOfKey(line: string, key: string)
    requires key != [] && key[|key| - 1] == ':' && ':' !in key[..|key| - 1]
    requires StartsWith(line, key)
    ensures FirstIndex(line, IsColon) == Some(|key| - 1)
  {
    var c := |key| - 1;
    assert line[c] == key[c];
    forall j | 0 <= j < c ensures !IsColon(line[j]) {
      assert line[j] == key[..c][j];
    }
  }

  /** The three `lscpu` keys are of that kind. */
  lemma CpuKeysEndInOnlyColon()
    ensures forall key :: key == MODEL_KEY || key == CPUS_KEY || key == THREADS_KEY ==>
              key != [] && key[|key| - 1] == ':' && ':' !in key[..|key| - 1]
  {
    assert MODEL_KEY[..|MODEL_KEY| - 1] == "Model name";
    assert CPUS_KEY[..|CPUS_KEY| - 1] == "CPU(s)";
    assert THREADS_KEY[..|THREADS_KEY| - 1] == "Thread(s) per core";
  }

  /**
   * The value the CPU parser keeps for `key`: "Unknown" when no line starts
   * with the key, otherwise the value of the last line that does.
   */
  function CpuField(lines: seq<string>, key: string): (v: string)
    ensures (forall i :: 0 <= i < |lines| ==> !StartsWith(lines[i], key)) ==> v == "Unknown"
  {
    match LastLineWith(lines, key)
    case None => "Unknown"
    case Some(i) => ValueAfterColon(lines[i])
  }

  /** A later matching line overwrites an earlier one: the field is the value of the last match. */
  lemma CpuFieldLastMatch(lines: seq<string>, key: string, i: nat)
    requires i < |lines| && StartsWith(lines[i], key)
    requires forall j :: i < j < |lines| ==> !StartsWith(lines[j], key)
    ensures CpuField(lines, key) == ValueAfterColon(lines[i])
  {
    assert LastLineWith(lines, key).Some?;
  }

  lemma LastLineWithSnoc(lines: seq<string>, k: nat, key: string)
    requires k < |lines|
    ensures LastLineWith(lines[..k + 1], key)
         == if StartsWith(lines[k], key) then Some(k) else LastLineWith(lines[..k], key)
  {
    assert lines[..k + 1][..k] == lines[..k];
  }

  lemma CpuFieldSnoc(lines: seq<string>, k: nat, key: string)
    requires k < |lines|
    ensures CpuField(lines[..k + 1], key)
         == if StartsWith(lines[k], key) then ValueAfterColon(lines[k]) else CpuField(lines[..k], key)
  {
    LastLineWithSnoc(lines, k, key);
    assert lines[..k + 1][k] == lines[k];
    match LastLineWith(lines[..k], key)
    case None =>
    case Some(i) => assert lines[..k + 1][i] == lines[..k][i];
  }

  /**
   * `parse_basic_cpu_info`: one pass over the lines, each key matched at the
   * start of a line, a later matching line overwriting an earlier one.
   */
  method ParseBasicCpuInfo(output: string) returns (model: string, cores: string, threads: string)
    ensures model == CpuField(Lines(output), MODEL_KEY)
    ensures cores == CpuField(Lines(output), CPUS_KEY)
    ensures threads == CpuField(Lines(output), THREADS_KEY)
  {
    var lines := Lines(output);
    model, cores, threads := "Unknown", "Unknown", "Unknown";
    for k := 0 to |lines|
      invariant model == CpuField(lines[..k], MODEL_KEY)
      invariant cores == CpuField(lines[..k], CPUS_KEY)
      invariant threads == CpuField(lines[..k], THREADS_KEY)
    {
      var line := lines[k];
      CpuFieldSnoc(lines, k, MODEL_KEY);
      CpuFieldSnoc(lines, k, CPUS_KEY);
      CpuFieldSnoc(lines, k, THREADS_KEY);
      if StartsWith(line, MODEL_KEY) {
        model := ValueAfterColon(line);
      }
      if StartsWith(line, CPUS_KEY) {
        cores := ValueAfterColon(line);
      }
      if StartsWith(line, THREADS_KEY) {
        threads := ValueAfterColon(line);
      }
    }
    assert lines[..|lines|] == lines;
  }

  // ---------------------------------------------------------------------------
  // /proc/meminfo

  const TOTAL_KEY := "MemTotal:"
  const AVAILABLE_KEY := "MemAvailable:"

  /** `line.split_whitespace().nth(1)?.parse().ok()?`: the second field as a `u64`. */
  function SecondFieldNumber(line: string): (r: Option<u64>)
    ensures |Words(line)| < 2 ==> r.None?
  {
    var fields := Words(line);
    if |fields| < 2 then None else ParseU64(fields[1])
  }

  /**
   * A meminfo line as the kernel writes it, key, padding, the number in
   * decimal, padding and unit, gives back that number.
   */
  lemma SecondFieldOfMeminfoLine(key: string, k1: nat, n: u64, k2: nat, unit: string)
    requires IsWord(key) && k1 > 0 && k2 > 0
    ensures SecondFieldNumber(key + Spaces(k1) + Decimal(n) + Spaces(k2) + unit) == Some(n)
  {
    assert IsWord(Decimal(n));
    SecondWord(key, k1, Decimal(n), k2, unit);
    ParseU64Decimal(n);
  }

  predicate MeminfoKeyed(line: string) {
    StartsWith(line, TOTAL_KEY) || StartsWith(line, AVAILABLE_KEY)
  }

  /** A line starting with either key whose second field is not a number. */
  predicate Malformed(line: string) {
    MeminfoKeyed(line) && SecondFieldNumber(line).None?
  }

  predicate AnyMalformed(lines: seq<string>) {
    exists i :: 0 <= i < |lines| && Malformed(lines[i])
  }

  lemma AnyMalformedSnoc(lines: seq<string>, k: nat)
    requires k < |lines|
    ensures AnyMalformed(lines[..k + 1]) <==> AnyMalformed(lines[..k]) || Malformed(lines[k])
    ensures Malformed(lines[k]) ==> AnyMalformed(lines)
  {
    if AnyMalformed(lines[..k + 1]) && !Malformed(lines[k]) {
      var i :| 0 <= i < k + 1 && Malformed(lines[..k + 1][i]);
      assert lines[..k][i] == lines[i];
    }
    if AnyMalformed(lines[..k]) {
      var i :| 0 <= i < k && Malformed(lines[..k][i]);
      assert lines[..k + 1][i] == lines[i];
    }
    if Malformed(lines[k]) {
      assert lines[..k + 1][k] == lines[k];
    }
  }

  /** The number the parser keeps for `key`: that of the last line starting with it, 0 when there is none. */
  function LastNumber(lines: seq<string>, key: string): u64 {
    match LastLineWith(lines, key)
    case None => 0
    case Some(i) => if SecondFieldNumber(lines[i]).Some? then SecondFieldNumber(lines[i]).value else 0
  }

  lemma LastNumberSnoc(lines: seq<string>, k: nat, key: string)
    requires k < |lines|
    ensures LastNumber(lines[..k + 1], key)
         == if !StartsWith(lines[k], key) then LastNumber(lines[..k], key)
            else if SecondFieldNumber(lines[k]).Some? then SecondFieldNumber(lines[k]).value else 0
  {
    LastLineWithSnoc(lines, k, key);
    if StartsWith(lines[k], key) {
      assert lines[..k + 1][k] == lines[k];
    } else {
      match LastLineWith(lines[..k], key)
      case None =>
      case Some(i) => assert lines[..k + 1][i] == lines[..k][i];
    }
  }

  /**
   * What the meminfo parser yields, stated without its loop: nothing when a
   * line starting with either key has no parsable second field; otherwise the
   * numbers of the last MemTotal and MemAvailable lines, when both are positive.
   */
  ghost function MeminfoFromLines(lines: seq<string>): (r: Option<(u64, u64)>)
    ensures r.Some? ==> r.value.0 > 0 && r.value.1 > 0
  {
    if AnyMalformed(lines) then None
    else
      var total, free := LastNumber(lines, TOTAL_KEY), LastNumber(lines, AVAILABLE_KEY);
      if total > 0 && free > 0 then Some((total, free)) else None
  }

  /**
   * A result comes only from well-formed input, needs a MemTotal line, and
   * carries the numbers of the last MemTotal and MemAvailable lines.
   */
  lemma MeminfoFromLinesSpec(lines: seq<string>)
    ensures (exists i :: 0 <= i < |lines| && Malformed(lines[i])) ==> MeminfoFromLines(lines).None?
    ensures (forall i :: 0 <= i < |lines| ==> !StartsWith(lines[i], TOTAL_KEY)) ==> MeminfoFromLines(lines).None?
    ensures MeminfoFromLines(lines).Some? ==>
              exists i :: 0 <= i < |lines| && StartsWith(lines[i], TOTAL_KEY)
                          && SecondFieldNumber(lines[i]) == Some(MeminfoFromLines(lines).value.0)
                          && forall j :: i < j < |lines| ==> !StartsWith(lines[j], TOTAL_KEY)
    ensures MeminfoFromLines(lines).Some? ==>
              exists i :: 0 <= i < |lines| && StartsWith(lines[i], AVAILABLE_KEY)
                          && SecondFieldNumber(lines[i]) == Some(MeminfoFromLines(lines).value.1)
                          && forall j :: i < j < |lines| ==> !StartsWith(lines[j], AVAILABLE_KEY)
  {
    var r := MeminfoFromLines(lines);
    if r.Some? {
      var t := LastLineWith(lines, TOTAL_KEY).value;
      var a := LastLineWith(lines, AVAILABLE_KEY).value;
      assert SecondFieldNumber(lines[t]) == Some(r.value.0);
      assert SecondFieldNumber(lines[a]) == Some(r.value.1);
    }
  }

  /** The numbers once every line has been read without a malformed one. */
  lemma MeminfoOfWellFormed(lines: seq<string>, total: u64, free: u64)
    requires !AnyMalformed(lines)
    requires total == LastNumber(lines, TOTAL_KEY) && free == LastNumber(lines, AVAILABLE_KEY)
    ensures MeminfoFromLines(lines) == if total > 0 && free > 0 then Some((total, free)) else None
  {
  }

  /**
   * `parse_meminfo`, with the file's contents as input (`None` when it cannot
   * be read): stops with nothing at the first keyed line without a number.
   */
  method ParseMeminfo(content: Option<string>) returns (r: Option<(u64, u64)>)
    ensures content.None? ==> r.None?
    ensures content.Some? ==> r == MeminfoFromLines(Lines(content.value))
    ensures r.Some? ==> r.value.0 > 0 && r.value.1 > 0
  {
    if content.None? {
      return None;
    }
    var lines := Lines(content.value);
    var total: u64, free: u64 := 0, 0;
    for k := 0 to |lines|
      invariant !AnyMalformed(lines[..k])
      invariant total == LastNumber(lines[..k], TOTAL_KEY)
      invariant free == LastNumber(lines[..k], AVAILABLE_KEY)
    {
      var line := lines[k];
      LastNumberSnoc(lines, k, TOTAL_KEY);
      LastNumberSnoc(lines, k, AVAILABLE_KEY);
      AnyMalformedSnoc(lines, k);
      if StartsWith(line, TOTAL_KEY) {
        var n := SecondFieldNumber(line);
        if n.None? {
          assert Malformed(lines[k]);
          return None;
        }
        total := n.value;
      }
      assert total == LastNumber(lines[..k + 1], TOTAL_KEY);
      if StartsWith(line, AVAILABLE_KEY) {
        var n := SecondFieldNumber(line);
        if n.None? {
          assert Malformed(lines[k]);
          return None;
        }
        free := n.value;
      }
      assert !Malformed(lines[k]);
    }
    assert lines[..|lines|] == lines;
    MeminfoOfWellFormed(lines, total, free);
    if total > 0 && free > 0 {
      return Some((total, free));
    }
    return None;
  }

  // ---------------------------------------------------------------------------
  // lsblk

  /** Where each column starts in the header line. */
  datatype Columns = Columns(name: nat, size: nat, devType: nat, mount: nat)

  /** `header.find(title).unwrap_or(0)`. */
  function ColumnStart(header: string, title: string): (c: nat)
    ensures !Contains(header, title) ==> c == 0
    ensures Contains(header, title) ==> OccursAt(header, title, c)
    ensures Contains(header, title) ==> forall j :: 0 <= j < c ==> !OccursAt(header, title, j)
  {
    match Find(header, title)
    case None => 0
    case Some(i) => i
  }

  function HeaderColumns(header: string): Columns {
    Columns(ColumnStart(header, "NAME"), ColumnStart(header, "SIZE"),
            ColumnStart(header, "TYPE"), ColumnStart(header, "MOUNTPOINT"))
  }

  /** `line.get(from..to).unwrap_or("")`: empty when the range is reversed or leaves the line. */
  function Cut(line: string, from: nat, to: nat): (r: string)
    ensures from <= to <= |line| ==> r == line[from..to]
    ensures !(from <= to <= |line|) ==> r == ""
  {
    if from <= to <= |line| then line[from..to] else ""
  }

  /** `line.get(from..).unwrap_or("")`. */
  function CutFrom(line: string, from: nat): (r: string)
    ensures from <= |line| ==> r == line[from..]
    ensures from > |line| ==> r == ""
  {
    if from <= |line| then line[from..] else ""
  }

  function DeviceLine(name: string, size: string, devType: string, mount: string): string {
    name + ": " + size + " [" + devType + "] mounted at " + mount
  }

  /**
   * What one row below the header contributes: nothing for a blank row;
   * otherwise the row is cut at the column starts, each piece trimmed, and
   * it gives a device line when its name, size and type pieces are all
   * non-empty.
   */
  function DeviceEntry(row: string, cols: Columns): (e: Option<string>)
    ensures Blank(row) ==> e.None?
    ensures e.Some? <==> !Blank(row) && Trim(Cut(row, cols.name, cols.size)) != []
                         && Trim(Cut(row, cols.size, cols.devType)) != []
                         && Trim(Cut(row, cols.devType, cols.mount)) != []
    ensures e.Some? ==> e.value == DeviceLine(Trim(Cut(row, cols.name, cols.size)),
                                              Trim(Cut(row, cols.size, cols.devType)),
                                              Trim(Cut(row, cols.devType, cols.mount)),
                                              Trim(CutFrom(row, cols.mount)))
  {
    if Trim(row) == [] then None
    else
      var name := Trim(Cut(row, cols.name, cols.size));
      var size := Trim(Cut(row, cols.size, cols.devType));
      var devType := Trim(Cut(row, cols.devType, cols.mount));
      var mount := Trim(CutFrom(row, cols.mount));
      if name != [] && size != [] && devType != [] then Some(DeviceLine(name, size, devType, mount)) else None
  }

  /** A field padded with spaces to the width of its column. */
  function Padded(field: string, width: nat): (r: string)
    requires |field| <= width
    ensures |r| == width && r[..|field|] == field
  {
    field + Spaces(width - |field|)
  }

  /** The columns leave room for the fields. */
  predicate FieldsFit(cols: Columns, name: string, size: string, devType: string) {
    cols.name + |name| <= cols.size && cols.size + |size| <= cols.devType && cols.devType + |devType| <= cols.mount
  }

  /** A row whose fields start at their columns, each padded with spaces to the next column. */
  function LaidOut(cols: Columns, name: string, size: string, devType: string, mount: string): (row: string)
    requires FieldsFit(cols, name, size, devType)
    ensures |row| == cols.mount + |mount|
  {
    Spaces(cols.name) + Padded(name, cols.size - cols.name) + Padded(size, cols.devType - cols.size)
    + Padded(devType, cols.mount - cols.devType) + mount
  }

  /** The cuts the parser makes in a laid-out row are the padded fields. */
  lemma LaidOutCuts(cols: Columns, name: string, size: string, devType: string, mount: string)
    requires FieldsFit(cols, name, size, devType)
    ensures var row := LaidOut(cols, name, size, devType, mount);
            && Cut(row, cols.name, cols.size) == Padded(name, cols.size - cols.name)
            && Cut(row, cols.size, cols.devType) == Padded(size, cols.devType - cols.size)
            && Cut(row, cols.devType, cols.mount) == Padded(devType, cols.mount - cols.devType)
            && CutFrom(row, cols.mount) == mount
  {
    var a := Spaces(cols.name);
    var b := Padded(name, cols.size - cols.name);
    var c := Padded(size, cols.devType - cols.size);
    var d := Padded(devType, cols.mount - cols.devType);
    var row := a + b + c + d + mount;
    assert row[cols.name..cols.size] == b;
    assert row[cols.size..cols.devType] == c;
    assert row[cols.devType..cols.mount] == d;
    assert row[cols.mount..] == mount;
  }

  /** Trimming the cuts of a laid-out row gives back its fields. */
  lemma LaidOutFields(cols: Columns, name: string, size: string, devType: string, mount: string)
    requires NoWhitespace(name) && NoWhitespace(size) && NoWhitespace(devType) && NoWhitespace(mount)
    requires FieldsFit(cols, name, size, devType)
    ensures var row := LaidOut(cols, name, size, devType, mount);
            && Trim(Cut(row, cols.name, cols.size)) == name
            && Trim(Cut(row, cols.size, cols.devType)) == size
            && Trim(Cut(row, cols.devType, cols.mount)) == devType
            && Trim(CutFrom(row, cols.mount)) == mount
  {
    LaidOutCuts(cols, name, size, devType, mount);
    TrimOfPaddedField(name, cols.size - cols.name);
    TrimOfPaddedField(size, cols.devType - cols.size);
    TrimOfPaddedField(devType, cols.mount - cols.devType);
    TrimOfPaddedField(mount, |mount|);
    assert Padded(mount, |mount|) == mount;
  }

  /** A field without whitespace, padded to its column's width, trims back to itself. */
  lemma TrimOfPaddedField(field: string, width: nat)
    requires NoWhitespace(field) && |field| <= width
    ensures Trim(Padded(field, width)) == field
  {
    TrimOfPadded(field, width - |field|);
  }

  /** A laid-out row with a non-empty name is not blank. */
  lemma LaidOutNotBlank(cols: Columns, name: string, size: string, devType: string, mount: string)
    requires IsWord(name) && FieldsFit(cols, name, size, devType)
    ensures !Blank(LaidOut(cols, name, size, devType, mount))
  {
    var row := LaidOut(cols, name, size, devType, mount);
    LaidOutCuts(cols, name, size, devType, mount);
    var b := Cut(row, cols.name, cols.size);
    assert b[0] == name[0] && row[cols.name] == b[0];
  }

  /** A row that is not blank and whose trimmed name, size and type cuts are non-empty gives their device line. */
  lemma DeviceEntryOfFields(row: string, cols: Columns, name: string, size: string, devType: string, mount: string)
    requires !Blank(row) && name != [] && size != [] && devType != []
    requires Trim(Cut(row, cols.name, cols.size)) == name && Trim(Cut(row, cols.size, cols.devType)) == size
    requires Trim(Cut(row, cols.devType, cols.mount)) == devType && Trim(CutFrom(row, cols.mount)) == mount
    ensures DeviceEntry(row, cols) == Some(DeviceLine(name, size, devType, mount))
  {
  }

  /**
   * The parser reads back the fields of a row laid out under the columns:
   * the name, size and type words and the mount point each land in their
   * own place of the device line.
   */
  lemma StorageRowLayout(cols: Columns, name: string, size: string, devType: string, mount: string)
    requires IsWord(name) && IsWord(size) && IsWord(devType) && NoWhitespace(mount)
    requires FieldsFit(cols, name, size, devType)
    ensures DeviceEntry(LaidOut(cols, name, size, devType, mount), cols) == Some(DeviceLine(name, size, devType, mount))
  {
    LaidOutFields(cols, name, size, devType, mount);
    LaidOutNotBlank(cols, name, size, devType, mount);
    DeviceEntryOfFields(LaidOut(cols, name, size, devType, mount), cols, name, size, devType, mount);
  }

  /** The entries of the rows, in row order. */
  function DeviceEntries(rows: seq<string>, cols: Columns): (devices: seq<string>)
    ensures |devices| <= |rows|
  {
    if rows == [] then []
    else
      DeviceEntries(rows[..|rows| - 1], cols)
      + match DeviceEntry(rows[|rows| - 1], cols) case None => [] case Some(e) => [e]
  }

  /** The first line of the output, or "" when there is none. */
  function StorageHeader(output: string): string {
    var lines := Lines(output);
    if lines == [] then "" else lines[0]
  }

  /** Every line after the first. */
  function StorageRows(output: string): seq<string> {
    var lines := Lines(output);
    if lines == [] then [] else lines[1..]
  }

  /** The devices of the whole `lsblk` output: at most one per line below the header. */
  function StorageSummary(output: string): (devices: seq<string>)
    ensures output == [] ==> devices == []
    ensures |devices| <= if Lines(output) == [] then 0 else |Lines(output)| - 1
  {
    DeviceEntries(StorageRows(output), HeaderColumns(StorageHeader(output)))
  }

  /** A laid-out row has no line break in it. */
  lemma LaidOutSingleLine(cols: Columns, name: string, size: string, devType: string, mount: string)
    requires NoWhitespace(name) && NoWhitespace(size) && NoWhitespace(devType) && NoWhitespace(mount)
    requires FieldsFit(cols, name, size, devType)
    ensures '\n' !in LaidOut(cols, name, size, devType, mount)
  {
    var row := LaidOut(cols, name, size, devType, mount);
    forall i | 0 <= i < |row| ensures row[i] != '\n' {
      LaidOutChar(cols, name, size, devType, mount, i);
    }
  }

  /** Every character of a laid-out row is a space or a character of a field. */
  lemma LaidOutChar(cols: Columns, name: string, size: string, devType: string, mount: string, i: nat)
    requires NoWhitespace(name) && NoWhitespace(size) && NoWhitespace(devType) && NoWhitespace(mount)
    requires FieldsFit(cols, name, size, devType)
    requires i < |LaidOut(cols, name, size, devType, mount)|
    ensures var c := LaidOut(cols, name, size, devType, mount)[i]; c == ' ' || !IsWhitespace(c)
  {
    var a := Spaces(cols.name);
    var b := Padded(name, cols.size - cols.name);
    var c := Padded(size, cols.devType - cols.size);
    var d := Padded(devType, cols.mount - cols.devType);
    if i < cols.name {
      assert (a + b + c + d + mount)[i] == a[i];
    } else if i < cols.size {
      assert (a + b + c + d + mount)[i] == b[i - cols.name];
      assert b == name + Spaces(cols.size - cols.name - |name|);
    } else if i < cols.devType {
      assert (a + b + c + d + mount)[i] == c[i - cols.size];
      assert c == size + Spaces(cols.devType - cols.size - |size|);
    } else if i < cols.mount {
      assert (a + b + c + d + mount)[i] == d[i - cols.devType];
      assert d == devType + Spaces(cols.mount - cols.devType - |devType|);
    } else {
      assert (a + b + c + d + mount)[i] == mount[i - cols.mount];
    }
  }

  /**
   * The whole parser on a header and one row laid out under it: when the
   * header's column starts leave room for the fields (so SIZE, TYPE and
   * MOUNTPOINT all occur in it, in that order), the one device reported is
   * the row's own name, size, type and mount point.
   */
  lemma StorageSummaryOfLayout(header: string, name: string, size: string, devType: string, mount: string)
    requires PlainLine(header)
    requires IsWord(name) && IsWord(size) && IsWord(devType) && NoWhitespace(mount)
    requires FieldsFit(HeaderColumns(header), name, size, devType)
    ensures StorageSummary(header + "\n" + LaidOut(HeaderColumns(header), name, size, devType, mount))
         == [DeviceLine(name, size, devType, mount)]
  {
    var cols := HeaderColumns(header);
    var row := LaidOut(cols, name, size, devType, mount);
    LaidOutSingleLine(cols, name, size, devType, mount);
    StorageSummaryOfOneRow(header, row);
    StorageRowLayout(cols, name, size, devType, mount);
  }

  /** The output of a header and one row: that row's entry under the header's columns, if any. */
  lemma StorageSummaryOfOneRow(header: string, row: string)
    requires PlainLine(header) && row != [] && '\n' !in row
    ensures var e := DeviceEntry(row, HeaderColumns(header));
            StorageSummary(header + "\n" + row) == if e.Some? then [e.value] else []
  {
    var output := header + "\n" + row;
    LinesOfLineFeed(header, row);
    LinesOfOneLine(row);
    assert Lines(output) == [header, row];
    assert StorageRows(output) == [row];
    assert [row][..0] == [];
  }

  /**
   * The body of the storage parser's row loop: a blank row is skipped, and a
   * row gives an entry when its name, size and type fields are all present.
   */
  method RowEntry(line: string, cols: Columns) returns (entry: Option<string>)
    ensures entry == DeviceEntry(line, cols)
    ensures entry.Some? ==> !Blank(line)
  {
    if Trim(line) == [] {
      return None;
    }
    var name := Trim(Cut(line, cols.name, cols.size));
    var size := Trim(Cut(line, cols.size, cols.devType));
    var devType := Trim(Cut(line, cols.devType, cols.mount));
    var mount := Trim(CutFrom(line, cols.mount));
    if name != [] && size != [] && devType != [] {
      return Some(DeviceLine(name, size, devType, mount));
    }
    return None;
  }

  /**
   * `parse_storage_summary`: column starts from the header, then one entry
   * per row below it whose name, size and type are all present.
   */
  method ParseStorageSummary(output: string) returns (devices: seq<string>)
    ensures devices == StorageSummary(output)
    ensures output == [] ==> devices == []
  {
    var lines := Lines(output);
    var header := if lines == [] then "" else lines[0];
    var cols := Columns(ColumnStart(header, "NAME"), ColumnStart(header, "SIZE"),
                        ColumnStart(header, "TYPE"), ColumnStart(header, "MOUNTPOINT"));
    var rows := if lines == [] then [] else lines[1..];
    devices := CollectDevices(rows, cols);
  }

  /** The row loop of `parse_storage_summary`: one entry per row that gives one, in row order. */
  method CollectDevices(rows: seq<string>, cols: Columns) returns (devices: seq<string>)
    ensures devices == DeviceEntries(rows, cols)
  {
    devices := [];
    for k := 0 to |rows|
      invariant devices == DeviceEntries(rows[..k], cols)
    {
      assert rows[..k + 1][..k] == rows[..k];
      DeviceEntriesSnoc(rows[..k + 1], cols);
      var entry := RowEntry(rows[k], cols);
      if entry.Some? {
        devices := devices + [entry.value];
      }
    }
    assert rows[..|rows|] == rows;
  }

  function CountNonBlank(rows: seq<string>): nat {
    if rows == [] then 0
    else CountNonBlank(rows[..|rows| - 1]) + if Blank(rows[|rows| - 1]) then 0 else 1
  }

  /** No more entries than non-blank rows below the header. */
  lemma {:induction false} DeviceEntriesBound(rows: seq<string>, cols: Columns)
    ensures |DeviceEntries(rows, cols)| <= CountNonBlank(rows) <= |rows|
  {
    if rows != [] {
      DeviceEntriesBound(rows[..|rows| - 1], cols);
    }
  }

  /** `e` is what some non-blank row contributes. */
  predicate FromSomeRow(rows: seq<string>, cols: Columns, e: string) {
    exists row :: row in rows && DeviceEntry(row, cols) == Some(e)
  }

  lemma DeviceEntriesSnoc(rows: seq<string>, cols: Columns)
    requires rows != []
    ensures var e := DeviceEntry(rows[|rows| - 1], cols);
            DeviceEntries(rows, cols) == DeviceEntries(rows[..|rows| - 1], cols) + (if e.Some? then [e.value] else [])
  {
  }

  /** A row of a prefix is a row of the whole. */
  lemma FromSomeRowOfInit(rows: seq<string>, cols: Columns, e: string)
    requires rows != [] && FromSomeRow(rows[..|rows| - 1], cols, e)
    ensures FromSomeRow(rows, cols, e)
  {
    var row :| row in rows[..|rows| - 1] && DeviceEntry(row, cols) == Some(e);
    assert row in rows;
  }

  /** Every entry comes from some non-blank row. */
  lemma {:induction false} DeviceEntriesFromRows(rows: seq<string>, cols: Columns)
    ensures forall e :: e in DeviceEntries(rows, cols) ==> FromSomeRow(rows, cols, e)
  {
    if rows != [] {
      var last := |rows| - 1;
      var init := rows[..last];
      DeviceEntriesFromRows(init, cols);
      DeviceEntriesSnoc(rows, cols);
      forall e | e in DeviceEntries(rows, cols) ensures FromSomeRow(rows, cols, e) {
        if e in DeviceEntries(init, cols) {
          FromSomeRowOfInit(rows, cols, e);
        } else {
          assert rows[last] in rows && DeviceEntry(rows[last], cols) == Some(e);
        }
      }
    }
  }

  lemma {:induction false} DeviceEntriesNone(rows: seq<string>, cols: Columns)
    requires forall i :: 0 <= i < |rows| ==> DeviceEntry(rows[i], cols).None?
    ensures DeviceEntries(rows, cols) == []
  {
    if rows != [] {
      DeviceEntriesNone(rows[..|rows| - 1], cols);
    }
  }

  /**
   * A header without SIZE, TYPE or MOUNTPOINT yields no device at all: the
   * missing column starts at 0, which leaves the field before it empty in
   * every row.
   */
  lemma StorageNeedsAllColumns(output: string)
    requires !Contains(StorageHeader(output), "SIZE") || !Contains(StorageHeader(output), "TYPE")
             || !Contains(StorageHeader(output), "MOUNTPOINT")
    ensures StorageSummary(output) == []
  {
    var cols := HeaderColumns(StorageHeader(output));
    var rows := StorageRows(output);
    forall i | 0 <= i < |rows| ensures DeviceEntry(rows[i], cols).None? {
      var row := rows[i];
      if !Contains(StorageHeader(output), "SIZE") {
        assert Trim(Cut(row, cols.name, cols.size)) == [];
      } else if !Contains(StorageHeader(output), "TYPE") {
        assert Trim(Cut(row, cols.size, cols.devType)) == [];
      } else {
        assert Trim(Cut(row, cols.devType, cols.mount)) == [];
      }
    }
    DeviceEntriesNone(rows, cols);
  }
}
