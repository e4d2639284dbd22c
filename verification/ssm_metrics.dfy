/** The parser of the in-guest command output (`get_fixed_ssm_metrics`).

    The remote command batch prints, one item per line: the memory
    percentage; up to five `device:NN%` lines, one per mounted `/dev/`
    filesystem; the average disk percentage; and up to three
    `filesystem:size:used:percent` lines for mounted EFS shares. The EFS
    probe ends in `|| echo 'NO_EFS'`, but the status of its pipeline is
    that of the final `head`, which succeeds on empty input, so `NO_EFS` is
    never printed. The parser nevertheless reads the output positionally,
    as if the last line were always the EFS line, and tolerates a failure
    on any line without giving up on the others. */
module SsmMetrics {
  import opened Options
  import opened Text
  import opened RealSeq

  /** One accepted filesystem line. */
  datatype DiskEntry = DiskEntry(filesystem: string, usagePercent: real)

  /** The four fields of an EFS mount line. */
  datatype EfsDetails = EfsDetails(filesystem: string, size: string, used: string, percent: string)

  /** The metrics record the parser fills in. */
  datatype Metrics = Metrics(
    memoryPercent: real,
    success: bool,
    diskDetails: seq<DiskEntry>,
    diskUsageAvg: real,
    efsAttached: bool,
    efsDetails: Option<EfsDetails>)

  /** The record before any line is looked at. */
  const Unparsed := Metrics(0.0, false, [], 0.0, false, None)

  /** The sentinel the parser looks for on the EFS line (the probe's
      fallback, which its pipeline never reaches). */
  const NoEfs := "NO_EFS"

  /** The memory reading: the first line, when it parses into `[0, 100]`. */
  function MemoryReading(lines: seq<string>, parse: string -> FloatParse): (r: Option<real>)
    ensures r.Some? <==> |lines| > 0 && InPercentRange(parse(lines[0]))
    ensures r.Some? ==> r.value == parse(lines[0]).value && 0.0 <= r.value <= 100.0
  {
    if |lines| > 0 && InPercentRange(parse(lines[0])) then Some(parse(lines[0]).value) else None
  }

  /** The exclusive end of the filesystem lines: the last two lines are
      reserved (average, EFS) when there are more than three lines, the last
      one (average) otherwise. */
  function DiskLinesEnd(n: nat): int {
    if n > 3 then n - 2 else n - 1
  }

  /** The lines examined as filesystem lines: indices `1 .. DiskLinesEnd - 1`. */
  function DiskLines(lines: seq<string>): (middle: seq<string>)
    ensures |lines| <= 2 ==> middle == []
    ensures |lines| == 3 ==> middle == [lines[1]]
    ensures |lines| > 3 ==> middle == lines[1..|lines| - 2]
  {
    var e := DiskLinesEnd(|lines|);
    if e > 1 then lines[1..e] else []
  }

  /** One filesystem line: accepted when it holds a `:` and the text after
      the first `:`, with every `%` removed, parses into `[0, 100]`. */
  function ParseDiskLine(line: string, parse: string -> FloatParse): (r: Option<DiskEntry>)
    ensures r.Some? <==>
              ':' in line && InPercentRange(parse(RemoveChar(SplitFirst(line, ':').1, '%')))
    ensures r.Some? ==>
              && line == r.value.filesystem + [':'] + SplitFirst(line, ':').1
              && ':' !in r.value.filesystem
              && r.value.usagePercent == parse(RemoveChar(SplitFirst(line, ':').1, '%')).value
              && 0.0 <= r.value.usagePercent <= 100.0
  {
    if ':' !in line then None
    else
      var halves := SplitFirst(line, ':');
      var p := parse(RemoveChar(halves.1, '%'));
      if InPercentRange(p) then Some(DiskEntry(halves.0, p.value)) else None
  }

  /** The accepted entries of `lines`, in input order. */
  function DiskEntries(lines: seq<string>, parse: string -> FloatParse): (entries: seq<DiskEntry>)
    ensures |entries| <= |lines|
  {
    if lines == [] then []
    else
      match ParseDiskLine(lines[0], parse)
      case Some(e) => [e] + DiskEntries(lines[1..], parse)
      case None => DiskEntries(lines[1..], parse)
  }

  /** Filesystem lines are judged one by one: the entries of a concatenation
      are the concatenation of the entries. */
  lemma {:induction false} DiskEntriesAppend(a: seq<string>, b: seq<string>, parse: string -> FloatParse)
    ensures DiskEntries(a + b, parse) == DiskEntries(a, parse) + DiskEntries(b, parse)
  {
    if a == [] {
      assert a + b == b;
    } else {
      assert (a + b)[0] == a[0];
      assert (a + b)[1..] == a[1..] + b;
      DiskEntriesAppend(a[1..], b, parse);
    }
  }

  /** A rejected line is skipped and leaves the entries of its neighbours
      as they were. */
  lemma RejectedLineSkipped(a: seq<string>, line: string, b: seq<string>, parse: string -> FloatParse)
    requires ParseDiskLine(line, parse).None?
    ensures DiskEntries(a + [line] + b, parse) == DiskEntries(a, parse) + DiskEntries(b, parse)
  {
    DiskEntriesAppend(a + [line], b, parse);
    DiskEntriesAppend(a, [line], parse);
  }

  /** An accepted line contributes exactly its own entry, in its position. */
  lemma AcceptedLineKept(a: seq<string>, line: string, b: seq<string>, parse: string -> FloatParse)
    requires ParseDiskLine(line, parse).Some?
    ensures DiskEntries(a + [line] + b, parse)
            == DiskEntries(a, parse) + [ParseDiskLine(line, parse).value] + DiskEntries(b, parse)
  {
    DiskEntriesAppend(a + [line], b, parse);
    DiskEntriesAppend(a, [line], parse);
  }

  /** Every accepted entry is a percentage. */
  lemma {:induction false} DiskEntriesInRange(lines: seq<string>, parse: string -> FloatParse)
    ensures forall i :: 0 <= i < |DiskEntries(lines, parse)| ==>
              0.0 <= DiskEntries(lines, parse)[i].usagePercent <= 100.0
  {
    if lines != [] {
      DiskEntriesInRange(lines[1..], parse);
    }
  }

  /** The usage percentages of the accepted entries. */
  function Usages(entries: seq<DiskEntry>): (us: seq<real>)
    ensures |us| == |entries|
    ensures forall i :: 0 <= i < |entries| ==> us[i] == entries[i].usagePercent
  {
    if entries == [] then [] else [entries[0].usagePercent] + Usages(entries[1..])
  }

  /** The mean of percentages is a percentage. */
  lemma AverageOfPercentages(usages: seq<real>)
    requires Within(usages, 0.0, 100.0)
    ensures usages != [] ==> 0.0 <= Mean(usages) <= 100.0
  {
    if usages != [] {
      MeanBounds(usages, 0.0, 100.0);
    }
  }

  /** The line that carries the pre-computed average: the second-to-last
      when there are more than three lines, the last when there are three. */
  function AverageLine(lines: seq<string>): string
    requires |lines| > 2
  {
    if |lines| > 3 then lines[|lines| - 2] else lines[|lines| - 1]
  }

  /** The average disk usage: the average line when it parses into range; 0
      when it parses to a number out of range; the mean of the accepted
      filesystem values only when it fails to parse at all. */
  function AverageDisk(lines: seq<string>, usages: seq<real>, parse: string -> FloatParse): real {
    if |lines| > 2 then
      var p := parse(AverageLine(lines));
      if p.Rejected? then (if usages != [] then Mean(usages) else 0.0)
      else if InPercentRange(p) then p.value
      else 0.0
    else if usages != [] then Mean(usages)
    else 0.0
  }

  /** The EFS line, consulted only when there are more than three lines:
      anything but empty or `NO_EFS` marks EFS as attached, and details are
      recorded only when the line splits into at least four `:` parts. */
  function EfsStatus(lines: seq<string>): (status: (bool, Option<EfsDetails>))
    ensures |lines| > 3 && status.0 && |Split(Strip(lines[|lines| - 1]), ':')| >= 4 ==> status.1.Some?
  {
    if |lines| > 3 then
      var efs := Strip(lines[|lines| - 1]);
      if efs != [] && efs != NoEfs then
        var parts := Split(efs, ':');
        SplitPartsNeedSeparator(efs, ':');
        if ':' in efs && |parts| >= 4 then (true, Some(EfsDetails(parts[0], parts[1], parts[2], parts[3])))
        else (true, None)
      else (false, None)
    else (false, None)
  }

  /** The whole parser, from the list of stripped non-blank output lines to
      the metrics record. */
  function Extract(lines: seq<string>, parse: string -> FloatParse): (m: Metrics)
    // memory and the success flag depend on the first line alone
    ensures m.success <==> |lines| > 0 && InPercentRange(parse(lines[0]))
    ensures m.success ==> m.memoryPercent == parse(lines[0]).value
    ensures !m.success ==> m.memoryPercent == 0.0
    ensures 0.0 <= m.memoryPercent <= 100.0
    // filesystem lines
    ensures m.diskDetails == DiskEntries(DiskLines(lines), parse)
    ensures forall i :: 0 <= i < |m.diskDetails| ==> 0.0 <= m.diskDetails[i].usagePercent <= 100.0
    // the average
    ensures 0.0 <= m.diskUsageAvg <= 100.0
    ensures |lines| <= 2 ==> m.diskUsageAvg == 0.0
    ensures |lines| > 2 && InPercentRange(parse(AverageLine(lines))) ==>
              m.diskUsageAvg == parse(AverageLine(lines)).value
    ensures |lines| > 2 && !parse(AverageLine(lines)).Rejected? && !InPercentRange(parse(AverageLine(lines))) ==>
              m.diskUsageAvg == 0.0
    ensures |lines| > 2 && parse(AverageLine(lines)).Rejected? ==>
              m.diskUsageAvg == (if m.diskDetails == [] then 0.0 else Mean(Usages(m.diskDetails)))
    // EFS
    ensures |lines| <= 3 ==> !m.efsAttached && m.efsDetails == None
    ensures |lines| > 3 ==> (m.efsAttached <==> Strip(lines[|lines| - 1]) !in {[], NoEfs})
    ensures m.efsDetails.Some? ==> m.efsAttached
    ensures m.efsDetails.Some? ==>
              var parts := Split(Strip(lines[|lines| - 1]), ':');
              |parts| >= 4 && m.efsDetails.value == EfsDetails(parts[0], parts[1], parts[2], parts[3])
    ensures |lines| > 3 && m.efsAttached && |Split(Strip(lines[|lines| - 1]), ':')| >= 4 ==>
              m.efsDetails.Some?
  {
    var memory := MemoryReading(lines, parse);
    var entries := DiskEntries(DiskLines(lines), parse);
    var usages := Usages(entries);
    DiskEntriesInRange(DiskLines(lines), parse);
    assert Within(usages, 0.0, 100.0);
    AverageOfPercentages(usages);
    var efs := EfsStatus(lines);
    Metrics(
      memoryPercent := memory.GetOr(0.0),
      success := memory.Some?,
      diskDetails := entries,
      diskUsageAvg := AverageDisk(lines, usages, parse),
      efsAttached := efs.0,
      efsDetails := efs.1)
  }

  /** Lines as the command output yields them: non-empty and stripped. */
  ghost predicate WellFormedLines(lines: seq<string>) {
    forall i :: 0 <= i < |lines| ==> lines[i] != [] && IsStripped(lines[i])
  }

  /** On well-formed lines, EFS is reported attached exactly when there are
      more than three lines and the last one is not `NO_EFS`. */
  lemma EfsAttachedIff(lines: seq<string>, parse: string -> FloatParse)
    requires WellFormedLines(lines)
    ensures Extract(lines, parse).efsAttached <==> |lines| > 3 && lines[|lines| - 1] != NoEfs
  {
    var m := Extract(lines, parse);
    if |lines| > 3 {
      var last := lines[|lines| - 1];
      assert last != [] && IsStripped(last);
      StripOfStripped(last);
      assert m.efsAttached <==> last !in {[], NoEfs};
    } else {
      assert !m.efsAttached;
    }
  }

  /** The end-to-end parse of a command's standard output. */
  function MetricsFromOutput(stdout: string, parse: string -> FloatParse): (m: Metrics)
    ensures var lines := CommandLines(stdout);
            m.efsAttached <==> |lines| > 3 && lines[|lines| - 1] != NoEfs
    ensures Strip(stdout) == [] ==> m == Unparsed
    ensures Strip(stdout) != [] ==> m == Extract(CommandLines(stdout), parse)
  {
    var lines := CommandLines(stdout);
    assert WellFormedLines(lines) by {
      forall i | 0 <= i < |lines| ensures lines[i] != [] && IsStripped(lines[i]) {
        assert lines[i] in lines;
      }
    }
    EfsAttachedIff(lines, parse);
    Extract(lines, parse)
  }

  /** Output printed one line per item, with or without a final newline, is
      parsed as exactly those lines. */
  lemma MetricsOfPrintedLines(lines: seq<string>, parse: string -> FloatParse)
    requires lines != []
    requires forall i :: 0 <= i < |lines| ==> lines[i] != [] && IsStripped(lines[i]) && '\n' !in lines[i]
    ensures MetricsFromOutput(Join(lines, '\n'), parse) == Extract(lines, parse)
    ensures MetricsFromOutput(Join(lines, '\n') + "\n", parse) == Extract(lines, parse)
  {
    CommandLinesOfPrintedLines(lines);
    JoinStart(lines, '\n');
    JoinEnd(lines, '\n');
    StripOfStripped(Join(lines, '\n'));
    StripTrailingNewline(Join(lines, '\n'));
  }

  /** Memory only: success, no filesystem entries, average 0, no EFS. */
  lemma MemoryOnlyOutput(parse: string -> FloatParse)
    requires parse("10.0") == Finite(10.0)
    ensures Extract(["10.0"], parse)
            == Metrics(10.0, true, [], 0.0, false, None)
  {
  }

  /** The four-probe output of a host with one disk and no EFS share: a
      memory line, one `device:NN%` line, an average line, `NO_EFS`. */
  lemma {:induction false} OneDiskNoEfs(mem: string, device: string, pct: string, avg: string,
                                        parse: string -> FloatParse)
    requires ':' !in device && '%' !in pct
    requires InPercentRange(parse(mem)) && InPercentRange(parse(pct)) && InPercentRange(parse(avg))
    ensures Extract([mem, device + ":" + pct + "%", avg, NoEfs], parse)
            == Metrics(parse(mem).value, true, [DiskEntry(device, parse(pct).value)],
                       parse(avg).value, false, None)
  {
    var line := device + ":" + pct + "%";
    var lines := [mem, line, avg, NoEfs];
    SplitFirstUnique(device, ':', pct + "%");
    assert device + [':'] + (pct + "%") == line;
    RemoveCharAppend(pct, "%", '%');
    assert RemoveChar("%", '%') == [];
    assert RemoveChar(pct + "%", '%') == pct;
    assert ParseDiskLine(line, parse) == Some(DiskEntry(device, parse(pct).value));
    assert DiskLines(lines) == [line];
    assert DiskEntries([line], parse) == [DiskEntry(device, parse(pct).value)];
    StripOfStripped(NoEfs);
    assert EfsStatus(lines) == (false, None);
    assert AverageLine(lines) == avg;
  }

  /** What a host with one `/dev/` filesystem and no EFS share actually
      prints: memory, one `device:NN%` line, the average. Three lines are
      read correctly, with no EFS. */
  lemma {:induction false} OneDiskWithoutEfs(mem: string, device: string, pct: string, avg: string,
                                             parse: string -> FloatParse)
    requires ':' !in device && '%' !in pct
    requires InPercentRange(parse(mem)) && InPercentRange(parse(pct)) && InPercentRange(parse(avg))
    ensures Extract([mem, device + ":" + pct + "%", avg], parse)
            == Metrics(parse(mem).value, true, [DiskEntry(device, parse(pct).value)],
                       parse(avg).value, false, None)
  {
    var line := device + ":" + pct + "%";
    DiskLineOf(device, pct, parse);
    assert DiskLines([mem, line, avg]) == [line];
    assert DiskEntries([line], parse) == [DiskEntry(device, parse(pct).value)];
    assert AverageLine([mem, line, avg]) == avg;
  }

  /** What a host with two `/dev/` filesystems and no EFS share actually
      prints is four lines, and the parser takes them for memory, one
      filesystem, the average and the EFS line: the second filesystem line
      is read as the average, fails to parse, and the average falls back to
      the first filesystem alone; the real average line marks EFS as
      attached, without details. */
  lemma {:induction false} TwoDisksWithoutEfs(mem: string, d1: string, p1: string, d2: string, p2: string,
                                              avg: string, parse: string -> FloatParse)
    requires ':' !in d1 && '%' !in p1
    requires InPercentRange(parse(mem)) && InPercentRange(parse(p1))
    requires parse(d2 + ":" + p2 + "%").Rejected?
    requires avg != [] && IsStripped(avg) && ':' !in avg && avg != NoEfs
    ensures Extract([mem, d1 + ":" + p1 + "%", d2 + ":" + p2 + "%", avg], parse)
            == Metrics(parse(mem).value, true, [DiskEntry(d1, parse(p1).value)],
                       parse(p1).value, true, None)
  {
    var line1 := d1 + ":" + p1 + "%";
    var line2 := d2 + ":" + p2 + "%";
    var lines := [mem, line1, line2, avg];
    DiskLineOf(d1, p1, parse);
    assert DiskLines(lines) == [line1];
    assert DiskEntries([line1], parse) == [DiskEntry(d1, parse(p1).value)];
    assert Usages([DiskEntry(d1, parse(p1).value)]) == [parse(p1).value];
    MeanBounds([parse(p1).value], parse(p1).value, parse(p1).value);
    assert AverageLine(lines) == line2;
    StripOfStripped(avg);
    NoOccurrences(avg, ':');
    assert Split(avg, ':') == [avg];
    assert EfsStatus(lines) == (true, None);
  }

  /** A `device:NN%` line is accepted with that device and percentage. */
  lemma DiskLineOf(device: string, pct: string, parse: string -> FloatParse)
    requires ':' !in device && '%' !in pct
    requires InPercentRange(parse(pct))
    ensures ParseDiskLine(device + ":" + pct + "%", parse) == Some(DiskEntry(device, parse(pct).value))
  {
    var line := device + ":" + pct + "%";
    SplitFirstUnique(device, ':', pct + "%");
    assert device + [':'] + (pct + "%") == line;
    RemoveCharAppend(pct, "%", '%');
    assert RemoveChar("%", '%') == [];
    assert RemoveChar(pct + "%", '%') == pct;
  }

  /** The concrete sample `42.50`, `/dev/sda1:55%`, `30.00`, `NO_EFS`. */
  lemma SampleOutput(parse: string -> FloatParse)
    requires parse("42.50") == Finite(42.5)
    requires parse("55") == Finite(55.0)
    requires parse("30.00") == Finite(30.0)
    ensures Extract(["42.50", "/dev/sda1:55%", "30.00", NoEfs], parse)
            == Metrics(42.5, true, [DiskEntry("/dev/sda1", 55.0)], 30.0, false, None)
  {
    assert "/dev/sda1" + ":" + "55" + "%" == "/dev/sda1:55%";
    OneDiskNoEfs("42.50", "/dev/sda1", "55", "30.00", parse);
  }

  /** A parseable average outside `[0, 100]` yields 0 even when filesystem
      lines were accepted: the mean is only a fallback for a parse failure. */
  lemma OutOfRangeAverageHasNoFallback(parse: string -> FloatParse)
    requires parse("50") == Finite(50.0)
    requires parse("150") == Finite(150.0)
    ensures Extract(["42.50", "/dev/sda1:50", "150", NoEfs], parse).diskUsageAvg == 0.0
  {
  }
}
