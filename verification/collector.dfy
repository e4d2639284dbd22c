/** The small pure steps of data collection: reading profile names from
    the credentials file's section headers, and the RAM and disk figures
    recorded for an EC2 instance, measured when the metrics command
    succeeded and estimated from CPU otherwise. */
module Collector {
  import opened Text
  import opened SsmMetrics

  /** A stripped line that opens with `[` and closes with `]`; such a line
      has at least two characters. */
  predicate IsHeader(s: string) {
    |s| >= 2 && s[0] == '[' && s[|s| - 1] == ']'
  }

  /** The name inside a header: Python's `s[1:-1]`. */
  function HeaderName(s: string): string
    requires IsHeader(s)
  {
    s[1..|s| - 1]
  }

  /** The header line of a profile name. */
  function HeaderLine(name: string): string {
    "[" + name + "]"
  }

  /** A header is the header line of its name. */
  lemma HeaderShape(s: string)
    requires IsHeader(s)
    ensures s == HeaderLine(HeaderName(s))
  {
  }

  /** The names of the headers among already stripped lines, in order;
      every name's header line is one of them. */
  function HeaderNames(stripped: seq<string>): (names: seq<string>)
    ensures |names| <= |stripped|
    ensures forall p :: p in names ==> HeaderLine(p) in stripped
  {
    if stripped == [] then []
    else
      var rest := HeaderNames(stripped[1..]);
      assert forall l :: l in stripped[1..] ==> l in stripped;
      if IsHeader(stripped[0]) then
        HeaderShape(stripped[0]);
        [HeaderName(stripped[0])] + rest
      else rest
  }

  lemma {:induction false} HeaderNamesAppend(a: seq<string>, b: seq<string>)
    ensures HeaderNames(a + b) == HeaderNames(a) + HeaderNames(b)
  {
    if a == [] {
      assert a + b == b;
    } else {
      assert (a + b)[1..] == a[1..] + b;
      HeaderNamesAppend(a[1..], b);
    }
  }

  /** Every line of the file, stripped. */
  function StrippedLines(lines: seq<string>): (stripped: seq<string>)
    ensures |stripped| == |lines|
    ensures forall i :: 0 <= i < |lines| ==> stripped[i] == Strip(lines[i])
  {
    seq(|lines|, i requires 0 <= i < |lines| => Strip(lines[i]))
  }

  /** `get_aws_profiles` over the file's lines: the names of the section
      headers, in file order; each one comes from a line whose strip is its
      header line. */
  function ProfileHeaders(lines: seq<string>): (profiles: seq<string>)
    ensures |profiles| <= |lines|
    ensures forall p :: p in profiles ==> exists i :: 0 <= i < |lines| && Strip(lines[i]) == HeaderLine(p)
  {
    var stripped := StrippedLines(lines);
    var profiles := HeaderNames(stripped);
    forall p | p in profiles
      ensures exists i :: 0 <= i < |lines| && Strip(lines[i]) == HeaderLine(p)
    {
      var i :| 0 <= i < |stripped| && stripped[i] == HeaderLine(p);
    }
    profiles
  }

  /** A line that is not a header, after stripping, names no profile. */
  lemma OtherLinesIgnored(line: string)
    requires !IsHeader(Strip(line))
    ensures ProfileHeaders([line]) == []
  {
    assert StrippedLines([line]) == [Strip(line)];
  }

  /** A header line is already stripped: it starts and ends with a
      bracket. */
  lemma HeaderLineIsStripped(name: string)
    ensures Strip(HeaderLine(name)) == HeaderLine(name)
  {
    var line := HeaderLine(name);
    assert line[0] == '[' && line[|line| - 1] == ']';
    assert IsStripped(line);
    StripOfStripped(line);
  }

  /** Reading back the header of a name gives the name. */
  lemma HeaderRoundTrip(name: string)
    ensures HeaderNames([HeaderLine(name)]) == [name]
  {
    var line := HeaderLine(name);
    assert IsHeader(line);
    assert HeaderName(line) == name;
  }

  /** The header lines of some names. */
  function HeaderLines(names: seq<string>): (lines: seq<string>)
    ensures |lines| == |names|
    ensures forall i :: 0 <= i < |names| ==> lines[i] == HeaderLine(names[i])
  {
    seq(|names|, i requires 0 <= i < |names| => HeaderLine(names[i]))
  }

  lemma {:induction false} HeaderNamesOfHeaderLines(names: seq<string>)
    ensures HeaderNames(HeaderLines(names)) == names
  {
    if names != [] {
      assert HeaderLines(names) == [HeaderLine(names[0])] + HeaderLines(names[1..]);
      HeaderNamesOfHeaderLines(names[1..]);
      HeaderRoundTrip(names[0]);
      HeaderNamesAppend([HeaderLine(names[0])], HeaderLines(names[1..]));
      assert names == [names[0]] + names[1..];
    }
  }

  /** A file written as one header per name lists exactly those names. */
  lemma ProfilesOfHeaderLines(names: seq<string>)
    ensures ProfileHeaders(HeaderLines(names)) == names
  {
    var lines := HeaderLines(names);
    forall i | 0 <= i < |lines|
      ensures StrippedLines(lines)[i] == lines[i]
    {
      HeaderLineIsStripped(names[i]);
    }
    assert StrippedLines(lines) == lines;
    HeaderNamesOfHeaderLines(names);
  }

  /** The RAM estimate used when the metrics command failed: high CPU is
      assumed to come with high memory, capped at 80% (60% for moderate
      CPU); low CPU is assumed to use 25%. The estimate is never below 25%
      and is above the moderate cap exactly for high CPU. */
  function FallbackRamEstimate(cpuUtil: real): (ram: real)
    ensures 25.0 <= ram <= 80.0
    ensures ram == 25.0 <==> cpuUtil <= 30.0
    ensures ram > 60.0 <==> cpuUtil > 70.0
  {
    if cpuUtil > 70.0 then (if 80.0 < cpuUtil * 1.1 then 80.0 else cpuUtil * 1.1)
    else if cpuUtil > 30.0 then (if 60.0 < cpuUtil * 1.3 then 60.0 else cpuUtil * 1.3)
    else 25.0
  }

  /** More CPU never lowers the estimate. */
  lemma FallbackRamMonotone(x: real, y: real)
    requires x <= y
    ensures FallbackRamEstimate(x) <= FallbackRamEstimate(y)
  {
  }

  /** The RAM and disk percentages recorded for an EC2 instance: the
      measured ones when the metrics command succeeded, otherwise the CPU
      estimate and a disk usage of 0. */
  function RecordedRamAndDisk(m: Metrics, cpuUtil: real): (ramDisk: (real, real))
    ensures m.success ==> ramDisk == (m.memoryPercent, m.diskUsageAvg)
    ensures !m.success ==> ramDisk == (FallbackRamEstimate(cpuUtil), 0.0)
    ensures !m.success ==> 25.0 <= ramDisk.0 <= 80.0
  {
    if m.success then (m.memoryPercent, m.diskUsageAvg) else (FallbackRamEstimate(cpuUtil), 0.0)
  }

  /** Whatever the command printed, or if it printed nothing usable, the
      recorded RAM and disk figures are percentages. */
  lemma RecordedFiguresArePercentages(lines: seq<string>, parse: string -> FloatParse, cpuUtil: real)
    ensures var ramDisk := RecordedRamAndDisk(Extract(lines, parse), cpuUtil);
      0.0 <= ramDisk.0 <= 100.0 && 0.0 <= ramDisk.1 <= 100.0
  {
  }
}
