// CPU accounting: the kernel's cumulative counters, and the percentage of time
// spent busy between one reading and the next.
module Cpu {
  import opened Wrappers
  import opened Text
  import opened Numbers
  import opened Numerals

  // Cumulative busy and total jiffies, as uint64 counters.
  datatype Sample = Sample(busy: int, total: int)

  predicate Counters(s: Sample) {
    0 <= s.busy < TWO_64 && 0 <= s.total < TWO_64
  }

  // ---- reading /proc/stat ----

  // The exact sum of all columns, and of the idle and iowait columns.
  function Total(columns: seq<int>): int {
    if columns == [] then 0 else Total(columns[..|columns| - 1]) + columns[|columns| - 1]
  }

  function Idle(columns: seq<int>): int {
    (if |columns| > 3 then columns[3] else 0) + (if |columns| > 4 then columns[4] else 0)
  }

  function SampleOf(columns: seq<int>): Sample {
    Sample(UInt64(Total(columns) - Idle(columns)), UInt64(Total(columns)))
  }

  // Totals add up over any parts of a line; and busy is the total without the fourth
  // and fifth columns, both modulo 2^64.
  lemma {:induction false} TotalExactly(a: seq<int>, b: seq<int>)
    ensures Total(a + b) == Total(a) + Total(b)
    ensures Total([]) == 0 && forall x :: Total([x]) == x
  {
    assert forall x: int :: [x][..0] == [];
    if b == [] {
      assert a + b == a;
    } else {
      TotalExactly(a, b[..|b| - 1]);
      assert (a + b)[..|a + b| - 1] == a + b[..|b| - 1];
    }
  }

  lemma SampleExactly(columns: seq<int>)
    ensures SampleOf(columns) ==
      Sample(Total(Others(columns)) % 0x1_0000_0000_0000_0000, Total(columns) % 0x1_0000_0000_0000_0000)
  {
    OthersAreRest(columns);
    hide Total, Idle, Others;
  }

  // All columns but the fourth and fifth.
  function Others(columns: seq<int>): seq<int> {
    columns[..Min(3, |columns|)] + columns[Min(5, |columns|)..]
  }

  lemma OthersAreRest(columns: seq<int>)
    ensures Total(Others(columns)) == Total(columns) - Idle(columns)
  {
    var i, j := Min(3, |columns|), Min(5, |columns|);
    TotalWithout(columns, i, j);
    TotalOfTwo(columns[i..j]);
    hide Total;
  }

  lemma TotalWithout(columns: seq<int>, i: nat, j: nat)
    requires i <= j <= |columns|
    ensures Total(columns[..i] + columns[j..]) == Total(columns) - Total(columns[i..j])
  {
    var front, cut, back := columns[..i], columns[i..j], columns[j..];
    TotalExactly(front + cut, back);
    TotalExactly(front, cut);
    TotalExactly(front, back);
    hide Total;
    assert columns == front + cut + back;
  }

  lemma TotalOfTwo(s: seq<int>)
    ensures |s| == 0 ==> Total(s) == 0
    ensures |s| == 1 ==> Total(s) == s[0]
    ensures |s| == 2 ==> Total(s) == s[0] + s[1]
  {
    if s != [] {
      assert |s[..|s| - 1]| == |s| - 1;
    }
  }

  function FirstLine(content: string): string {
    Split(content, '\n')[0]
  }

  function Columns(fields: seq<string>): (columns: seq<int>)
    ensures forall i :: 0 <= i < |columns| ==> 0 <= columns[i] < TWO_64
  {
    seq(if fields == [] then 0 else |fields| - 1, i requires 0 <= i < |fields| - 1 => ParseUint(fields[i + 1]))
  }

  lemma NoColumns(columns: seq<int>)
    ensures UInt64(Total(columns[..0])) == 0 && UInt64(Idle(columns[..0])) == 0
  {
  }

  // One turn of the loop below.
  lemma OneColumn(columns: seq<int>, i: nat)
    requires i < |columns|
    ensures UInt64(UInt64(Total(columns[..i])) + columns[i]) == UInt64(Total(columns[..i + 1]))
    ensures UInt64(Idle(columns[..i + 1])) ==
      if i == 3 || i == 4 then UInt64(UInt64(Idle(columns[..i])) + columns[i]) else UInt64(Idle(columns[..i]))
  {
    assert columns[..i + 1][..i] == columns[..i];
    UInt64Add(Total(columns[..i]), columns[i]);
    UInt64Add(Idle(columns[..i]), columns[i]);
    assert Idle(columns[..i + 1]) == Idle(columns[..i]) + if i == 3 || i == 4 then columns[i] else 0;
  }

  // The accumulation loop of readCPUSample, over the fields of the line.
  method Accumulate(fields: seq<string>) returns (busy: int, total: int)
    requires fields != []
    ensures Sample(busy, total) == SampleOf(Columns(fields))
  {
    ghost var columns := Columns(fields);
    hide UInt64, ParseUint, Total, Idle;
    NoColumns(columns);
    total := 0;
    var idle := 0;
    for i := 0 to |fields| - 1
      invariant total == UInt64(Total(columns[..i]))
      invariant idle == UInt64(Idle(columns[..i]))
    {
      OneColumn(columns, i);
      var v := ParseUint(fields[i + 1]);
      total := UInt64(total + v);
      if i == 3 || i == 4 {
        idle := UInt64(idle + v);
      }
    }
    assert columns[..|fields| - 1] == columns;
    UInt64Sub(Total(columns), Idle(columns));
    busy := UInt64(total - idle);
  }

  // readCPUSample, on the contents of the file if it can be read.
  method ReadCPUSample(content: Option<string>) returns (sample: Option<Sample>)
    ensures sample.Some? <==>
      && content.Some? && |Fields(FirstLine(content.value))| >= 5 && Fields(FirstLine(content.value))[0] == "cpu"
    ensures sample.Some? ==> sample.value == SampleOf(Columns(Fields(FirstLine(content.value))))
  {
    if content.None? {
      return None;
    }
    var line := Split(content.value, '\n')[0];
    var fields := Fields(line);
    if |fields| < 5 || fields[0] != "cpu" {
      return None;
    }
    var busy, total := Accumulate(fields);
    return Some(Sample(busy, total));
  }

  // The line as the kernel writes it: "cpu", two spaces, and decimal columns.
  function KernelColumns(columns: seq<nat>): string {
    if columns == [] then "" else " " + Decimal(columns[0]) + KernelColumns(columns[1..])
  }

  lemma {:induction false} FieldsOfKernelColumns(columns: seq<nat>)
    requires forall i :: 0 <= i < |columns| ==> columns[i] < TWO_64
    ensures var fields := Fields(KernelColumns(columns));
      && |fields| == |columns|
      && forall i :: 0 <= i < |columns| ==> ParseUint(fields[i]) == columns[i]
    ensures columns != [] ==> KernelColumns(columns)[0] == ' '
    ensures '\n' !in KernelColumns(columns)
  {
    if columns != [] {
      hide ParseUint, Decimal;
      var rest := KernelColumns(columns[1..]);
      FieldsOfKernelColumns(columns[1..]);
      FieldsOfColumn(columns[0], rest);
    }
  }

  lemma FieldsOfColumn(n: nat, rest: string)
    requires n < TWO_64 && (rest == "" || rest[0] == ' ')
    ensures var fields := Fields(" " + Decimal(n) + rest);
      |fields| == 1 + |Fields(rest)| && ParseUint(fields[0]) == n && fields[1..] == Fields(rest)
    ensures '\n' !in Decimal(n)
  {
    NumeralOfDecimal(n);
    DigitsAllSolid(Decimal(n));
    ParseUintOfDecimal(n);
    hide *;
    FieldsOfSpaced(Decimal(n), rest);
  }

  lemma {:induction false} DigitsAllSolid(s: string)
    requires AllDigits(s)
    ensures Solid(s) && '\n' !in s
  {
    forall i | 0 <= i < |s| ensures IsDigit(s[i]) && !IsSpace(s[i]) {
      DigitsAreSolid(s, i);
    }
    SolidWhen(s);
  }

  lemma {:induction false} FirstLineOf(line: string, rest: string)
    requires '\n' !in line
    ensures FirstLine(line + "\n" + rest) == line
  {
    var s := line + "\n" + rest;
    if line == "" {
      assert s[0] == '\n';
    } else {
      FirstLineOf(line[1..], rest);
      assert s[1..] == line[1..] + "\n" + rest && s[0] == line[0] != '\n';
    }
  }

  // Whatever follows it, such a line is read back column for column.
  lemma KernelLineReads(columns: seq<nat>, rest: string)
    requires |columns| >= 4 && forall i :: 0 <= i < |columns| ==> columns[i] < TWO_64
    ensures var fields := Fields(FirstLine("cpu " + KernelColumns(columns) + "\n" + rest));
      |fields| >= 5 && fields[0] == "cpu" && Columns(fields) == columns
  {
    var tail := KernelColumns(columns);
    FieldsOfKernelColumns(columns);
    FirstLineOf("cpu " + tail, rest);
    FieldsOfLabel(tail);
  }

  lemma FieldsOfLabel(tail: string)
    ensures Fields("cpu " + tail) == ["cpu"] + Fields(tail)
  {
    assert Solid("cpu");
    assert "cpu " + tail == "cpu" + (" " + tail);
    FieldsOfWord("cpu", " " + tail);
    FieldsOfSpace(tail);
  }

  // ---- from one sample to the next ----

  // How far the total moved, and how far the busy count moved forward.
  function Ticks(prev: Sample, s: Sample): (r: int)
    ensures 0 <= r < TWO_64
  {
    UInt64(s.total - prev.total)
  }

  function BusyTicks(prev: Sample, s: Sample): (r: int)
    ensures r >= 0
  {
    if s.busy >= prev.busy then s.busy - prev.busy else 0
  }

  // The busy share of the time between two samples, before rounding.
  function Percent(prev: Option<Sample>, s: Sample): real {
    if prev.None? || Ticks(prev.value, s) == 0 then 0.0
    else
      var share := 100.0 * BusyTicks(prev.value, s) as real / Ticks(prev.value, s) as real;
      if share > 100.0 then 100.0 else share
  }

  datatype Metric = Metric(used: real, total: real, percent: real)

  class Collector {
    var hasPrev: bool
    var prevCPUBusy: int
    var prevCPUTotal: int

    constructor ()
      ensures Valid() && Prev() == None
    {
      hasPrev, prevCPUBusy, prevCPUTotal := false, 0, 0;
    }

    ghost function Prev(): Option<Sample>
      reads this
    {
      if hasPrev then Some(Sample(prevCPUBusy, prevCPUTotal)) else None
    }

    ghost predicate Valid()
      reads this
    {
      Prev().Some? ==> Counters(Prev().value)
    }

    // The CPU part of sampleCore, given what readCPUSample returned.
    method SampleCPU(reading: Option<Sample>) returns (cpu: Option<Metric>)
      requires Valid() && (reading.Some? ==> Counters(reading.value))
      modifies this
      ensures Valid()
      ensures Prev() == After(old(Prev()), [reading])
      ensures cpu.Some? <==> reading.Some?
      ensures cpu.Some? ==>
        var pct := Percent(old(Prev()), reading.value);
        cpu.value == Metric(Round1(pct), 100.0, Round1(pct))
    {
      cpu := None;
      if reading.Some? {
        var cpuBusy, cpuTotal := reading.value.busy, reading.value.total;
        var cpuPct := 0.0;
        ghost var prev := Prev();
        if hasPrev {
          var dTotal := UInt64(cpuTotal - prevCPUTotal);
          if dTotal > 0 {
            var dBusy := 0;
            if cpuBusy >= prevCPUBusy {
              dBusy := UInt64(cpuBusy - prevCPUBusy);
            }
            cpuPct := 100.0 * dBusy as real / dTotal as real;
            if cpuPct > 100.0 {
              cpuPct := 100.0;
            }
          }
        }
        assert cpuPct == Percent(prev, reading.value);
        cpu := Some(Metric(Round1(cpuPct), 100.0, Round1(cpuPct)));
        prevCPUBusy, prevCPUTotal := cpuBusy, cpuTotal;
        hasPrev := true;
      }
    }
  }

  // 0 for a first reading, and when no time passed or the busy count did not grow;
  // otherwise the growth of the busy count over that of the total, which may have
  // wrapped, at most 100.
  lemma PercentExactly(prev: Sample, s: Sample)
    requires Counters(prev) && Counters(s)
    ensures Percent(None, s) == 0.0
    ensures var ticks := if s.total >= prev.total then s.total - prev.total
                         else s.total - prev.total + 0x1_0000_0000_0000_0000;
      var busy := s.busy - prev.busy;
      && (ticks == 0 || busy <= 0 ==> Percent(Some(prev), s) == 0.0)
      && (0 < ticks <= busy ==> Percent(Some(prev), s) == 100.0)
      && (0 <= busy < ticks ==> Percent(Some(prev), s) * ticks as real == 100.0 * busy as real)
  {
    var ticks := Ticks(prev, s);
    assert ticks == if s.total >= prev.total then s.total - prev.total else s.total - prev.total + TWO_64;
    var busy := BusyTicks(prev, s);
    if ticks > 0 {
      ShareExactly(busy as real, ticks as real);
    }
  }

  lemma ShareExactly(b: real, t: real)
    requires 0.0 <= b && t > 0.0
    ensures b == 0.0 ==> 100.0 * b / t == 0.0
    ensures b <= t ==> 100.0 * b / t <= 100.0 && 100.0 * b / t * t == 100.0 * b
    ensures b >= t ==> 100.0 * b / t >= 100.0
  {
  }

  // Whatever the two samples, even across a wrap of either counter.
  lemma PercentWithin(prev: Option<Sample>, s: Sample)
    ensures 0.0 <= Percent(prev, s) <= 100.0
    ensures 0.0 <= Round1(Percent(prev, s)) <= 100.0
  {
    if prev.Some? && Ticks(prev.value, s) > 0 {
      ShareNonNegative(100.0 * BusyTicks(prev.value, s) as real, Ticks(prev.value, s) as real);
    }
  }

  lemma ShareNonNegative(a: real, b: real)
    requires a >= 0.0 && b > 0.0
    ensures a / b >= 0.0
  {
  }

  // ---- whole runs ----

  // The sample the collector remembers after a run of readings; None is a failed one.
  function After(prev: Option<Sample>, run: seq<Option<Sample>>): Option<Sample> {
    if run == [] then prev
    else if run[|run| - 1].Some? then run[|run| - 1]
    else After(prev, run[..|run| - 1])
  }

  // The first sample it ever held.
  function Baseline(prev: Option<Sample>, run: seq<Option<Sample>>): Option<Sample>
    decreases run
  {
    if prev.Some? || run == [] then prev else Baseline(run[0], run[1..])
  }

  // Percentages weighted by the time they stand for.
  function Weighted(prev: Option<Sample>, run: seq<Option<Sample>>): real {
    if run == [] then 0.0
    else
      var before := After(prev, run[..|run| - 1]);
      var last := run[|run| - 1];
      Weighted(prev, run[..|run| - 1]) +
      if before.Some? && last.Some? then Percent(before, last.value) * Ticks(before.value, last.value) as real else 0.0
  }

  // Neither the busy nor the idle count goes back.
  predicate Forward(prev: Sample, s: Sample) {
    prev.busy <= s.busy && prev.total - prev.busy <= s.total - s.busy
  }

  predicate AllForward(prev: Option<Sample>, run: seq<Option<Sample>>) {
    run != [] ==>
      var before := After(prev, run[..|run| - 1]);
      var last := run[|run| - 1];
      && AllForward(prev, run[..|run| - 1])
      && (last.Some? ==> Counters(last.value))
      && (before.Some? && last.Some? ==> Forward(before.value, last.value))
  }

  // One step of the sum: no clamping, and the time cancels.
  lemma StepWeight(prev: Sample, s: Sample)
    requires Counters(prev) && Counters(s) && Forward(prev, s)
    ensures Percent(Some(prev), s) * Ticks(prev, s) as real == 100.0 * (s.busy - prev.busy) as real
  {
    var t, b := Ticks(prev, s), BusyTicks(prev, s);
    assert t == s.total - prev.total && 0 <= b <= t;
    if t > 0 {
      ShareAtMost(b as real, t as real);
    }
  }

  lemma ShareAtMost(b: real, t: real)
    requires 0.0 <= b <= t && t > 0.0
    ensures 100.0 * b / t <= 100.0 && 100.0 * b / t * t == 100.0 * b
  {
  }

  lemma {:induction false} AfterCounters(prev: Option<Sample>, run: seq<Option<Sample>>)
    requires prev.Some? ==> Counters(prev.value)
    requires AllForward(prev, run)
    ensures After(prev, run).Some? ==> Counters(After(prev, run).value)
    ensures After(prev, run).Some? <==> Baseline(prev, run).Some?
  {
    if run != [] {
      AfterCounters(prev, run[..|run| - 1]);
      BaselineSnoc(prev, run);
    }
  }

  lemma {:induction false} BaselineSnoc(prev: Option<Sample>, run: seq<Option<Sample>>)
    requires run != []
    ensures var init := run[..|run| - 1];
      Baseline(prev, run) == if Baseline(prev, init).Some? then Baseline(prev, init) else run[|run| - 1]
    decreases run
  {
    if prev.None? && |run| > 1 {
      BaselineSnoc(run[0], run[1..]);
      assert run[1..][..|run| - 2] == run[..|run| - 1][1..];
    }
  }

  // Over counters that only go forward the weighted percentages add up to the
  // busy time gained since the first sample.
  lemma {:induction false} BusyTimeTelescopes(prev: Option<Sample>, run: seq<Option<Sample>>)
    requires prev.Some? ==> Counters(prev.value)
    requires AllForward(prev, run)
    ensures After(prev, run).Some? <==> Baseline(prev, run).Some?
    ensures Weighted(prev, run) ==
      if After(prev, run).None? then 0.0
      else 100.0 * (After(prev, run).value.busy - Baseline(prev, run).value.busy) as real
  {
    hide Percent, Ticks, Counters, Forward;
    AfterCounters(prev, run);
    if run != [] {
      var init := run[..|run| - 1];
      var last := run[|run| - 1];
      BusyTimeTelescopes(prev, init);
      AfterCounters(prev, init);
      BaselineSnoc(prev, run);
      var before := After(prev, init);
      if before.Some? && last.Some? {
        StepWeight(before.value, last.value);
      }
    }
  }

  // A failed reading changes nothing, wherever it falls and whatever the counters do.
  lemma {:induction false} FailedReadingIgnored(prev: Option<Sample>, a: seq<Option<Sample>>, b: seq<Option<Sample>>)
    ensures After(prev, a + [None] + b) == After(prev, a + b)
    ensures Weighted(prev, a + [None] + b) == Weighted(prev, a + b)
  {
    hide Percent, Ticks;
    var long, short := a + [None] + b, a + b;
    if b == [] {
      assert long[..|long| - 1] == a && short == a;
    } else {
      var init := b[..|b| - 1];
      assert long[..|long| - 1] == a + [None] + init && short[..|short| - 1] == a + init;
      assert long[|long| - 1] == short[|short| - 1] == b[|b| - 1];
      FailedReadingIgnored(prev, a, init);
    }
  }

  // ---- the same over what the kernel counts ----

  function Samples(lines: seq<Option<seq<int>>>): seq<Option<Sample>> {
    if lines == [] then []
    else
      var last := lines[|lines| - 1];
      Samples(lines[..|lines| - 1]) + [if last.Some? then Some(SampleOf(last.value)) else None]
  }

  // Every column is a counter, every line has as many, and their sum fits.
  predicate Regular(lines: seq<Option<seq<int>>>, n: nat) {
    forall k :: 0 <= k < |lines| && lines[k].Some? ==>
      && |lines[k].value| == n && Total(lines[k].value) < TWO_64
      && forall i :: 0 <= i < n ==> 0 <= lines[k].value[i]
  }

  predicate Growing(lines: seq<Option<seq<int>>>) {
    forall j, k :: 0 <= j < k < |lines| && lines[j].Some? && lines[k].Some? && |lines[j].value| == |lines[k].value| ==>
      NoLess(lines[j].value, lines[k].value)
  }

  predicate NoLess(a: seq<int>, b: seq<int>)
    requires |a| == |b|
  {
    forall i :: 0 <= i < |a| ==> a[i] <= b[i]
  }

  // The columns that count as busy.
  function Busy(columns: seq<int>): int {
    if columns == [] then 0
    else Busy(columns[..|columns| - 1]) + if |columns| == 4 || |columns| == 5 then 0 else columns[|columns| - 1]
  }

  lemma {:induction false} BusyIsRest(columns: seq<int>)
    ensures Busy(columns) == Total(columns) - Idle(columns)
  {
    if columns != [] {
      BusyIsRest(columns[..|columns| - 1]);
    }
  }

  lemma {:induction false} GrowsTogether(a: seq<int>, b: seq<int>)
    requires |a| == |b| && NoLess(a, b)
    ensures Busy(a) <= Busy(b) && Idle(a) <= Idle(b)
  {
    if a != [] {
      GrowsTogether(a[..|a| - 1], b[..|b| - 1]);
    }
  }

  lemma {:induction false} BusyAtLeastZero(a: seq<int>)
    requires forall i :: 0 <= i < |a| ==> 0 <= a[i]
    ensures 0 <= Busy(a) && 0 <= Idle(a)
  {
    if a != [] {
      BusyAtLeastZero(a[..|a| - 1]);
    }
  }

  // The sample of a line whose sum fits is exact.
  lemma SampleIsExact(columns: seq<int>)
    requires Total(columns) < TWO_64 && forall i :: 0 <= i < |columns| ==> 0 <= columns[i]
    ensures SampleOf(columns) == Sample(Busy(columns), Busy(columns) + Idle(columns))
    ensures Counters(SampleOf(columns))
  {
    BusyIsRest(columns);
    BusyAtLeastZero(columns);
  }

  // Which reading the collector remembers.
  lemma {:induction false} AfterIsARead(lines: seq<Option<seq<int>>>) returns (k: int)
    ensures After(None, Samples(lines)).None? ==> k == -1
    ensures After(None, Samples(lines)).Some? ==>
      0 <= k < |lines| && lines[k].Some? && After(None, Samples(lines)).value == SampleOf(lines[k].value)
  {
    k := -1;
    if lines != [] {
      var init := lines[..|lines| - 1];
      assert Samples(lines)[..|Samples(lines)| - 1] == Samples(init);
      if lines[|lines| - 1].Some? {
        k := |lines| - 1;
      } else {
        k := AfterIsARead(init);
      }
    }
  }

  lemma {:induction false} GrowingIsForward(lines: seq<Option<seq<int>>>, n: nat)
    requires Regular(lines, n) && Growing(lines)
    ensures AllForward(None, Samples(lines))
  {
    if lines != [] {
      var init, last := lines[..|lines| - 1], lines[|lines| - 1];
      GrowingIsForward(init, n);
      assert Samples(lines)[..|Samples(lines)| - 1] == Samples(init);
      if last.Some? {
        SampleIsExact(last.value);
        var k := AfterIsARead(init);
        if k >= 0 {
          assert init[k] == lines[k];
          SampleIsExact(lines[k].value);
          GrowsTogether(lines[k].value, last.value);
        }
      }
    }
  }

  // For kernel counters that never go back and whose sums fit, with any readings
  // failing: what the reports add up to is the growth of the busy columns.
  lemma ReportedBusyTime(lines: seq<Option<seq<int>>>, n: nat, first: nat, last: nat)
    requires Regular(lines, n) && Growing(lines)
    requires first <= last < |lines| && lines[first].Some? && lines[last].Some?
    requires forall k :: 0 <= k < |lines| && lines[k].Some? ==> first <= k <= last
    ensures Weighted(None, Samples(lines)) == 100.0 * (Busy(lines[last].value) - Busy(lines[first].value)) as real
  {
    GrowingIsForward(lines, n);
    BusyTimeTelescopes(None, Samples(lines));
    SamplesAt(lines);
    AfterIs(None, Samples(lines), last);
    BaselineIs(Samples(lines), first);
    SampleIsExact(lines[first].value);
    SampleIsExact(lines[last].value);
  }

  lemma {:induction false} SamplesAt(lines: seq<Option<seq<int>>>)
    ensures |Samples(lines)| == |lines|
    ensures forall k :: 0 <= k < |lines| ==>
      Samples(lines)[k] == if lines[k].Some? then Some(SampleOf(lines[k].value)) else None
  {
    if lines != [] {
      SamplesAt(lines[..|lines| - 1]);
    }
  }

  lemma {:induction false} AfterIs(prev: Option<Sample>, run: seq<Option<Sample>>, last: nat)
    requires last < |run| && run[last].Some?
    requires forall k :: last < k < |run| ==> run[k].None?
    ensures After(prev, run) == run[last]
  {
    if last < |run| - 1 {
      AfterIs(prev, run[..|run| - 1], last);
    }
  }

  lemma {:induction false} BaselineIs(run: seq<Option<Sample>>, first: nat)
    requires first < |run| && run[first].Some?
    requires forall k :: 0 <= k < first ==> run[k].None?
    ensures Baseline(None, run) == run[first]
  {
    if first > 0 {
      BaselineIs(run[1..], first - 1);
    } else {
      assert Baseline(run[0], run[1..]) == run[0];
    }
  }
}
