/** The sampler: it truncates the metrics file to a single header row, then,
    once per tick, reads the pressure, CPU and energy sources and appends one
    six-field row. Unavailable values become empty fields. The energy
    column is relative to a baseline read once, before the first tick.

    The thread, the stop flag and the sleep between ticks are not modelled;
    the loop runs over a finite sequence of ticks, each carrying the clock
    value and the contents of the files that iteration reads. A tick is
    first decoded into a `Reading`; the row logic works on readings. */
module Sampling {

  import opened Optional
  import opened Pressure
  import opened Cpu
  import opened Energy

  /** The column names of the metrics file. */
  const Header: seq<string> := ["t_sec", "cpu_pct", "psi_cpu_avg10", "psi_mem_avg10", "psi_io_avg10", "energy_j_rel"]

  /** The number of fields in every line of the metrics file. */
  const Width := 6

  /** `f"{x:.Nf}"`: a real and a number of decimals to the text written. */
  type Format = (real, nat) -> string

  /** Formatting a number never yields the empty string. */
  ghost predicate NonEmptyFormat(fmt: Format)
  {
    forall x: real, precision: nat :: fmt(x, precision) != []
  }

  // ---------------------------------------------------------------------------
  // Reading the sources
  // ---------------------------------------------------------------------------

  /** What one iteration of the loop observes: the clock and the text of
      every file it reads (None for a file that cannot be read). */
  datatype Tick = Tick(
    now: real,
    psiCpu: Option<string>,
    psiMemory: Option<string>,
    psiIo: Option<string>,
    stat: Option<string>,
    raplTop: seq<Option<string>>,
    raplNested: seq<Option<string>>)

  /** One iteration's decoded sources: the elapsed time, the three pressure
      readings, the CPU snapshot and the energy reading. */
  datatype Reading = Reading(
    t: real,
    psiCpu: Option<real>,
    psiMemory: Option<real>,
    psiIo: Option<real>,
    cpu: Option<CpuTotals>,
    energy: Option<real>)

  /** The time of a tick since the sampler started. */
  function Elapsed(tick: Tick, t0: real): real
  {
    tick.now - t0
  }

  /** Decodes one tick with the readers of the other modules. */
  function Decode(tick: Tick, t0: real, parse: string -> Option<real>): Reading
  {
    Reading(Elapsed(tick, t0),
            ReadPsiAvg10(tick.psiCpu, parse),
            ReadPsiAvg10(tick.psiMemory, parse),
            ReadPsiAvg10(tick.psiIo, parse),
            ReadCpuTotals(tick.stat),
            EnergyReading(tick.raplTop, tick.raplNested))
  }

  /** Decodes a run of ticks, in order. */
  function DecodeAll(ticks: seq<Tick>, t0: real, parse: string -> Option<real>): (rs: seq<Reading>)
    ensures |rs| == |ticks|
  {
    seq(|ticks|, k requires 0 <= k < |ticks| => Decode(ticks[k], t0, parse))
  }

  // ---------------------------------------------------------------------------
  // Rows
  // ---------------------------------------------------------------------------

  /** The six values of one row before formatting; None is "unavailable". */
  datatype Sample = Sample(
    t: real,
    cpu: Option<real>,
    psiCpu: Option<real>,
    psiMemory: Option<real>,
    psiIo: Option<real>,
    energy: Option<real>)

  /** The value of column `k` (1 to 5) of a sample. */
  function Column(s: Sample, k: nat): Option<real>
    requires 1 <= k < Width
  {
    if k == 1 then s.cpu
    else if k == 2 then s.psiCpu
    else if k == 3 then s.psiMemory
    else if k == 4 then s.psiIo
    else s.energy
  }

  /** The number of decimals column `k` is written with. */
  function Decimals(k: nat): nat
    requires k < Width
  {
    [3, 2, 3, 3, 3, 6][k]
  }

  /** A formatted value, or the empty field when it is unavailable. */
  function Cell(v: Option<real>, precision: nat, fmt: Format): string
  {
    match v
    case None => ""
    case Some(x) => fmt(x, precision)
  }

  /** The row written for one sample: six fields. */
  function Render(s: Sample, fmt: Format): (row: seq<string>)
    ensures |row| == Width
  {
    [fmt(s.t, 3), Cell(s.cpu, 2, fmt), Cell(s.psiCpu, 3, fmt), Cell(s.psiMemory, 3, fmt), Cell(s.psiIo, 3, fmt), Cell(s.energy, 6, fmt)]
  }

  /** The time is always written; every other column is formatted with its
      own number of decimals when available and left empty otherwise. With a
      formatter that never yields "", a field is empty exactly when its value
      is unavailable. */
  lemma RenderCells(s: Sample, fmt: Format)
    ensures Render(s, fmt)[0] == fmt(s.t, Decimals(0))
    ensures forall k :: 1 <= k < Width ==> Column(s, k).Some? ==> Render(s, fmt)[k] == fmt(Column(s, k).value, Decimals(k))
    ensures forall k :: 1 <= k < Width ==> Column(s, k).None? ==> Render(s, fmt)[k] == []
    ensures NonEmptyFormat(fmt) ==> Render(s, fmt)[0] != [] && forall k :: 1 <= k < Width ==> (Render(s, fmt)[k] == [] <==> Column(s, k).None?)
  {
  }

  /** The values written for one reading: the utilisation against the
      snapshot `prev` (the tracker's step) and the energy relative to the
      baseline (line 85). */
  function SampleOf(r: Reading, prev: Option<CpuTotals>, baseline: Option<real>): Sample
  {
    Sample(r.t, Advance(prev, r.cpu).0, r.psiCpu, r.psiMemory, r.psiIo, RelativeEnergy(r.energy, baseline))
  }

  /** The rows appended for a run of readings, and the CPU snapshot held
      after it: one six-field row per reading, and the last reading's
      snapshot. */
  function Rows(rs: seq<Reading>, baseline: Option<real>, fmt: Format): (r: (seq<seq<string>>, Option<CpuTotals>))
    ensures |r.0| == |rs| && forall k :: 0 <= k < |rs| ==> |r.0[k]| == Width
    ensures rs == [] ==> r.1.None?
    ensures rs != [] ==> r.1 == rs[|rs| - 1].cpu
  {
    if rs == [] then ([], None)
    else
      var (rows, prev) := Rows(rs[..|rs| - 1], baseline, fmt);
      var last := rs[|rs| - 1];
      (rows + [Render(SampleOf(last, prev, baseline), fmt)], last.cpu)
  }

  /** The data rows the sampler appends for a run of ticks. */
  function Run(ticks: seq<Tick>, baseline: Option<real>, t0: real,
               parse: string -> Option<real>, fmt: Format): (rows: seq<seq<string>>)
    ensures |rows| == |ticks|
  {
    Rows(DecodeAll(ticks, t0, parse), baseline, fmt).0
  }

  // ---------------------------------------------------------------------------
  // The sampler as a stateful object
  // ---------------------------------------------------------------------------

  /** The sampler thread's state: the metrics file (one field list per line)
      and the CPU snapshot; the baseline, the start time and the parsing and
      formatting routines never change. */
  class Sampler {
    var rows: seq<seq<string>>
    var prevCpu: Option<CpuTotals>
    const baseline: Option<real>
    const t0: real
    const parse: string -> Option<real>
    const fmt: Format
    ghost var readings: seq<Reading>

    /** The file holds the header and one row per reading so far, and the
        snapshot is the one those readings leave behind. */
    ghost predicate Valid()
      reads this
    {
      && rows == [Header] + Rows(readings, baseline, fmt).0
      && prevCpu == Rows(readings, baseline, fmt).1
    }

    /** The sampler's start: the energy baseline is read from the given
        listings, the clock is read, and the metrics file is truncated to
        its header. */
    constructor Start(top: seq<Option<string>>, nested: seq<Option<string>>, clock: real,
                      parse: string -> Option<real>, fmt: Format)
      ensures Valid()
      ensures rows == [Header] && prevCpu.None? && readings == []
      ensures baseline == EnergyReading(top, nested) && t0 == clock
      ensures this.parse == parse && this.fmt == fmt
    {
      var e0 := RaplEnergyJoulesSum(top, nested);
      baseline := e0;
      t0 := clock;
      this.parse := parse;
      this.fmt := fmt;
      rows := [Header];
      prevCpu := None;
      readings := [];
    }

    /** The reading half of one loop iteration, in the loop's order: the
        clock, the three pressure files, the stat file (the read inside
        `cpu_percent`) and the energy counters. */
    method Observe(tick: Tick) returns (r: Reading)
      ensures r == Decode(tick, t0, parse)
    {
      var ts := Elapsed(tick, t0);
      var psiCpu := ReadPsiAvg10(tick.psiCpu, parse);
      var psiMemory := ReadPsiAvg10(tick.psiMemory, parse);
      var psiIo := ReadPsiAvg10(tick.psiIo, parse);
      var cpu := ReadCpuTotals(tick.stat);
      var ej := RaplEnergyJoulesSum(tick.raplTop, tick.raplNested);
      r := Reading(ts, psiCpu, psiMemory, psiIo, cpu, ej);
    }

    /** The writing half: the rest of `cpu_percent` (the utilisation against
        the held snapshot, which the new one replaces), the energy relative
        to the baseline, and the row appended to the file. */
    method Record(r: Reading)
      requires Valid()
      modifies this
      ensures Valid() && readings == old(readings) + [r]
      ensures rows == old(rows) + [Render(SampleOf(r, old(prevCpu), baseline), fmt)]
      ensures prevCpu == r.cpu
    {
      var (cpu, next) := Advance(prevCpu, r.cpu);
      var energyRel := RelativeEnergy(r.energy, baseline);
      var sample := Sample(r.t, cpu, r.psiCpu, r.psiMemory, r.psiIo, energyRel);
      assert sample == SampleOf(r, prevCpu, baseline) && next == r.cpu;
      AppendRow(Header, readings, r, baseline, fmt);
      rows := rows + [Render(sample, fmt)];
      prevCpu := next;
      readings := readings + [r];
    }

    /** One loop iteration: read every source, then append the row. */
    method Step(tick: Tick)
      requires Valid()
      modifies this
      ensures Valid() && readings == old(readings) + [Decode(tick, t0, parse)]
    {
      var r := Observe(tick);
      Record(r);
    }
  }

  /** The whole sampler over a finite run of ticks: the metrics file it
      leaves behind. */
  method RunSampler(top: seq<Option<string>>, nested: seq<Option<string>>, clock: real,
                    ticks: seq<Tick>, parse: string -> Option<real>, fmt: Format)
    returns (file: seq<seq<string>>)
    ensures file == [Header] + Run(ticks, EnergyReading(top, nested), clock, parse, fmt)
  {
    var s := new Sampler.Start(top, nested, clock, parse, fmt);
    for i := 0 to |ticks|
      invariant s.Valid() && s.readings == DecodeAll(ticks[..i], clock, parse)
      invariant s.baseline == EnergyReading(top, nested) && s.t0 == clock
      invariant s.parse == parse && s.fmt == fmt
    {
      s.Step(ticks[i]);
      DecodePrefix(ticks, i, clock, parse);
    }
    assert ticks[..|ticks|] == ticks;
    file := s.rows;
  }

  // ---------------------------------------------------------------------------
  // Lemmas
  // ---------------------------------------------------------------------------

  /** Appending the row of one more reading to a file that holds a header
      and the rows of the earlier readings gives the file of all of them. */
  lemma AppendRow(header: seq<string>, rs: seq<Reading>, r: Reading, baseline: Option<real>, fmt: Format)
    ensures [header] + Rows(rs, baseline, fmt).0 + [Render(SampleOf(r, Rows(rs, baseline, fmt).1, baseline), fmt)]
         == [header] + Rows(rs + [r], baseline, fmt).0
  {
    RowsSnoc(rs, r, baseline, fmt);
  }

  /** One more reading appends one row, rendered against the snapshot the
      earlier readings left. */
  lemma RowsSnoc(rs: seq<Reading>, r: Reading, baseline: Option<real>, fmt: Format)
    ensures Rows(rs + [r], baseline, fmt).0 == Rows(rs, baseline, fmt).0 + [Render(SampleOf(r, Rows(rs, baseline, fmt).1, baseline), fmt)]
    ensures Rows(rs + [r], baseline, fmt).1 == r.cpu
  {
    assert (rs + [r])[..|rs|] == rs;
  }

  /** Later readings never change the rows already written. */
  lemma {:induction false} RowsPrefix(a: seq<Reading>, b: seq<Reading>, baseline: Option<real>, fmt: Format)
    ensures Rows(a + b, baseline, fmt).0[..|a|] == Rows(a, baseline, fmt).0
    decreases |b|
  {
    if b == [] {
      assert a + b == a;
    } else {
      var b' := b[..|b| - 1];
      assert (a + b)[..|a + b| - 1] == a + b';
      RowsPrefix(a, b', baseline, fmt);
    }
  }

  /** Row k renders reading k against the snapshot of reading k - 1 (none
      for the first row). */
  lemma RowAt(rs: seq<Reading>, k: nat, baseline: Option<real>, fmt: Format)
    requires k < |rs|
    ensures Rows(rs, baseline, fmt).0[k]
         == Render(SampleOf(rs[k], if k == 0 then None else rs[k - 1].cpu, baseline), fmt)
  {
    var a := rs[..k + 1];
    assert rs == a + rs[k + 1..];
    RowsPrefix(a, rs[k + 1..], baseline, fmt);
    assert a[..|a| - 1] == rs[..k];
    assert k > 0 ==> rs[..k][k - 1] == rs[k - 1];
  }

  /** Every row has six fields and starts with its reading's time. */
  lemma RowShape(rs: seq<Reading>, k: nat, baseline: Option<real>, fmt: Format)
    requires k < |rs|
    ensures |Rows(rs, baseline, fmt).0[k]| == Width
    ensures Rows(rs, baseline, fmt).0[k][0] == fmt(rs[k].t, Decimals(0))
  {
    RowAt(rs, k, baseline, fmt);
    RenderCells(SampleOf(rs[k], if k == 0 then None else rs[k - 1].cpu, baseline), fmt);
  }

  /** The first row reports 100% CPU whenever its stat read succeeds. */
  lemma FirstRowFullLoad(rs: seq<Reading>, baseline: Option<real>, fmt: Format)
    requires rs != [] && rs[0].cpu.Some?
    ensures Rows(rs, baseline, fmt).0[0][1] == fmt(100.0, Decimals(1))
  {
    RowAt(rs, 0, baseline, fmt);
    RenderCells(SampleOf(rs[0], None, baseline), fmt);
  }

  /** A failed stat read leaves an empty CPU field, and the next successful
      read reports 100% again, as on the first row. */
  lemma FullLoadAfterFailure(rs: seq<Reading>, k: nat, baseline: Option<real>, fmt: Format)
    requires 0 < k < |rs|
    requires rs[k - 1].cpu.None? && rs[k].cpu.Some?
    ensures Rows(rs, baseline, fmt).0[k - 1][1] == []
    ensures Rows(rs, baseline, fmt).0[k][1] == fmt(100.0, Decimals(1))
  {
    RowAt(rs, k - 1, baseline, fmt);
    RenderCells(SampleOf(rs[k - 1], if k - 1 == 0 then None else rs[k - 2].cpu, baseline), fmt);
    RowAt(rs, k, baseline, fmt);
    RenderCells(SampleOf(rs[k], rs[k - 1].cpu, baseline), fmt);
  }

  /** Between two successful stat reads, the CPU field is the utilisation
      of the later snapshot against the earlier one. */
  lemma CpuField(rs: seq<Reading>, k: nat, baseline: Option<real>, fmt: Format)
    requires 0 < k < |rs|
    requires rs[k - 1].cpu.Some? && rs[k].cpu.Some?
    ensures Rows(rs, baseline, fmt).0[k][1] == fmt(Utilisation(rs[k - 1].cpu.value, rs[k].cpu.value), Decimals(1))
  {
    RowAt(rs, k, baseline, fmt);
    RenderCells(SampleOf(rs[k], rs[k - 1].cpu, baseline), fmt);
  }

  /** Between two successful stat reads whose idle and busy ticks did not go
      down, the CPU field is a utilisation between 0 and 100. */
  lemma CpuFieldBounded(rs: seq<Reading>, k: nat, baseline: Option<real>, fmt: Format)
    requires 0 < k < |rs|
    requires rs[k - 1].cpu.Some? && rs[k].cpu.Some? && NoDecrease(rs[k - 1].cpu.value, rs[k].cpu.value)
    ensures exists p :: 0.0 <= p <= 100.0 && Rows(rs, baseline, fmt).0[k][1] == fmt(p, Decimals(1))
  {
    CpuField(rs, k, baseline, fmt);
    var p := Utilisation(rs[k - 1].cpu.value, rs[k].cpu.value);
    UtilisationWithin(rs[k - 1].cpu.value, rs[k].cpu.value);
    assert Rows(rs, baseline, fmt).0[k][1] == fmt(p, Decimals(1));
  }

  /** Row k's energy field is the current reading minus the baseline when
      both exist, and empty otherwise. */
  lemma EnergyField(rs: seq<Reading>, k: nat, baseline: Option<real>, fmt: Format)
    requires k < |rs|
    ensures baseline.Some? && rs[k].energy.Some? ==>
              Rows(rs, baseline, fmt).0[k][5] == fmt(rs[k].energy.value - baseline.value, Decimals(5))
    ensures baseline.None? || rs[k].energy.None? ==> Rows(rs, baseline, fmt).0[k][5] == []
  {
    RowAt(rs, k, baseline, fmt);
    RenderCells(SampleOf(rs[k], if k == 0 then None else rs[k - 1].cpu, baseline), fmt);
  }

  /** Without an energy baseline the energy column stays empty for the whole
      run, whatever the later readings. */
  lemma NoBaselineNoEnergy(rs: seq<Reading>, fmt: Format)
    ensures forall k :: 0 <= k < |rs| ==> Rows(rs, None, fmt).0[k][5] == []
  {
    forall k | 0 <= k < |rs| ensures Rows(rs, None, fmt).0[k][5] == [] {
      EnergyField(rs, k, None, fmt);
    }
  }

  /** With a formatter that never yields "", row k's time field is present
      and each other field is empty exactly when its value is unavailable:
      the pressure readings and the CPU snapshot of reading k, and the
      energy reading together with the baseline. */
  lemma EmptyExactlyWhenUnavailable(rs: seq<Reading>, k: nat, baseline: Option<real>, fmt: Format)
    requires NonEmptyFormat(fmt) && k < |rs|
    ensures var row := Rows(rs, baseline, fmt).0[k];
      && row[0] != []
      && (row[1] == [] <==> rs[k].cpu.None?)
      && (row[2] == [] <==> rs[k].psiCpu.None?)
      && (row[3] == [] <==> rs[k].psiMemory.None?)
      && (row[4] == [] <==> rs[k].psiIo.None?)
      && (row[5] == [] <==> rs[k].energy.None? || baseline.None?)
  {
    RowAt(rs, k, baseline, fmt);
    var s := SampleOf(rs[k], if k == 0 then None else rs[k - 1].cpu, baseline);
    RenderCells(s, fmt);
    assert Column(s, 1) == s.cpu && Column(s, 2) == s.psiCpu && Column(s, 3) == s.psiMemory;
    assert Column(s, 4) == s.psiIo && Column(s, 5) == s.energy;
  }

  /** Decoding keeps one reading per tick, and reading k is tick k's. */
  lemma DecodeAt(ticks: seq<Tick>, k: nat, t0: real, parse: string -> Option<real>)
    requires k < |ticks|
    ensures DecodeAll(ticks, t0, parse)[k] == Decode(ticks[k], t0, parse)
  {
  }

  /** Decoding one more tick appends its reading. */
  lemma DecodeSnoc(ticks: seq<Tick>, tick: Tick, t0: real, parse: string -> Option<real>)
    ensures DecodeAll(ticks + [tick], t0, parse) == DecodeAll(ticks, t0, parse) + [Decode(tick, t0, parse)]
  {
    var a := DecodeAll(ticks + [tick], t0, parse);
    var b := DecodeAll(ticks, t0, parse) + [Decode(tick, t0, parse)];
    forall k | 0 <= k < |a| ensures a[k] == b[k] {
      DecodeAt(ticks + [tick], k, t0, parse);
      if k < |ticks| {
        DecodeAt(ticks, k, t0, parse);
      }
    }
  }

  /** Decoding the first i + 1 ticks appends tick i's reading to the
      decoding of the first i. */
  lemma DecodePrefix(ticks: seq<Tick>, i: nat, t0: real, parse: string -> Option<real>)
    requires i < |ticks|
    ensures DecodeAll(ticks[..i + 1], t0, parse) == DecodeAll(ticks[..i], t0, parse) + [Decode(ticks[i], t0, parse)]
  {
    assert ticks[..i + 1] == ticks[..i] + [ticks[i]];
    DecodeSnoc(ticks[..i], ticks[i], t0, parse);
  }

  /** Reading k's time is tick k's clock value less the start time. */
  lemma DecodeTime(ticks: seq<Tick>, k: nat, t0: real, parse: string -> Option<real>)
    requires k < |ticks|
    ensures DecodeAll(ticks, t0, parse)[k].t == Elapsed(ticks[k], t0)
  {
    DecodeAt(ticks, k, t0, parse);
  }

  /** Reading k's CPU snapshot is tick k's stat reading. */
  lemma DecodeCpu(ticks: seq<Tick>, k: nat, t0: real, parse: string -> Option<real>)
    requires k < |ticks|
    ensures DecodeAll(ticks, t0, parse)[k].cpu == ReadCpuTotals(ticks[k].stat)
  {
    DecodeAt(ticks, k, t0, parse);
  }

  /** Row k of a run has six fields and starts with the time of tick k
      since the start. */
  lemma RunRow(ticks: seq<Tick>, k: nat, baseline: Option<real>, t0: real,
               parse: string -> Option<real>, fmt: Format)
    requires k < |ticks|
    ensures k < |Run(ticks, baseline, t0, parse, fmt)|
    ensures |Run(ticks, baseline, t0, parse, fmt)[k]| == Width
    ensures Run(ticks, baseline, t0, parse, fmt)[k][0] == fmt(Elapsed(ticks[k], t0), Decimals(0))
  {
    DecodeTime(ticks, k, t0, parse);
    RowShape(DecodeAll(ticks, t0, parse), k, baseline, fmt);
  }

  /** A run writes exactly one six-field row per tick, each starting with
      the time elapsed since the start. */
  lemma RunShape(ticks: seq<Tick>, baseline: Option<real>, t0: real,
                 parse: string -> Option<real>, fmt: Format)
    ensures |Run(ticks, baseline, t0, parse, fmt)| == |ticks|
    ensures forall k :: 0 <= k < |ticks| ==>
              |Run(ticks, baseline, t0, parse, fmt)[k]| == Width
              && Run(ticks, baseline, t0, parse, fmt)[k][0] == fmt(Elapsed(ticks[k], t0), Decimals(0))
  {
    forall k | 0 <= k < |ticks|
      ensures |Run(ticks, baseline, t0, parse, fmt)[k]| == Width
      ensures Run(ticks, baseline, t0, parse, fmt)[k][0] == fmt(Elapsed(ticks[k], t0), Decimals(0))
    {
      RunRow(ticks, k, baseline, t0, parse, fmt);
    }
  }

}
