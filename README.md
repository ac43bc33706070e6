# Telemetry sampler of measure_grpc_with_metrics.py, modelled in Dafny

`measure_grpc_with_metrics.py` runs a gRPC inference benchmark as a subprocess
and, meanwhile, a sampler thread that writes one line of system telemetry per
second to a CSV metrics file. This project models that sampler and the readers
it calls:

- `read_psi_avg10`: the `avg10` figure of the first `some ` line of a Linux
  pressure-stall file (module `Pressure`).
- `read_cpu_totals` and `cpu_percent`: the `/proc/stat` decoder and the
  utilisation tracker that threads the previous snapshot (module `Cpu`).
- `rapl_energy_joules_sum` and the relative-energy expression of the loop:
  the sum of the RAPL `energy_uj` counters, in joules (module `Energy`).
- `sampler`: the header row, then one six-field row per iteration, with an
  empty field for every unavailable value (module `Sampling`).
- The Python string operations they rely on: `split()`, `splitlines()`,
  `startswith`, `replace(p, "")`, `split("=")`, `strip()` and base-10 `int()`
  (module `Text`). `Optional` holds the `Option` type.

## Conventions

- **Unavailable values.** Python's NaN and every caught exception become
  `None`.
- **Files.** A file is `Option<string>`, where `None` means `open` or `read`
  failed. The two RAPL globs are sequences of such files, in listing order.
- **Floats.**
  - `float(s)` is a parameter `parse: string -> Option<real>`. `None` stands
    for a ValueError or a NaN result.
  - `f"{x:.Nf}"` is a parameter `fmt: (real, nat) -> string`.
  - The utilisation and the joules are computed in exact `real` arithmetic.
- **Integers.** Python's unbounded `int`s are Dafny's `int`.
- **The sampler.**
  - `Sampling.Sampler` is a class. It holds the metrics file as a sequence of
    rows (each a list of fields), the previous CPU snapshot, the energy
    baseline and the start time.
  - `Sampling.RunSampler` drives the class over a finite sequence of `Tick`s.
    A tick is what one loop iteration observes: the clock and the text of
    every file it reads.
  - The loop body is split in two. `Observe` reads the sources into a
    `Reading`, and `Record` advances the CPU tracker and appends the row.
  - Every row property is proved about the specification function `Rows`,
    which works over readings. `DecodeSnoc` and `DecodePrefix` relate the
    readings back to the ticks.

**Two consequences of the code worth stating.**
A first call of the CPU tracker, with no previous snapshot, compares the fresh
snapshot with itself: `dt = max(0, 1) = 1` and `di = 0`, so it reports 100%.
`Cpu.CpuPercent`, `Sampling.FirstRowFullLoad` and
`Sampling.FullLoadAfterFailure` state the 100%.

The [0, 100] bound on the utilisation does not need a rising total. It needs
only that neither the idle ticks nor the busy ticks decrease
(`Cpu.NoDecrease`), which holds whenever the seven counters never decrease.
When no tick elapsed, the floored divisor gives 100%.

## Model

| member | source | states |
|---|---|---|
| Text.Split | measure_grpc_with_metrics.py:19 | `str.split()` yields only non-empty, whitespace-free tokens |
| Text.SplitJoinWords | measure_grpc_with_metrics.py:27 | splitting words joined by single spaces gives the words back (the inverse of `split()`) |
| Text.SplitLines | measure_grpc_with_metrics.py:18 | `str.splitlines()` yields lines free of every line boundary Python recognises |
| Text.SplitJoinLines | measure_grpc_with_metrics.py:18 | splitting lines joined by "\n" gives the lines back |
| Text.RemoveAll | measure_grpc_with_metrics.py:19 | `replace("some ", "")` never lengthens the text |
| Text.RemoveAllAbsent | measure_grpc_with_metrics.py:19 | text without the pattern is unchanged by the replace |
| Text.SplitOn | measure_grpc_with_metrics.py:19 | `kv.split("=")` gives one more piece than there are '=' and no piece holds '=' |
| Text.SplitOnNoSeparator | measure_grpc_with_metrics.py:19 | a token without the separator splits into itself alone |
| Text.SplitOnOnce | measure_grpc_with_metrics.py:19 | `a=b` with '=' in neither part splits into exactly `[a, b]` |
| Text.Strip | measure_grpc_with_metrics.py:51 | `strip()` leaves no whitespace at either end |
| Text.StripPadded | measure_grpc_with_metrics.py:51 | stripping whitespace padding returns the padded text exactly |
| Text.ParseInt | measure_grpc_with_metrics.py:28 | `int()`: blank text is a ValueError; an information separator anywhere in the text is one too |
| Text.ScanFindsInfoSeparator | measure_grpc_with_metrics.py:28 | the front-to-back scan `int()`'s model uses finds an information separator exactly when the text holds one |
| Text.ParseIntRejectsInfoSeparator | measure_grpc_with_metrics.py:28 | FS, GS, RS or US anywhere in the text makes `int()` fail, although `str.isspace` accepts them |
| Text.ParseIntDecimal | measure_grpc_with_metrics.py:28 | `int()` reads back a decimal numeral padded with whitespace other than the information separators |
| Text.ParseIntNegativeDecimal | measure_grpc_with_metrics.py:28 | `int()` reads back a negative decimal numeral, padded the same way |
| Text.ParseIntRejects | measure_grpc_with_metrics.py:28 | a character other than a digit or underscore (past the sign) makes `int()` fail |
| Pressure.FirstSomeIndex | measure_grpc_with_metrics.py:18 | the index of the first line starting with "some ": no earlier line does, and that one does |
| Pressure.FirstSomeLine | measure_grpc_with_metrics.py:18 | the line picked is "" exactly when no line starts with "some ", otherwise the first such line |
| Pressure.KeyValueTokens | measure_grpc_with_metrics.py:19 | the filter `if "=" in kv` keeps only tokens holding '=', taken from the line |
| Pressure.BuildDict | measure_grpc_with_metrics.py:19 | the `dict(...)` build succeeds exactly when every kept token holds exactly one '=' |
| Pressure.ReadPsiAvg10 | measure_grpc_with_metrics.py:12-22 | a file that cannot be read gives "unavailable", not an exception |
| Pressure.TokenKey | measure_grpc_with_metrics.py:19 | a one-'=' token splits in two; its key is `key` exactly when it starts with "key=", and its value is what follows |
| Pressure.KeyValueTokensWellFormed | measure_grpc_with_metrics.py:19 | when no token holds two '=', every kept token holds exactly one |
| Pressure.LineTokens | measure_grpc_with_metrics.py:19 | the tokens of the chosen line: every `some ` marker removed, then the rest split at whitespace; `Pressure.KernelSomeLine` states them for a kernel-format line and `Text.Split` that each is a whitespace-free word |
| Pressure.Avg10FromTokens | measure_grpc_with_metrics.py:19-20 | the dictionary built from the kept tokens, then `float` of its `avg10` entry or of "nan"; `Pressure.Avg10IsLastValue`, `Pressure.Avg10Missing`, `Pressure.MalformedTokenSpoilsReading` and `Pressure.BareTokenIgnored` state its outcomes |
| Pressure.DictHasLastValue | measure_grpc_with_metrics.py:19 | the dictionary maps a key to the value of its last `key=` token |
| Pressure.DictLacksKey | measure_grpc_with_metrics.py:19-20 | without a `key=` token the key is absent from the dictionary |
| Pressure.Avg10IsLastValue | measure_grpc_with_metrics.py:19-20 | the reading is `float` of the value of the last `avg10=` token |
| Pressure.Avg10Missing | measure_grpc_with_metrics.py:20 | with no `avg10=` token (and none malformed) the reading is unavailable |
| Pressure.MalformedTokenSpoilsReading | measure_grpc_with_metrics.py:19-22 | one token with two or more '=' makes the whole reading unavailable |
| Pressure.BareTokenIgnored | measure_grpc_with_metrics.py:19 | removing a token without '=' never changes the reading |
| Pressure.NoSomeLineUnavailable | measure_grpc_with_metrics.py:18-22 | a file without a "some " line reads as unavailable |
| Pressure.FirstSomeLineDecides | measure_grpc_with_metrics.py:18 | only the first "some " line matters; the lines after it are irrelevant |
| Pressure.KernelSomeLine | measure_grpc_with_metrics.py:17-19 | a kernel-format "some" line tokenises into its four `key=figure` tokens |
| Pressure.KernelTokensReading | measure_grpc_with_metrics.py:19-20 | those four tokens yield `float` of the avg10 figure |
| Pressure.KernelFormatReading | measure_grpc_with_metrics.py:12-20 | a file in the kernel's format ("some avg10=3.14 ..." then any line) reads as `float` of its avg10 figure |
| Cpu.FirstLine | measure_grpc_with_metrics.py:27 | `readline()` gives a prefix of the text, free of line breaks, ending at the first break |
| Cpu.FirstLineOf | measure_grpc_with_metrics.py:27 | a break-free line followed by "\n" reads back as that line |
| Cpu.MapAll | measure_grpc_with_metrics.py:28 | `map(int, ...)` succeeds exactly when every field parses, with the values in order |
| Cpu.Counters | measure_grpc_with_metrics.py:28-30 | the seven counters exist exactly when there are at least eight fields and fields 1 to 7 parse; they are those fields' values |
| Cpu.CountersExact | measure_grpc_with_metrics.py:28-30 | fields 1 to 7 that parse to seven given values make those values the counters |
| Cpu.Fold | measure_grpc_with_metrics.py:29-31 | idle = idle + iowait, busy = user + nice + system + irq + softirq, and `0 <= idle <= total` for non-negative counters |
| Cpu.ReadCounters | measure_grpc_with_metrics.py:26-28 | an unreadable stat file gives no counters; a successful read gives exactly seven |
| Cpu.ReadCpuTotals | measure_grpc_with_metrics.py:24-32 | a snapshot is returned exactly when the seven counters can be read |
| Cpu.ExtraFieldsIgnored | measure_grpc_with_metrics.py:27-28 | fields after the seventh counter never matter |
| Cpu.DecodeStatLine | measure_grpc_with_metrics.py:24-32 | a stat file whose first line is a tag and at least seven decimal counters decodes to the fold of the first seven, whatever follows |
| Cpu.StatCounters | measure_grpc_with_metrics.py:28 | the decimal fields of such a line parse back to its counters |
| Cpu.Divisor | measure_grpc_with_metrics.py:38 | `max(t2 - t1, 1)` is at least 1 and at least `t2 - t1`, and equals `t2 - t1` when that is positive |
| Cpu.Utilisation | measure_grpc_with_metrics.py:38-40 | a snapshot compared with itself gives 100; when ticks elapsed and all of them were idle, it gives 0 |
| Cpu.Advance | measure_grpc_with_metrics.py:36-43 | the new snapshot is the fresh one; a percentage exists exactly when the fresh read succeeds; it is the utilisation between the previous snapshot and the fresh one, and 100 when there is no previous snapshot |
| Cpu.CpuPercent | measure_grpc_with_metrics.py:34-43 | the returned snapshot is the stat file's decoding; a percentage exists exactly when it does; it is the utilisation against the previous snapshot, and a first call reports 100 |
| Cpu.UtilisationWithin | measure_grpc_with_metrics.py:38-40 | when neither idle nor busy ticks went down, the utilisation lies in [0, 100] |
| Cpu.UtilisationBounded | measure_grpc_with_metrics.py:28-40 | counters that never decrease give such snapshots, hence a utilisation in [0, 100] |
| Cpu.UtilisationIsBusyShare | measure_grpc_with_metrics.py:38-40 | when ticks elapsed, the utilisation is 100 times the share of busy ticks among them |
| Cpu.CpuPercentBounded | measure_grpc_with_metrics.py:34-41 | between two stat lines with non-decreasing counters, `cpu_percent` reports a percentage in [0, 100] |
| Cpu.FailureResets | measure_grpc_with_metrics.py:42-43 | a failed read reports unavailable and drops the snapshot, so the next call behaves as a first call |
| Energy.Joules | measure_grpc_with_metrics.py:61-63 | a zero total is unavailable; otherwise the result times 10^6 is the total |
| Energy.CounterValue | measure_grpc_with_metrics.py:50-51 | one counter file read, stripped and parsed as an integer, or nothing when that fails; `Energy.CounterFileValue` states the value of a padded decimal file |
| Energy.TotalMicrojoules | measure_grpc_with_metrics.py:47-60 | `total_uj` after both loops: the sum of the readable counters of both listings; `Energy.RaplEnergyJoulesSum` is proved to compute it |
| Energy.EnergyReading | measure_grpc_with_metrics.py:47-63 | the joules of that total, unavailable for a zero total; `Energy.ListingOrderIrrelevant`, `Energy.UnreadableSkipped` and `Energy.AllZeroUnavailable` state its properties |
| Energy.RaplEnergyJoulesSum | measure_grpc_with_metrics.py:45-63 | the two accumulation loops compute the reading of the listed files |
| Energy.ReadingsStep | measure_grpc_with_metrics.py:49-53 | one more file adds its value to the running total if it has one, and nothing otherwise |
| Energy.SumPermutation | measure_grpc_with_metrics.py:47-60 | the accumulated total does not depend on the order of the values |
| Energy.ReadingsPermutation | measure_grpc_with_metrics.py:48-60 | listing the same files in another order gives the same values up to order |
| Energy.EnergyDependsOnValues | measure_grpc_with_metrics.py:47-63 | the reading depends only on the multiset of readable counter values across both listings |
| Energy.ListingOrderIrrelevant | measure_grpc_with_metrics.py:48-63 | reordering either listing never changes the reading |
| Energy.UnreadableSkipped | measure_grpc_with_metrics.py:49-60 | a file that cannot be read or parsed, added to either listing, changes nothing |
| Energy.AllZeroUnavailable | measure_grpc_with_metrics.py:61-62 | counters that all read 0, or none readable, give unavailable rather than 0 J |
| Energy.CounterFileValue | measure_grpc_with_metrics.py:51 | a counter file holding a decimal number with whitespace padding reads as that number |
| Energy.RelativeEnergy | measure_grpc_with_metrics.py:85 | available exactly when both readings are; then baseline plus the result is the current reading |
| Energy.RelativeEnergyOfTotals | measure_grpc_with_metrics.py:63 | for two nonzero totals the relative energy is their difference in joules, non-negative exactly when the counters did not go back |
| Sampling.Render | measure_grpc_with_metrics.py:89-94 | every row has six fields |
| Sampling.RenderCells | measure_grpc_with_metrics.py:89-94 | the time is always written with 3 decimals; each other column is formatted with its decimals when available and empty otherwise; with a formatter that never yields "", a field is empty exactly when its value is unavailable |
| Sampling.SampleOf | measure_grpc_with_metrics.py:82-85 | one reading's six values: the utilisation against the held snapshot and the energy relative to the baseline; `Sampling.CpuField` and `Sampling.EnergyField` state the written fields |
| Sampling.Rows | measure_grpc_with_metrics.py:77-94 | one six-field row per reading, and the snapshot held afterwards is the last reading's |
| Sampling.RowsSnoc | measure_grpc_with_metrics.py:82-94 | one more reading appends one row, computed against the snapshot the earlier readings left |
| Sampling.AppendRow | measure_grpc_with_metrics.py:87-94 | appending that row to the header and earlier rows gives the file of all readings |
| Sampling.RowsPrefix | measure_grpc_with_metrics.py:87 | later iterations never change the rows already written (the file is opened in append mode) |
| Sampling.RowAt | measure_grpc_with_metrics.py:82-94 | row k is reading k rendered against reading k - 1's snapshot, or none for the first row |
| Sampling.RowShape | measure_grpc_with_metrics.py:89 | every row has six fields and starts with its reading's time |
| Sampling.FirstRowFullLoad | measure_grpc_with_metrics.py:68 | the first row reports 100% CPU whenever its stat read succeeds |
| Sampling.FullLoadAfterFailure | measure_grpc_with_metrics.py:42-43 | a failed stat read empties that row's CPU field, and the next successful read reports 100% |
| Sampling.CpuField | measure_grpc_with_metrics.py:82 | between two successful stat reads the CPU field is the formatted utilisation of the later snapshot against the earlier one |
| Sampling.CpuFieldBounded | measure_grpc_with_metrics.py:38-40 | with idle and busy ticks not going down, the CPU field formats a value in [0, 100] |
| Sampling.EnergyField | measure_grpc_with_metrics.py:85 | the energy field is the current reading minus the baseline when both exist, and empty otherwise |
| Sampling.NoBaselineNoEnergy | measure_grpc_with_metrics.py:69 | without a baseline the energy column stays empty for the whole run |
| Sampling.EmptyExactlyWhenUnavailable | measure_grpc_with_metrics.py:89-94 | with a formatter that never yields "", the time field is present and every other field is empty exactly when its value is unavailable |
| Sampling.Sampler.Start | measure_grpc_with_metrics.py:68-75 | the baseline is the energy reading taken before the clock; the file is truncated to the header; there is no snapshot |
| Sampling.Sampler.Observe | measure_grpc_with_metrics.py:78-83 | one iteration's reads are the decoding of its tick |
| Sampling.Sampler.Record | measure_grpc_with_metrics.py:82-94 | the file gains exactly one row, for this reading against the previous snapshot; the snapshot becomes the reading's; the invariant is kept |
| Sampling.Sampler.Step | measure_grpc_with_metrics.py:77-94 | one iteration keeps the invariant: the file is the header plus the rows of the ticks so far |
| Sampling.RunSampler | measure_grpc_with_metrics.py:65-94 | the file left after a run is the header followed by the rows of every tick, in order |
| Sampling.Decode | measure_grpc_with_metrics.py:78-83 | what one iteration reads from its tick: the elapsed time, the three pressure figures, the stat snapshot and the energy; `Sampling.Sampler.Observe` is proved to read exactly this |
| Sampling.DecodeAll | measure_grpc_with_metrics.py:77-83 | one reading per tick, in order |
| Sampling.Run | measure_grpc_with_metrics.py:65-94 | the rows a run of ticks writes after the header, one per tick; `Sampling.RunSampler` is proved to leave the header followed by them |
| Sampling.DecodeSnoc | measure_grpc_with_metrics.py:77-83 | one more tick appends its reading |
| Sampling.DecodePrefix | measure_grpc_with_metrics.py:77-83 | decoding the first i + 1 ticks appends tick i's reading to the decoding of the first i |
| Sampling.RunRow | measure_grpc_with_metrics.py:89 | row k of a run has six fields and starts with tick k's elapsed time |
| Sampling.RunShape | measure_grpc_with_metrics.py:77-94 | a run writes exactly one six-field row per tick, each starting with the elapsed time |

## Left out

- Threading and shutdown are not modelled: the sampler thread, `stop_flag`, `join(timeout=2.0)` and the `time.sleep` pacing (lines 65-67, 96, 98-123). The loop runs over a finite sequence of ticks instead.
- `main`'s subprocess launch, exit-code reporting and prints are process I/O and are not modelled.
- `open`, `glob.glob` and `time.time` are replaced by parameters: file texts, the two listings' files in listing order, and clock values.
- The glob patterns themselves are not modelled. Whether a subdomain counter is matched by one pattern or by both, the model sums exactly the files it is given.
- `float(s)` and `f"{x:.Nf}"` are parameters, so float rounding, `inf` and the exact decimal text written are not modelled. The utilisation and `total_uj / 1e6` are exact reals, so their float rounding is not modelled either.
- Energy.Joules: a counter sum too large for a Python float (an OverflowError in `total_uj / 1e6`) is not modelled. There, the model gives a value where Python would raise.
- Text.ParseInt: only ASCII digits are accepted, whereas Python's `int()` also accepts other Unicode decimal digits. Numerals of any length are accepted, whereas `int()` raises ValueError past the interpreter's integer string conversion limit (4300 digits by default). In the source, such a `/proc/stat` field makes `cpu_percent` report unavailable, and such an `energy_uj` file is skipped. Text.ParseIntDecimal, Energy.CounterFileValue, Cpu.DecodeStatLine and Cpu.StatCounters therefore describe the source only for numerals within that limit.
- Cpu.CpuPercent: the true division `di / dt` (line 40) raises OverflowError when the quotient does not fit in a float (for instance a previous idle count of 10^400 against a fresh line of zeros). The source then returns unavailable and drops the snapshot (line 42), while the model returns the exact utilisation and keeps the snapshot. Its contract, and Sampling.CpuField built on it, hold only outside that case.
- Cpu.Advance: the same OverflowError path is not modelled; outside it, its contract matches the source.
- Writing the metrics file is assumed to succeed. In the source, a failed `open` or write (line 73 or 87, for instance a missing directory or a full disk) raises out of `sampler()` and ends the thread, so no further rows are written; the model keeps appending a row for every tick.
- CSV writing is modelled as appending the list of fields. The csv module's quoting, delimiters and line terminators are not modelled.
- Sampling.Sampler.Step: its contract states the invariant and the readings. The appended row is stated by Sampling.Sampler.Record, and the rows through Sampling.Sampler.Valid.
- No run index or correlated output paths are derived: `METRICS_CSV` is a fixed path (line 7), truncated on every run.
- app.py, export_resnet_onnx.py and ort_grpc_bench.py are not part of this model. They hold web-service, model-export and benchmark code over foreign libraries.
