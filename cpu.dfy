/** The `/proc/stat` decoder (`read_cpu_totals`) and the utilisation tracker
    (`cpu_percent`). The decoder reads the file's first line -- the `cpu`
    tag followed by the aggregate tick counters, in the kernel's order user,
    nice, system, idle, iowait, irq, softirq and then the virtualisation
    counters -- and folds its first seven counters into total and idle
    ticks. The
    tracker compares a fresh snapshot with the previous one, which the caller
    threads from call to call; a failed read yields the unavailable marker
    and drops the previous snapshot. */
module Cpu {

  import opened Optional
  import opened Text

  /** A snapshot of the aggregate CPU line: all ticks and idle ticks. */
  datatype CpuTotals = CpuTotals(total: int, idle: int)

  // ---------------------------------------------------------------------------
  // Decoding /proc/stat
  // ---------------------------------------------------------------------------

  /** The first line as `f.readline()` returns it; text mode ends a line at
      "\n", "\r" or "\r\n", and the terminator is whitespace to `split()`. */
  function FirstLine(txt: string): (line: string)
    ensures |line| <= |txt| && line == txt[..|line|]
    ensures '\n' !in line && '\r' !in line
    ensures |line| < |txt| ==> txt[|line|] == '\n' || txt[|line|] == '\r'
  {
    if txt == [] || txt[0] == '\n' || txt[0] == '\r' then ""
    else
      var rest := FirstLine(txt[1..]);
      assert [txt[0]] + rest == txt[..1 + |rest|];
      [txt[0]] + rest
  }

  /** `map(parse, fields)` forced into a list: the parse applied to every
      field, in order; None as soon as any of them fails. */
  function MapAll(parse: string -> Option<int>, fields: seq<string>): (r: Option<seq<int>>)
    ensures r.Some? <==> forall k :: 0 <= k < |fields| ==> parse(fields[k]).Some?
    ensures r.Some? ==> |r.value| == |fields|
    ensures r.Some? ==> forall k :: 0 <= k < |fields| ==> parse(fields[k]) == Some(r.value[k])
  {
    if fields == [] then Some([])
    else
      var head := parse(fields[0]);
      var tail := MapAll(parse, fields[1..]);
      assert forall k :: 1 <= k < |fields| ==> fields[k] == fields[1..][k - 1];
      if head.None? || tail.None? then None
      else Some([head.value] + tail.value)
  }

  /** Fields 1 to 7 parsed as integers and indexed as seven entries:
      user, nice, system, idle, iowait, irq and softirq. Fewer than eight
      fields (an IndexError) or a field that is not an integer (a ValueError)
      gives None; the tag and everything after the seventh counter are
      never looked at. */
  function Counters(fields: seq<string>): (r: Option<seq<int>>)
    ensures r.Some? <==> |fields| >= 8 && forall k :: 1 <= k < 8 ==> ParseInt(fields[k]).Some?
    ensures r.Some? ==> |r.value| == 7 && forall k :: 0 <= k < 7 ==> ParseInt(fields[k + 1]) == Some(r.value[k])
  {
    if |fields| < 8 then None
    else
      var r := MapAll(ParseInt, fields[1..8]);
      assert forall k :: 1 <= k < 8 ==> fields[k] == fields[1..8][k - 1];
      r
  }

  /** The fold of the seven counters: idle + iowait are idle ticks, and the
      total adds user, nice, system, irq and softirq. */
  function Fold(v: seq<int>): (t: CpuTotals)
    requires |v| == 7
    ensures t.idle == v[3] + v[4]
    ensures t.total - t.idle == v[0] + v[1] + v[2] + v[5] + v[6]
    ensures (forall k :: 0 <= k < 7 ==> v[k] >= 0) ==> 0 <= t.idle <= t.total
  {
    var idle := v[3] + v[4];
    var nonidle := v[0] + v[1] + v[2] + v[5] + v[6];
    CpuTotals(idle + nonidle, idle)
  }

  /** The seven counters of the stat file's first line (None when the file
      cannot be read or the line is malformed). */
  function ReadCounters(stat: Option<string>): (r: Option<seq<int>>)
    ensures stat.None? ==> r.None?
    ensures r.Some? ==> |r.value| == 7
  {
    match stat
    case None => None
    case Some(txt) => Counters(Split(FirstLine(txt)))
  }

  /** `read_cpu_totals()`, with None for every exception it lets escape. */
  function ReadCpuTotals(stat: Option<string>): (r: Option<CpuTotals>)
    ensures r.Some? <==> ReadCounters(stat).Some?
  {
    match ReadCounters(stat)
    case None => None
    case Some(v) => Some(Fold(v))
  }

  // ---------------------------------------------------------------------------
  // Utilisation
  // ---------------------------------------------------------------------------

  /** `max(t2 - t1, 1)`: the tick difference, floored at one. */
  function Divisor(t1: int, t2: int): (dt: int)
    ensures dt >= 1 && dt >= t2 - t1
    ensures t2 - t1 >= 1 ==> dt == t2 - t1
  {
    if t2 - t1 > 1 then t2 - t1 else 1
  }

  /** `100 * (1 - di / dt)` between two snapshots, in exact arithmetic: a
      snapshot compared with itself reads as full load, and ticks that all
      went to idle read as none. */
  function Utilisation(prev: CpuTotals, cur: CpuTotals): (u: real)
    ensures prev == cur ==> u == 100.0
    ensures cur.total - prev.total >= 1 && cur.idle - prev.idle == cur.total - prev.total ==> u == 0.0
  {
    var dt := Divisor(prev.total, cur.total);
    var di := cur.idle - prev.idle;
    100.0 * (1.0 - (di as real) / (dt as real))
  }

  /** `cpu_percent(prev)` given the stat file: the utilisation since `prev`
      (since the fresh snapshot itself when there is none) and the snapshot
      to pass to the next call. */
  function CpuPercent(prev: Option<CpuTotals>, stat: Option<string>): (r: (Option<real>, Option<CpuTotals>))
    ensures r.1 == ReadCpuTotals(stat)
    ensures r.0.Some? <==> r.1.Some?
    ensures prev.None? && r.1.Some? ==> r.0 == Some(100.0)
    ensures prev.Some? && r.1.Some? ==> r.0 == Some(Utilisation(prev.value, r.1.value))
  {
    Advance(prev, ReadCpuTotals(stat))
  }

  /** The tracker's step once the fresh snapshot `cur` is known. */
  function Advance(prev: Option<CpuTotals>, cur: Option<CpuTotals>): (r: (Option<real>, Option<CpuTotals>))
    ensures r.1 == cur
    ensures r.0.Some? <==> cur.Some?
    ensures prev.None? && cur.Some? ==> r.0 == Some(100.0)
    ensures prev.Some? && cur.Some? ==> r.0 == Some(Utilisation(prev.value, cur.value))
  {
    match cur
    case None => (None, None)
    case Some(c) =>
      var base := if prev.Some? then prev.value else c;
      (Some(Utilisation(base, c)), Some(c))
  }

  // ---------------------------------------------------------------------------
  // Lemmas
  // ---------------------------------------------------------------------------

  /** A fraction a / b with 0 <= a <= b lies in [0, 1]. */
  lemma FractionInUnit(a: int, b: int)
    requires 0 <= a <= b && b >= 1
    ensures 0.0 <= (a as real) / (b as real) <= 1.0
  {
  }

  /** A positive factor cancels. */
  lemma Cancel(x: real, y: real, b: real)
    requires b > 0.0 && x * b == y * b
    ensures x == y
  {
  }

  /** Neither the idle ticks nor the busy ticks went down between two
      snapshots. */
  predicate NoDecrease(prev: CpuTotals, cur: CpuTotals)
  {
    prev.idle <= cur.idle && prev.total - prev.idle <= cur.total - cur.idle
  }

  /** Between snapshots whose idle and busy ticks did not go down, the
      utilisation lies between 0 and 100 -- whether or not any tick elapsed
      in between. */
  lemma UtilisationWithin(prev: CpuTotals, cur: CpuTotals)
    requires NoDecrease(prev, cur)
    ensures 0.0 <= Utilisation(prev, cur) <= 100.0
  {
    var dt := Divisor(prev.total, cur.total);
    var di := cur.idle - prev.idle;
    assert 0 <= di <= dt;
    FractionInUnit(di, dt);
  }

  /** Counters that never decrease give snapshots whose idle and busy ticks
      do not go down, hence a utilisation between 0 and 100. */
  lemma UtilisationBounded(v1: seq<int>, v2: seq<int>)
    requires |v1| == 7 && |v2| == 7
    requires forall k :: 0 <= k < 7 ==> v1[k] <= v2[k]
    ensures NoDecrease(Fold(v1), Fold(v2))
    ensures 0.0 <= Utilisation(Fold(v1), Fold(v2)) <= 100.0
  {
    UtilisationWithin(Fold(v1), Fold(v2));
  }

  /** When ticks elapsed, the utilisation is the share of non-idle ticks:
      100 * (busy ticks elapsed) / (ticks elapsed). */
  lemma UtilisationIsBusyShare(prev: CpuTotals, cur: CpuTotals)
    requires cur.total - prev.total >= 1
    ensures Utilisation(prev, cur)
         == 100.0 * ((((cur.total - cur.idle) - (prev.total - prev.idle)) as real) / ((cur.total - prev.total) as real))
  {
    var dt := (cur.total - prev.total) as real;
    var di := (cur.idle - prev.idle) as real;
    var x, y := 1.0 - di / dt, (dt - di) / dt;
    assert (di / dt) * dt == di;
    assert x * dt == dt - di;
    assert y * dt == dt - di;
    Cancel(x, y, dt);
  }

  /** A stat line whose counters never decreased yields a utilisation within
      [0, 100] against the previous line's snapshot. */
  lemma CpuPercentBounded(stat1: Option<string>, stat2: Option<string>)
    requires ReadCounters(stat1).Some? && ReadCounters(stat2).Some?
    requires forall k :: 0 <= k < 7 ==> ReadCounters(stat1).value[k] <= ReadCounters(stat2).value[k]
    ensures CpuPercent(ReadCpuTotals(stat1), stat2).0.Some?
    ensures 0.0 <= CpuPercent(ReadCpuTotals(stat1), stat2).0.value <= 100.0
  {
    UtilisationBounded(ReadCounters(stat1).value, ReadCounters(stat2).value);
  }

  /** After a failed read the tracker forgets its snapshot, so the next call
      behaves exactly like a first call. */
  lemma FailureResets(prev: Option<CpuTotals>, bad: Option<string>, next: Option<string>)
    requires ReadCpuTotals(bad).None?
    ensures CpuPercent(prev, bad) == (None, None)
    ensures CpuPercent(CpuPercent(prev, bad).1, next) == CpuPercent(None, next)
  {
  }

  /** Fields after the seventh counter never matter. */
  lemma ExtraFieldsIgnored(fields: seq<string>, extra: seq<string>)
    requires |fields| >= 8
    ensures Counters(fields + extra) == Counters(fields)
  {
    assert (fields + extra)[1..8] == fields[1..8];
  }

  /** The words of a stat line as the kernel writes it: a tag, then the
      counters in decimal. */
  function StatWords(tag: string, counters: seq<nat>): (words: seq<string>)
    ensures |words| == |counters| + 1
  {
    [tag] + seq(|counters|, k requires 0 <= k < |counters| => Decimal(counters[k]))
  }

  /** Decoding a stat file whose first line is a tag, at least seven
      counters and perhaps more fields gives back the fold of the first seven
      counters, whatever follows the line. */
  lemma DecodeStatLine(tag: string, counters: seq<nat>, rest: string)
    requires IsWord(tag) && '\n' !in tag && '\r' !in tag
    requires |counters| >= 7
    ensures ReadCpuTotals(Some(JoinWords(StatWords(tag, counters)) + "\n" + rest)) == Some(Fold(counters[..7]))
  {
    var words := StatWords(tag, counters);
    StatWordsAreWords(tag, counters);
    var line := JoinWords(words);
    JoinWordsChars(words, '\n');
    JoinWordsChars(words, '\r');
    FirstLineOf(line, rest);
    SplitJoinWords(words);
    StatCounters(tag, counters);
  }

  /** Every word of a stat line is a word free of line breaks. */
  lemma StatWordsAreWords(tag: string, counters: seq<nat>)
    requires IsWord(tag) && '\n' !in tag && '\r' !in tag
    ensures forall w :: w in StatWords(tag, counters) ==> IsWord(w) && '\n' !in w && '\r' !in w
  {
    var words := StatWords(tag, counters);
    forall k | 0 <= k < |words| ensures IsWord(words[k]) && '\n' !in words[k] && '\r' !in words[k] {
      if k > 0 {
        var d := Decimal(counters[k - 1]);
        assert words[k] == d;
        assert forall i :: 0 <= i < |d| ==> !IsSpace(d[i]);
      }
    }
  }

  /** A line without breaks, then "\n", reads back as that line. */
  lemma FirstLineOf(line: string, rest: string)
    requires '\n' !in line && '\r' !in line
    ensures FirstLine(line + "\n" + rest) == line
  {
    var txt := line + "\n" + rest;
    var f := FirstLine(txt);
    assert txt[..|line|] == line && txt[|line|] == '\n';
  }

  /** The decimal fields of a stat line parse back to its counters. */
  lemma StatCounters(tag: string, counters: seq<nat>)
    requires |counters| >= 7
    ensures Counters(StatWords(tag, counters)) == Some(counters[..7])
  {
    StatFields(tag, counters);
    assert forall k :: 0 <= k < 7 ==> counters[..7][k] == counters[k];
    CountersExact(StatWords(tag, counters), counters[..7]);
  }

  /** Fields 1 to 7 that parse to the given values make those values the
      counters. */
  lemma CountersExact(fields: seq<string>, values: seq<int>)
    requires |fields| >= 8 && |values| == 7
    requires forall k :: 0 <= k < 7 ==> ParseInt(fields[k + 1]) == Some(values[k])
    ensures Counters(fields) == Some(values)
  {
    assert forall k :: 1 <= k < 8 ==> ParseInt(fields[k]).Some? by {
      forall k | 1 <= k < 8 ensures ParseInt(fields[k]).Some? {
        assert ParseInt(fields[(k - 1) + 1]) == Some(values[k - 1]);
      }
    }
    var r := Counters(fields).value;
    assert |r| == |values|;
    assert forall k :: 0 <= k < 7 ==> r[k] == values[k];
    assert r == values;
  }

  /** The first seven counter fields of a stat line all parse back. */
  lemma StatFields(tag: string, counters: seq<nat>)
    requires |counters| >= 7
    ensures forall k :: 0 <= k < 7 ==> ParseInt(StatWords(tag, counters)[k + 1]) == Some(counters[k] as int)
  {
    forall k | 0 <= k < 7 ensures ParseInt(StatWords(tag, counters)[k + 1]) == Some(counters[k] as int) {
      StatField(tag, counters, k + 1);
    }
  }

  /** Field k of a stat line parses back to counter k - 1. */
  lemma StatField(tag: string, counters: seq<nat>, k: nat)
    requires 1 <= k <= |counters|
    ensures ParseInt(StatWords(tag, counters)[k]) == Some(counters[k - 1] as int)
  {
    var d := Decimal(counters[k - 1]);
    assert StatWords(tag, counters)[k] == d;
    ParseIntDecimal(counters[k - 1], "", "");
    assert "" + d + "" == d;
  }
}
