/** The RAPL energy reader (`rapl_energy_joules_sum`) and the relative-energy
    expression of the sampler. The reader sums the microjoule counters of
    every `energy_uj` file the two powercap listings name -- first the
    top-level domains, then the nested subdomains -- skipping the files that
    cannot be read or parsed, and reports the sum in joules; a sum of zero
    is reported as unavailable. */
module Energy {

  import opened Optional
  import opened Text

  /** Microjoules per joule. */
  const MicrojoulesPerJoule: real := 1000000.0

  /** One counter file read whole, stripped and parsed as an integer; None
      when the file cannot be read (None) or its text is not an integer. */
  function CounterValue(file: Option<string>): Option<int>
  {
    match file
    case None => None
    case Some(txt) => ParseInt(Strip(txt))
  }

  /** The values of the readable counter files, in listing order. */
  function Readings(files: seq<Option<string>>): (r: seq<int>)
    ensures |r| <= |files|
  {
    if files == [] then []
    else
      var init := Readings(files[..|files| - 1]);
      match CounterValue(files[|files| - 1])
      case None => init
      case Some(v) => init + [v]
  }

  /** The integer sum of a sequence, accumulated left to right. */
  function Sum(xs: seq<int>): int
  {
    if xs == [] then 0 else Sum(xs[..|xs| - 1]) + xs[|xs| - 1]
  }

  /** `total_uj / 1e6`, except that a zero total means "no energy reading". */
  function Joules(totalUj: int): (e: Option<real>)
    ensures e.None? <==> totalUj == 0
    ensures e.Some? ==> e.value * MicrojoulesPerJoule == totalUj as real
  {
    if totalUj == 0 then None else Some(totalUj as real / MicrojoulesPerJoule)
  }

  /** The reading `rapl_energy_joules_sum` returns for the given listings. */
  function EnergyReading(top: seq<Option<string>>, nested: seq<Option<string>>): Option<real>
  {
    Joules(TotalMicrojoules(top, nested))
  }

  /** `total_uj` after both loops. */
  function TotalMicrojoules(top: seq<Option<string>>, nested: seq<Option<string>>): int
  {
    Sum(Readings(top)) + Sum(Readings(nested))
  }

  /** `rapl_energy_joules_sum()`: `top` and `nested` are the files the two
      listings name, in the order the listings give them. */
  method RaplEnergyJoulesSum(top: seq<Option<string>>, nested: seq<Option<string>>) returns (e: Option<real>)
    ensures e == EnergyReading(top, nested)
  {
    var totalUj := 0;
    for i := 0 to |top|
      invariant totalUj == Sum(Readings(top[..i]))
    {
      var v := CounterValue(top[i]);
      ReadingsStep(top, i);
      if v.Some? {
        totalUj := totalUj + v.value;
      }
    }
    assert top[..|top|] == top;
    var topUj := totalUj;
    for i := 0 to |nested|
      invariant totalUj == topUj + Sum(Readings(nested[..i]))
    {
      var v := CounterValue(nested[i]);
      ReadingsStep(nested, i);
      if v.Some? {
        totalUj := totalUj + v.value;
      }
    }
    assert nested[..|nested|] == nested;
    if totalUj == 0 {
      return None;
    }
    return Some(totalUj as real / MicrojoulesPerJoule);
  }

  /** One more file extends the readings by its value, if it has one. */
  lemma ReadingsStep(files: seq<Option<string>>, i: nat)
    requires i < |files|
    ensures var v := CounterValue(files[i]);
      Sum(Readings(files[..i + 1])) == Sum(Readings(files[..i])) + (if v.Some? then v.value else 0)
  {
    assert files[..i + 1][..i] == files[..i];
  }

  /** Line 85: `ej - e0` when both readings are available, else unavailable. */
  function RelativeEnergy(ej: Option<real>, e0: Option<real>): (r: Option<real>)
    ensures r.Some? <==> ej.Some? && e0.Some?
    ensures r.Some? ==> e0.value + r.value == ej.value
  {
    if ej.Some? && e0.Some? then Some(ej.value - e0.value) else None
  }

  // ---------------------------------------------------------------------------
  // Lemmas
  // ---------------------------------------------------------------------------

  lemma {:induction false} SumAppend(a: seq<int>, b: seq<int>)
    ensures Sum(a + b) == Sum(a) + Sum(b)
    decreases |b|
  {
    if b != [] {
      var b' := b[..|b| - 1];
      assert (a + b)[..|a + b| - 1] == a + b';
      SumAppend(a, b');
    } else {
      assert a + b == a;
    }
  }

  /** Taking element j out of a sequence takes one copy of it out of the
      multiset. */
  lemma SplitAt<T>(b: seq<T>, j: nat)
    requires j < |b|
    ensures b == b[..j] + [b[j]] + b[j + 1..]
    ensures multiset(b[..j] + b[j + 1..]) == multiset(b) - multiset{b[j]}
  {
    assert b == b[..j] + [b[j]] + b[j + 1..];
    assert multiset(b) == multiset(b[..j]) + multiset{b[j]} + multiset(b[j + 1..]);
  }

  lemma SumRemoveAt(b: seq<int>, j: nat)
    requires j < |b|
    ensures Sum(b) == Sum(b[..j] + b[j + 1..]) + b[j]
  {
    SplitAt(b, j);
    SumAppend(b[..j] + [b[j]], b[j + 1..]);
    SumAppend(b[..j], [b[j]]);
    SumAppend(b[..j], b[j + 1..]);
    assert Sum([b[j]]) == Sum([]) + b[j];
  }

  /** The last element of `f` has a copy at some index j of a permutation
      `g`; removing both leaves permutations of each other. */
  lemma MatchLast<T>(f: seq<T>, g: seq<T>) returns (j: nat)
    requires f != [] && multiset(f) == multiset(g)
    ensures j < |g| && g[j] == f[|f| - 1]
    ensures f == f[..|f| - 1] + [f[|f| - 1]]
    ensures multiset(f[..|f| - 1]) == multiset(g[..j] + g[j + 1..])
  {
    var x := f[|f| - 1];
    assert f == f[..|f| - 1] + [x];
    assert multiset(f[..|f| - 1]) == multiset(f) - multiset{x};
    assert x in multiset(g);
    j :| 0 <= j < |g| && g[j] == x;
    SplitAt(g, j);
  }

  /** The sum depends only on the multiset of values, not on their order. */
  lemma {:induction false} SumPermutation(a: seq<int>, b: seq<int>)
    requires multiset(a) == multiset(b)
    ensures Sum(a) == Sum(b)
    decreases |a|
  {
    if a == [] {
      assert |b| == |multiset(b)| == 0;
    } else {
      var j := MatchLast(a, b);
      SumPermutation(a[..|a| - 1], b[..j] + b[j + 1..]);
      SumRemoveAt(b, j);
    }
  }

  lemma {:induction false} ReadingsAppend(f: seq<Option<string>>, g: seq<Option<string>>)
    ensures Readings(f + g) == Readings(f) + Readings(g)
    decreases |g|
  {
    if g == [] {
      assert f + g == f;
    } else {
      var g' := g[..|g| - 1];
      assert (f + g)[..|f + g| - 1] == f + g';
      ReadingsAppend(f, g');
    }
  }

  lemma ReadingsRemoveAt(g: seq<Option<string>>, j: nat)
    requires j < |g|
    ensures Readings(g) == Readings(g[..j]) + Readings([g[j]]) + Readings(g[j + 1..])
    ensures Readings(g[..j] + g[j + 1..]) == Readings(g[..j]) + Readings(g[j + 1..])
  {
    SplitAt(g, j);
    ReadingsAppend(g[..j] + [g[j]], g[j + 1..]);
    ReadingsAppend(g[..j], [g[j]]);
    ReadingsAppend(g[..j], g[j + 1..]);
  }

  /** Listing the same files in another order yields the same values, up to
      order. */
  lemma {:induction false} ReadingsPermutation(f: seq<Option<string>>, g: seq<Option<string>>)
    requires multiset(f) == multiset(g)
    ensures multiset(Readings(f)) == multiset(Readings(g))
    decreases |f|
  {
    if f == [] {
      assert |g| == |multiset(g)| == 0;
    } else {
      var j := MatchLast(f, g);
      var f', g' := f[..|f| - 1], g[..j] + g[j + 1..];
      ReadingsPermutation(f', g');
      ReadingsRemoveAt(g, j);
      ReadingsAppend(f', [g[j]]);
      var before, here, after := Readings(g[..j]), Readings([g[j]]), Readings(g[j + 1..]);
      calc {
        multiset(Readings(f));
        multiset(Readings(f') + here);
        multiset(Readings(f')) + multiset(here);
        multiset(before + after) + multiset(here);
        multiset(before + here + after);
        multiset(Readings(g));
      }
    }
  }

  /** The reading depends only on the multiset of readable counter values:
      neither the order of the listings nor which listing named a file
      matters. */
  lemma EnergyDependsOnValues(top1: seq<Option<string>>, nested1: seq<Option<string>>,
                              top2: seq<Option<string>>, nested2: seq<Option<string>>)
    requires multiset(Readings(top1) + Readings(nested1)) == multiset(Readings(top2) + Readings(nested2))
    ensures EnergyReading(top1, nested1) == EnergyReading(top2, nested2)
  {
    SumAppend(Readings(top1), Readings(nested1));
    SumAppend(Readings(top2), Readings(nested2));
    SumPermutation(Readings(top1) + Readings(nested1), Readings(top2) + Readings(nested2));
    assert TotalMicrojoules(top1, nested1) == TotalMicrojoules(top2, nested2);
  }

  /** Listing order is irrelevant. */
  lemma ListingOrderIrrelevant(top1: seq<Option<string>>, nested1: seq<Option<string>>,
                               top2: seq<Option<string>>, nested2: seq<Option<string>>)
    requires multiset(top1) == multiset(top2) && multiset(nested1) == multiset(nested2)
    ensures EnergyReading(top1, nested1) == EnergyReading(top2, nested2)
  {
    ReadingsPermutation(top1, top2);
    ReadingsPermutation(nested1, nested2);
    EnergyDependsOnValues(top1, nested1, top2, nested2);
  }

  /** A file that cannot be read or parsed is skipped: adding it to either
      listing changes nothing. */
  lemma UnreadableSkipped(top: seq<Option<string>>, nested: seq<Option<string>>, bad: Option<string>)
    requires CounterValue(bad).None?
    ensures EnergyReading(top + [bad], nested) == EnergyReading(top, nested)
    ensures EnergyReading(top, nested + [bad]) == EnergyReading(top, nested)
  {
    SkipOne(top, bad);
    EnergyDependsOnValues(top + [bad], nested, top, nested);
    SkipOne(nested, bad);
    EnergyDependsOnValues(top, nested + [bad], top, nested);
  }

  lemma SkipOne(files: seq<Option<string>>, bad: Option<string>)
    requires CounterValue(bad).None?
    ensures Readings(files + [bad]) == Readings(files)
  {
    assert (files + [bad])[..|files|] == files;
  }

  /** Counters that all read zero -- or no readable counter at all -- give
      "unavailable", not 0 joules. */
  lemma {:induction false} AllZeroUnavailable(top: seq<Option<string>>, nested: seq<Option<string>>)
    requires forall v :: v in Readings(top) + Readings(nested) ==> v == 0
    ensures EnergyReading(top, nested).None?
  {
    var vs := Readings(top) + Readings(nested);
    assert forall i :: 0 <= i < |vs| ==> vs[i] in vs;
    SumAppend(Readings(top), Readings(nested));
    SumOfZeros(vs);
  }

  lemma {:induction false} SumOfZeros(xs: seq<int>)
    requires forall i :: 0 <= i < |xs| ==> xs[i] == 0
    ensures Sum(xs) == 0
    decreases |xs|
  {
    if xs != [] {
      SumOfZeros(xs[..|xs| - 1]);
    }
  }

  /** A counter file holding a decimal number, padded with whitespace such as
      the kernel's trailing newline, reads as that number. */
  lemma CounterFileValue(n: nat, pre: string, post: string)
    requires AllSpace(pre) && AllSpace(post)
    ensures CounterValue(Some(pre + Decimal(n) + post)) == Some(n as int)
  {
    var d := Decimal(n);
    assert forall i :: 0 <= i < |d| ==> !IsSpace(d[i]);
    StripPadded(pre, d, post);
    ParseIntDecimal(n, "", "");
    assert "" + d + "" == d;
  }

  /** The relative energy of two nonzero totals is their difference in
      joules, negative when the current total is below the baseline (a
      counter that wrapped around, for instance). */
  lemma RelativeEnergyOfTotals(baselineUj: int, currentUj: int)
    requires baselineUj != 0 && currentUj != 0
    ensures RelativeEnergy(Joules(currentUj), Joules(baselineUj)) == Some((currentUj - baselineUj) as real / MicrojoulesPerJoule)
    ensures RelativeEnergy(Joules(currentUj), Joules(baselineUj)).value >= 0.0 <==> currentUj >= baselineUj
  {
  }
}
