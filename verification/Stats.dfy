/** Guest CPU statistics.

    The shim turns cumulative CPU time into millicores, one sample at a time,
    with 64-bit integer division.  This module proves what the flooring loses:
    over a whole run, less than one millicore. */
module Stats {
  import opened Options
  import opened Words

  datatype Snapshot = Snapshot(cpuNano: Uint64, ts: Int64, prevCpu: Uint64, prevTs: Int64, milliCpu: Int64)

  /** The usage of `used` nanoseconds in `dt`, as the source computes it: the
      product and the conversion wrap. */
  function MilliCpu(used: Uint64, dt: Int64): Int64
    requires dt > 0
  {
    Signed(used * 1000 % TWO64 / dt)
  }

  /** MergeSampleAt. */
  function Merge(prev: Option<Snapshot>, cpuNano: Uint64, now: Int64): Snapshot {
    match prev
    case None => Snapshot(cpuNano, now, 0, 0, 0)
    case Some(p) =>
      if p.ts > 0 && now > p.ts && cpuNano >= p.cpuNano
      then Snapshot(cpuNano, now, p.cpuNano, p.ts, MilliCpu(cpuNano - p.cpuNano, now - p.ts))
      else Snapshot(cpuNano, now, p.cpuNano, p.ts, p.milliCpu)
  }

  /** A first sample has no rate; a counter that went back, or time that did not
      pass, keeps the rate there was; otherwise the rate is over the step alone. */
  lemma MergeIs(prev: Option<Snapshot>, cpuNano: Uint64, now: Int64)
    ensures var s := Merge(prev, cpuNano, now);
            && s.cpuNano == cpuNano && s.ts == now
            && (prev.None? ==> s.prevCpu == 0 && s.prevTs == 0 && s.milliCpu == 0)
            && (prev.Some? ==> s.prevCpu == prev.value.cpuNano && s.prevTs == prev.value.ts)
            && (prev.Some? && (prev.value.ts <= 0 || now <= prev.value.ts || cpuNano < prev.value.cpuNano) ==>
                  s.milliCpu == prev.value.milliCpu)
  {
  }

  /** The usage fits the arithmetic. */
  predicate Fits(used: int, dt: int)
    requires dt > 0
  {
    used * 1000 < TWO64 && used * 1000 / dt < TWO63
  }

  /** `m` millicores is the usage rounded down. */
  predicate RoundsDown(m: int, used: int, dt: int) {
    m * dt <= 1000 * used < (m + 1) * dt
  }

  lemma FittingRoundsDown(used: Uint64, dt: Int64)
    requires dt > 0 && Fits(used, dt)
    ensures RoundsDown(MilliCpu(used, dt), used, dt)
  {
    var x := used * 1000;
    assert x % TWO64 == x;
    DivBounds(x, dt);
    assert MilliCpu(used, dt) == x / dt;
  }

  /** A quotient past the signed range turns negative. */
  lemma SignedWrap(used: Uint64, dt: Int64)
    requires dt > 0 && used * 1000 < TWO64 && used * 1000 / dt >= TWO63
    ensures !RoundsDown(MilliCpu(used, dt), used, dt)
  {
    var m := MilliCpu(used, dt);
    assert used * 1000 % TWO64 == used * 1000;
    assert m + 1 <= 0;
    Monotone(m + 1, 0, dt);
  }

  /** A product past the unsigned range loses 2^64, more than any `dt`. */
  lemma ProductWrap(used: Uint64, dt: Int64)
    requires dt > 0 && used * 1000 >= TWO64
    ensures !RoundsDown(MilliCpu(used, dt), used, dt)
  {
    var w := used * 1000 % TWO64;
    assert w + TWO64 <= used * 1000;
    DivBounds(w, dt);
    var m, q := MilliCpu(used, dt), w / dt;
    assert m <= q;
    Monotone(m + 1, q + 1, dt);
    assert (q + 1) * dt == q * dt + dt;
    assert (m + 1) * dt <= w + dt < used * 1000;
  }

  /** One sample is the usage rounded down, exactly when nothing wraps. */
  lemma SampleRoundsDownExactly(used: Uint64, dt: Int64)
    requires dt > 0
    ensures RoundsDown(MilliCpu(used, dt), used, dt) <==> Fits(used, dt)
  {
    if Fits(used, dt) {
      FittingRoundsDown(used, dt);
    } else if used * 1000 < TWO64 {
      SignedWrap(used, dt);
    } else {
      ProductWrap(used, dt);
    }
  }

  // ---------------------------------------------------------------- runs

  datatype Sample = Sample(cpuNano: Uint64, ts: Int64)

  function Fold(prev: Snapshot, samples: seq<Sample>): seq<Snapshot> {
    if samples == [] then [prev]
    else
      var before := Fold(prev, samples[..|samples| - 1]);
      var x := samples[|samples| - 1];
      before + [Merge(Some(before[|before| - 1]), x.cpuNano, x.ts)]
  }

  /** Sum over the snapshots of millicores times elapsed time. */
  function Charged(snaps: seq<Snapshot>): int {
    if |snaps| <= 1 then 0
    else
      var a, b := snaps[|snaps| - 2], snaps[|snaps| - 1];
      Charged(snaps[..|snaps| - 1]) + b.milliCpu * (b.ts - a.ts)
  }

  function Last(s: Sample, samples: seq<Sample>): Sample {
    if samples == [] then s else samples[|samples| - 1]
  }

  /** Time passes, CPU time does not shrink, and the step fits. */
  predicate Follows(a: Sample, b: Sample) {
    && a.ts < b.ts && b.ts - a.ts < TWO63 && a.cpuNano <= b.cpuNano
    && Fits(b.cpuNano - a.cpuNano, b.ts - a.ts)
  }

  predicate Regular(s: Sample, samples: seq<Sample>) {
    samples == [] ||
    (&& Regular(s, samples[..|samples| - 1])
     && Follows(Last(s, samples[..|samples| - 1]), samples[|samples| - 1]))
  }

  /** One more sample, from the last snapshot on. */
  lemma {:induction false} FoldStep(first: Snapshot, samples: seq<Sample>)
    requires samples != [] && |Fold(first, samples[..|samples| - 1])| == |samples|
    ensures var before, snaps := Fold(first, samples[..|samples| - 1]), Fold(first, samples);
            var a, x := before[|samples| - 1], samples[|samples| - 1];
            && |snaps| == |samples| + 1 && snaps[|samples|] == Merge(Some(a), x.cpuNano, x.ts)
            && Charged(snaps) == Charged(before) + snaps[|samples|].milliCpu * (snaps[|samples|].ts - a.ts)
  {
    var snaps := Fold(first, samples);
    assert snaps[..|snaps| - 1] == Fold(first, samples[..|samples| - 1]);
  }

  /** A sample that follows is charged its usage rounded down. */
  lemma MergeRoundsDown(a: Snapshot, x: Sample)
    requires a.ts > 0 && Follows(Sample(a.cpuNano, a.ts), x)
    ensures var b := Merge(Some(a), x.cpuNano, x.ts);
            && b.cpuNano == x.cpuNano && b.ts == x.ts
            && RoundsDown(b.milliCpu, x.cpuNano - a.cpuNano, x.ts - a.ts)
  {
    SampleRoundsDownExactly(x.cpuNano - a.cpuNano, x.ts - a.ts);
  }

  lemma NextMultiple(m: int, d: int)
    ensures (m + 1) * d == m * d + d
  {
  }

  /** The snapshots are those of the samples, and what flooring lost so far is
      less than the time elapsed. */
  ghost predicate Loses(first: Snapshot, samples: seq<Sample>) {
    var s, snaps := Sample(first.cpuNano, first.ts), Fold(first, samples);
    var last := Last(s, samples);
    var lost := 1000 * (last.cpuNano - s.cpuNano) - Charged(snaps);
    && |snaps| == |samples| + 1
    && (last.cpuNano, last.ts) == (snaps[|samples|].cpuNano, snaps[|samples|].ts) && last.ts >= first.ts
    && 0 <= lost && (if samples == [] then lost == 0 else lost < last.ts - s.ts)
  }

  /** Over every regular run the time charged is at most the time used, and the
      difference is less than one millicore over the elapsed time. */
  lemma {:induction false} FlooringLosesLessThanOne(first: Snapshot, samples: seq<Sample>)
    requires first.ts > 0 && Regular(Sample(first.cpuNano, first.ts), samples)
    ensures Loses(first, samples)
  {
    if samples != [] {
      var init, x := samples[..|samples| - 1], samples[|samples| - 1];
      FlooringLosesLessThanOne(first, init);
      FoldStep(first, samples);
      var a := Fold(first, init)[|init|];
      MergeRoundsDown(a, x);
      NextMultiple(Merge(Some(a), x.cpuNano, x.ts).milliCpu, x.ts - a.ts);
    }
  }
}
