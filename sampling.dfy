/** Sampling a continuous-time signal over a half-open index range, and the
    zero-default read-back of either result representation over a display range. */
module Sampling {
  import opened Signals

  /** A discrete-time signal as `sampling` returns it: a zero-based dense array
      when the range starts at 0, otherwise a dictionary keyed by the real index. */
  datatype Discrete<V> = Dense(samples: seq<V>) | Offset(values: map<int, V>)

  /** The sampling rate actually used: a non-zero period `T` overrides `fs`. */
  function EffectiveRate(fs: real, T: real): (rate: real)
    ensures T != 0.0 ==> rate * T == 1.0
    ensures T == 0.0 ==> rate == fs
  {
    if T != 0.0 then 1.0 / T else fs
  }

  /** The continuous time of sample index `n`. */
  function SampleTime(n: int, rate: real): real
    requires rate != 0.0
  {
    n as real / rate
  }

  /** With a period `T`, sample `n` is taken at time `n * T`. */
  lemma SampleTimeWithPeriod(n: int, fs: real, T: real)
    requires T != 0.0
    ensures SampleTime(n, EffectiveRate(fs, T)) == n as real * T
  {
  }

  /** Number of indices in `np.arange(a, b)`. */
  function RangeLength(a: int, b: int): nat
  {
    if a <= b then b - a else 0
  }

  /** The vectorised evaluation `x(np.arange(a, b) / fs)`. */
  function Samples<V>(x: real -> V, a: int, b: int, rate: real): seq<V>
    requires rate != 0.0
  {
    seq(RangeLength(a, b), i => x(SampleTime(a + i, rate)))
  }

  /** Whether index `n` holds a stored sample. */
  predicate Stored<V>(x: Discrete<V>, n: int)
  {
    if x.Offset? then n in x.values else 0 <= n < |x.samples|
  }

  /** What `sampling(x, [a, b], fs, T)` returns. */
  function Sampled<V>(x: real -> V, a: int, b: int, fs: real, T: real): (r: Discrete<V>)
    requires EffectiveRate(fs, T) != 0.0
    ensures r.Dense? <==> a == 0
    ensures forall n :: Stored(r, n) <==> a <= n < b
  {
    var rate := EffectiveRate(fs, T);
    if a == 0 then Dense(Samples(x, a, b, rate))
    else Offset(map n | a <= n < b :: x(SampleTime(n, rate)))
  }

  /** `sampling`: evaluate the signal over the range, then, for a non-zero start,
      copy the samples one by one into a dictionary keyed by `n + a`. */
  method Sampling<V>(x: real -> V, a: int, b: int, fs: real := 44100.0, T: real := 0.0)
    returns (r: Discrete<V>)
    requires EffectiveRate(fs, T) != 0.0
    ensures r == Sampled(x, a, b, fs, T)
  {
    var rate := EffectiveRate(fs, T);
    var tmp := Samples(x, a, b, rate);
    if a == 0 {
      r := Dense(tmp);
    } else {
      var m: map<int, V> := map[];
      for n := 0 to |tmp|
        invariant forall k :: k in m <==> a <= k < a + n
        invariant forall k :: k in m ==> m[k] == tmp[k - a]
      {
        m := m[n + a := tmp[n]];
      }
      r := Offset(m);
    }
  }

  /** Range starting at 0: a dense array of length `b`, element `i` sampled at `i / fs`. */
  lemma SampledDense<V>(x: real -> V, b: int, fs: real, T: real)
    requires EffectiveRate(fs, T) != 0.0
    ensures var r := Sampled(x, 0, b, fs, T);
            r.Dense? && |r.samples| == RangeLength(0, b) &&
            forall i :: 0 <= i < |r.samples| ==> r.samples[i] == x(SampleTime(i, EffectiveRate(fs, T)))
  {
  }

  /** Range starting elsewhere: a dictionary whose keys are exactly `a, ..., b-1`
      (none when `b <= a`) and whose key `k` holds the sample taken at `k / fs`. */
  lemma SampledOffset<V>(x: real -> V, a: int, b: int, fs: real, T: real)
    requires EffectiveRate(fs, T) != 0.0
    requires a != 0
    ensures var r := Sampled(x, a, b, fs, T);
            r.Offset? &&
            (forall k :: k in r.values <==> a <= k < b) &&
            forall k :: k in r.values ==> r.values[k] == x(SampleTime(k, EffectiveRate(fs, T)))
  {
  }

  /** The zero-default read of index `n` at utils.py:96 and 98: a missing key of
      the dictionary, or an index outside `[0, len)` of the array, reads as `zero`. */
  function Lookup<V>(x: Discrete<V>, n: int, zero: V): (r: V)
    ensures !Stored(x, n) ==> r == zero
    ensures Stored(x, n) && x.Offset? ==> r == x.values[n]
    ensures Stored(x, n) && x.Dense? ==> r == x.samples[n]
  {
    match x
    case Offset(m) => if n in m then m[n] else zero
    case Dense(s) => if 0 <= n < |s| then s[n] else zero
  }

  /** The values `show_discrete_signal` plots over the display range `[a, b)`. */
  function Gather<V>(x: Discrete<V>, a: int, b: int, zero: V): (r: seq<V>)
    ensures |r| == RangeLength(a, b)
    ensures forall i :: 0 <= i < |r| && !Stored(x, a + i) ==> r[i] == zero
    ensures forall i :: 0 <= i < |r| && Stored(x, a + i) && x.Offset? ==> r[i] == x.values[a + i]
    ensures forall i :: 0 <= i < |r| && Stored(x, a + i) && x.Dense? ==> r[i] == x.samples[a + i]
  {
    var r := seq(RangeLength(a, b), i => Lookup(x, a + i, zero));
    assert forall i :: 0 <= i < |r| ==> r[i] == Lookup(x, a + i, zero);
    r
  }

  /** Reading back over the sampled range returns exactly the signal's samples,
      whichever representation sampling chose. */
  lemma GatherSampled<V>(x: real -> V, a: int, b: int, fs: real, T: real, zero: V)
    requires EffectiveRate(fs, T) != 0.0
    ensures Gather(Sampled(x, a, b, fs, T), a, b, zero) == Samples(x, a, b, EffectiveRate(fs, T))
  {
  }

  /** Gathering over two adjacent ranges is gathering over their union. */
  lemma GatherSplit<V>(x: Discrete<V>, a: int, m: int, b: int, zero: V)
    requires a <= m <= b
    ensures Gather(x, a, b, zero) == Gather(x, a, m, zero) + Gather(x, m, b, zero)
  {
  }

  /** A display range that misses every stored sample shows only zeros. */
  lemma GatherOutsideIsZero<V>(x: Discrete<V>, a: int, b: int, zero: V)
    requires forall n :: a <= n < b ==> !Stored(x, n)
    ensures forall i :: 0 <= i < RangeLength(a, b) ==> Gather(x, a, b, zero)[i] == zero
  {
  }

  /** Sampling the unit step from a non-zero start: key `k` holds 0 exactly for
      the negative indices and 1 for the others (for a positive rate). */
  lemma UnitStepSampled(a: int, b: int, fs: real, T: real)
    requires EffectiveRate(fs, T) > 0.0
    requires a != 0
    ensures var r := Sampled(U, a, b, fs, T);
            r.Offset? && forall k :: k in r.values ==> (r.values[k] == 0 <==> k < 0) && (r.values[k] == 1 <==> k >= 0)
  {
  }

  /** `sampling(u, [-5, 5], fs=1)` is the dictionary `{-5..-1: 0, 0..4: 1}`. */
  lemma UnitStepExample()
    ensures Sampled(U, -5, 5, 1.0, 0.0) == Offset(map[-5 := 0, -4 := 0, -3 := 0, -2 := 0, -1 := 0,
                                                        0 := 1, 1 := 1, 2 := 1, 3 := 1, 4 := 1])
  {
  }
}
