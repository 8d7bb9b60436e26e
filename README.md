# Signal sampling and spectrum windowing, modelled in Dafny

This project models the integer bookkeeping that runs through `utils.py`, a small
signal-processing toolkit, and proves properties of it. It covers:

- **Sampling.** `sampling` turns a continuous-time signal into a discrete one over
  the half-open index range `[a, b)`. A non-zero period `T` overrides the rate `fs`.
  The result is a dense array when `a == 0` and a dictionary keyed by the real index
  otherwise. The model has a tagged datatype `Discrete` (`Dense | Offset`) and the
  method `Sampling`, whose loop fills the dictionary as the source's `for` loop does.
- **Read-back.** `show_discrete_signal` reads either representation back over a
  display range, and a missing index reads as 0. The model has `Lookup` and `Gather`,
  plus a round-trip lemma pairing them with `sampling`.
- **Spectrum window.** `show_discrete_amplitude_spectrum` cuts `2·Nf` bins around
  zero frequency out of the magnitude spectrum `c`. There is a narrow branch (a slice
  concatenation) and a wide branch (a zero buffer filled in place with two numpy
  slice assignments, then its halves swapped). Python's slice rules are modelled
  exactly in `PySlice`: negative bounds, clamping, `c[-0:]` being all of `c`, and
  `-N // 2` being `-ceil(N/2)`. Numpy slice assignment is the method `AssignSlice`
  on an `array<real>`.
- **Signal sources.** The model covers the frequency precedence in the `sin_wave`
  and `complex_exp` constructors (classes `SinWave` and `ComplexExp`) and the unit
  step `u`.

Both spectrum branches are measured against one reference window, `Reference`,
built on the usual layout of an N-point DFT. Coefficient `i < ceil(N/2)` shows at
bin `i`. Each of the upper `N // 2` coefficients shows at bin `i - N`. So an even
N's Nyquist coefficient sits at bin `-N/2`, and every bin outside
`[-(N // 2), ceil(N/2))` is zero. In that layout a real signal's mirrored spectrum
gives a window that mirrors around bin 0. The one exception is an even N's Nyquist
bin, which is shown only on the negative side. The code's wide branch departs from
this layout for odd N (see "## Findings").

## Model

| member | source | states |
|---|---|---|
| `PySlice.Bound` | utils.py:205-210 | a slice bound `k` denotes `k` within `[0, n]`, `n + k` for `-n <= k < 0`, and is clamped to `0` or `n` beyond |
| `PySlice.From` | utils.py:205-210 | `s[lo:]` is a suffix of `s`: of length `len(s) - lo` for `0 <= lo <= len(s)`, of length `-lo` for a negative `lo` in range, all of `s` below `-len(s)`, empty above `len(s)` |
| `PySlice.Upto` | utils.py:205-210 | `s[:hi]` is a prefix of `s`: of length `hi` for `0 <= hi <= len(s)`, of length `len(s) + hi` for a negative `hi` in range, empty below `-len(s)`, all of `s` above `len(s)` |
| `PySlice.NegHalfIsMinusCeilHalf` | utils.py:209 | `-N // 2` is `-ceil(N/2)`; for odd `N` that is one more element than `N // 2` |
| `PySlice.FromNegative` | utils.py:205 | `s[-k:]` is the last `k` elements for `0 < k <= len(s)`, and `s[-0:]` is all of `s` |
| `PySlice.UptoPrefix` | utils.py:205 | `s[:k]` is the first `k` elements for `k <= len(s)` |
| `Signals.ResolveFrequency` | utils.py:18-23 | a supplied `f` is kept and `omega` becomes `2·PI·f`; with `f` absent, `omega` is kept; either way the stored pair satisfies `omega == 2·PI·f` |
| `Signals.ResolveFrequencyIdempotent` | utils.py:18-23 | resolving the stored pair again, from `omega` alone or from `f` alone, gives the same pair |
| `Signals.SinWave.constructor` | utils.py:15-23 | `A` and `theta` are stored unchanged; `f` wins over `omega`; otherwise `f == omega/(2·PI)` |
| `Signals.ComplexExp.constructor` | utils.py:36-44 | the same precedence and stored fields as `sin_wave` |
| `Signals.U` | utils.py:59 | `u(t)` is 0 or 1, and it is 1 exactly when `t >= 0` |
| `Signals.UnitStepShape` | utils.py:51-59 | `u(t)` is 0 exactly when `t < 0` and 1 exactly when `t >= 0`, and it never decreases |
| `Sampling.EffectiveRate` | utils.py:68-69 | with `T != 0` the rate is the reciprocal of `T`; with `T == 0` it is the supplied `fs` |
| `Sampling.SampleTimeWithPeriod` | utils.py:68-71 | with a period `T`, sample `n` is taken at time `n·T` |
| `Sampling.Sampled` | utils.py:67-77 | the result is dense exactly when `a == 0`, and it stores a sample at exactly the indices `a..b-1` |
| `Sampling.Sampling` | utils.py:67-77 | the method, with its dictionary-building loop, returns exactly `Sampled(x, a, b, fs, T)` |
| `Sampling.SampledDense` | utils.py:70-77 | for `a == 0` the result is dense, of length `b` (0 when `b < 0`), with element `i` equal to `x(i/fs)` |
| `Sampling.SampledOffset` | utils.py:72-76 | for `a != 0` the result is a dictionary whose keys are exactly `a..b-1` (none when `b <= a`), with key `k` holding `x(k/fs)` |
| `Sampling.Lookup` | utils.py:96-98 | an index with a stored sample (a dictionary key, or an array position in `[0, len)`) reads as that sample; any other index reads as `zero` |
| `Sampling.Gather` | utils.py:94-98 | the read-back over `[a, b)` has `b - a` entries (none when `b <= a`); entry `i` is the sample stored at `a + i`, or `zero` where none is |
| `Sampling.GatherSampled` | utils.py:94-98 | gathering the output of `sampling` over the same `[a, b)` gives exactly the samples `x(n/fs)` for `n = a..b-1`, for both representations |
| `Sampling.GatherSplit` | utils.py:96-98 | gathering over `[a, b)` is gathering over `[a, m)` followed by `[m, b)` |
| `Sampling.GatherOutsideIsZero` | utils.py:96-98 | a display range with no stored index reads back as all zeros, in the dictionary case and the array case |
| `Sampling.UnitStepSampled` | utils.py:59 | sampling `u` at a positive rate from a non-zero start gives 0 at exactly the negative keys and 1 at the rest |
| `Sampling.UnitStepExample` | utils.py:67-77 | `sampling(u, [-5, 5], fs=1)` is the dictionary `{-5..-1: 0, 0..4: 1}` |
| `Spectrum.Recentre` | utils.py:205-210 | `v[-Nf:] ++ v[:Nf]` is the last `Nf` entries followed by the first `Nf` for `0 < Nf <= len(v)`, all of `v` for `Nf == 0`, and `v` twice for `Nf > len(v)` |
| `Spectrum.Reference` | utils.py:204-210 | the reference window has `2·Nf` entries, one per bin `-Nf..Nf-1` |
| `Spectrum.ReferencePlacesCoefficient` | utils.py:207-209 | in a window of at least `ceil(N/2)` bins per side, coefficient `i` shows at bin `i` if `i < ceil(N/2)` and at bin `i - N` otherwise |
| `Spectrum.ReferenceSymmetric` | utils.py:204-210 | for a mirrored spectrum (`c[i] == c[N-i]`), the window mirrors around bin 0 at every bin except an even `N`'s Nyquist bin `N/2`, and it is zero at bins `>= ceil(N/2)` and `< -(N // 2)` |
| `Spectrum.AssignSlice` | utils.py:208-209 | numpy `s[lo:hi] = src` writes `src` (or its one element, broadcast) into `[lo, hi)` and leaves every other cell unchanged |
| `Spectrum.WideTailFits` | utils.py:206-209 | in the wide branch both copies fit the buffer, except for `N == 1`, `Nf == 0`, where numpy broadcasts one element onto an empty slice |
| `Spectrum.PaddedLayoutShape` | utils.py:207-209 | the buffer has length `2·Nf`; `c[:N//2]` sits at the front where not overwritten; the last `ceil(N/2)` cells hold `c[N//2:]`; the cells in between are 0; on the one-cell overlap the tail copy wins |
| `Spectrum.ZeroPad` | utils.py:207-209 | `np.zeros` followed by the two slice assignments produces exactly `PaddedLayout(c, Nf)` |
| `Spectrum.NarrowWindow` | utils.py:204-205 | for `1 <= Nf <= N // 2`, `c[-Nf:] ++ c[:Nf]` is `c[N-Nf..] ++ c[..Nf]` and equals the reference window |
| `Spectrum.WideNegativeHalf` | utils.py:209 | back-half buffer cell `Nf + j` holds the reference value of bin `j - Nf`, except that for odd `N` and `Nf > N // 2` cell `2·Nf - ceil(N/2)` holds `c[N // 2]` |
| `Spectrum.WidePositiveHalf` | utils.py:208-209 | front-half buffer cell `k` holds the reference value of bin `k`, except the overlapped last cell (odd `N`, `Nf == N // 2`), which holds `c[N // 2]`, and for odd `N` and `Nf > N // 2` cell `N // 2`, which holds 0 |
| `Spectrum.WideWindow` | utils.py:206-210 | swapping the buffer's halves gives the reference window for even `N`; for odd `N` with `Nf == N // 2` the last entry shows `c[N // 2]`; for odd `N` with `Nf > N // 2`, `c[N // 2]` shows at bin `-ceil(N/2)` and bin `N // 2` shows 0 |
| `Spectrum.SpectrumWindow` | utils.py:201-210 | the window as written: for `Nf == 0` it is `c` when `N >= 2` and empty when `N == 1`; with bins it is the reference window, except in the two odd-`N` cases `WideWindow` names, with the same differences |
| `Spectrum.OverlapShowsWrongDcBin` | utils.py:209 | for `c = [1, 2, 3]` and `Nf = 1` the code yields `[3, 2]`, while the reference window is `[3, 1]` |
| `Spectrum.OverlapBreaksSymmetry` | utils.py:209 | for the mirrored `c = [1, 2, 3, 3, 2]` and `Nf = 2` the code yields `[3, 2, 1, 3]`, not symmetric around bin 0, while the reference window is the symmetric `[3, 2, 1, 2]` |
| `Spectrum.OddMiddleBinMisplaced` | utils.py:208-209 | for the mirrored `c = [1, 2, 3, 3, 2]` and `Nf = 3` the code yields `[3, 3, 2, 1, 2, 0]`, while the reference window is the symmetric `[0, 3, 2, 1, 2, 3]` |
| `Spectrum.NoBinsReturnsWholeSpectrum` | utils.py:205 | for four coefficients and `Nf = 0` the code returns all four, while the reference window is empty |
| `Spectrum.ZeroPadIntended` | utils.py:207-209 | the corrected buffer: cell `p` holds the value of bin `p` (front half) or bin `p - 2·Nf` (back half) |
| `Spectrum.SpectrumWindowIntended` | utils.py:204-210 | the corrected window has length `2·Nf` and equals the reference window for every `Nf`, including 0 |
## Left out

- The `__call__` bodies of `sin_wave` and `complex_exp` (utils.py:26, 47): these are floating-point cosine and complex exponential. A signal is an opaque total function `real -> V`.
- The FFT and magnitude at utils.py:202: this is foreign floating-point numerics. The magnitudes `c` are an input. As written the line calls the module `np.fft` rather than `np.fft.fft`.
- The bin count `Nf = (frange * N) // fs` (utils.py:203): `Nf` is a `nat` input, standing for the integer `Nf` that integer `frange` and `fs` give, so a negative `frange` is not modelled. A float `frange` or `fs` makes `Nf` a float, and then `c[-Nf:]` (utils.py:205) or `np.zeros(2 * Nf)` (utils.py:207) raises TypeError; that error path is not modelled.
- All plotting (utils.py:100-133, 151-183, 212-227), the tick values (utils.py:89-91, 146-148, 196-198) and the complex-vs-real dispatch (utils.py:99, 153): these are display side effects.
- The close delay at utils.py:223: there `s` already holds the spectrum, so the close logic is broken. The window result and the close delay are kept apart, and the close delay is not modelled.
- `show_continuous_signal`'s `np.arange` with a float step (utils.py:151), and numpy's shape and broadcasting rules beyond the one-dimensional slice assignment that `AssignSlice` models.
- Floating point in general: times, rates and frequencies are exact reals, and `PI` is the decimal literal of `math.pi`, taken as an exact real. Rounding in `omega / (2·pi)` and `n / fs` is not modelled.
- Sampling, SampledDense, SampledOffset, GatherSampled: these require a non-zero effective rate. With `fs == 0` and `T == 0`, numpy divides by zero and returns infinities or NaN instead of raising, and IEEE results are outside the model.
- The vectorised call `x(n / fs)` is modelled as elementwise application of a total function, so a signal returning an array of the wrong length is not modelled.
- The plotted `0` for a missing index is a `zero: V` parameter, because values are generic (real or complex in the source).
- SpectrumWindow, SpectrumWindowIntended: these require `N >= 1`, because an empty signal already fails at utils.py:202.
- AssignSlice: this requires compatible shapes. The numpy error for mismatched shapes is not modelled, and `WideTailFits` proves that the wide branch never reaches it.

## Findings

| source | as written | input that shows it | evidently intended | confidence | as-written member | corrected member |
|---|---|---|---|---|---|---|
| utils.py:205 | with `Nf == 0` the narrow branch computes `c[-0:]`, which is `c[0:]`, so the whole spectrum of `N` values comes back | `N = 4`, `Nf = 0` (any `frange` with `frange·N < fs`): the result is `[c0, c1, c2, c3]` | an empty window of `2·Nf = 0` values: every other branch returns `2·Nf` values for `Nf` bins per side, and the wide branch already returns an empty window for `N == 1`, `Nf == 0` | high; not executed | `Spectrum.NoBinsReturnsWholeSpectrum` | `Spectrum.SpectrumWindowIntended` |
| utils.py:209 | for odd `N` and `Nf == N // 2` the buffer has `N - 1` cells; the tail copy `s[-N//2:] = c[-N//2:]` writes `ceil(N/2)` values and overwrites the last cell of the head copy | `N = 3`, `Nf = 1`, `c = [1, 2, 3]`: the result is `[3, 2]`, so bin 0 shows `c[1]` | `[3, 1]`: bin 0 shows `c[0]`, and the negative half holds only the upper `N // 2` coefficients | medium; not executed | `Spectrum.OverlapShowsWrongDcBin` | `Spectrum.SpectrumWindowIntended` |
| utils.py:208-209 | for odd `N` and `Nf > N // 2` the head copy `s[:N//2]` stops before coefficient `N // 2`, and the tail copy `s[-N//2:]` takes `ceil(N/2)` coefficients, so coefficient `N // 2` (the positive frequency `(N // 2)·fs/N`) shows at bin `-ceil(N/2)` and bin `N // 2` shows 0 | `N = 5`, `Nf = 3`, `c = [1, 2, 3, 3, 2]`: the result is `[3, 3, 2, 1, 2, 0]` | `[0, 3, 2, 1, 2, 3]`: coefficient `N // 2` at bin `N // 2`, so a real signal's spectrum mirrors around bin 0 | medium; not executed | `Spectrum.OddMiddleBinMisplaced` | `Spectrum.SpectrumWindowIntended` |

`Spectrum.SpectrumWindow` models both branches as written, and its contract states each discrepancy for all inputs. `Spectrum.OverlapBreaksSymmetry` and `Spectrum.OddMiddleBinMisplaced` show the second and third findings breaking the mirror symmetry that `Spectrum.ReferenceSymmetric` proves for the corrected window.
