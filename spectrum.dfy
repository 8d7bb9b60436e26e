/** The frequency window that `show_discrete_amplitude_spectrum` cuts out of the
    magnitude spectrum `c` (length N, one value per DFT bin) for `Nf` bins on each
    side of zero frequency. */
module Spectrum {
  import opened PySlice

  /** `v[-nf:] ++ v[:nf]`: the negative-frequency bins in front of the
      non-negative ones (utils.py:205 on `c`, utils.py:210 on the buffer). With
      no bins, `v[-0:]` is all of `v`, so the whole of `v` comes back. */
  function Recentre(v: seq<real>, nf: nat): (r: seq<real>)
    ensures nf == 0 ==> r == v
    ensures 0 < nf <= |v| ==> r == v[|v| - nf..] + v[..nf] && |r| == 2 * nf
    ensures |v| < nf ==> r == v + v
  {
    From(v, -(nf as int)) + Upto(v, nf)
  }

  /** The value signed frequency bin `k` shows in the usual DFT layout of N
      coefficients: coefficient `i < ceil(N/2)` at bin `i`, coefficient `i` of the
      upper `N // 2` at bin `i - N` (so an even N's Nyquist coefficient sits at bin
      `-N/2`), and zero at every bin outside `[-(N // 2), ceil(N/2))`. */
  function BinValue(c: seq<real>, k: int): real
    requires |c| >= 1
  {
    if 0 <= k < CeilHalf(|c|) then c[k]
    else if -(|c| / 2) <= k < 0 then c[|c| + k]
    else 0.0
  }

  /** The window over bins `-nf, ..., nf-1`, entry `j` showing bin `j - nf`. */
  function Reference(c: seq<real>, nf: nat): (w: seq<real>)
    requires |c| >= 1
    ensures |w| == 2 * nf
  {
    seq(2 * nf, j => BinValue(c, j - nf))
  }

  /** In a window wide enough for it, every coefficient shows at its own bin:
      coefficient `i` at bin `i` (lower half, with the middle one of an odd N) or
      at bin `i - N` (upper half). */
  lemma ReferencePlacesCoefficient(c: seq<real>, nf: nat, i: nat)
    requires i < |c|
    requires nf >= CeilHalf(|c|)
    ensures i < CeilHalf(|c|) ==> Reference(c, nf)[nf + i] == c[i]
    ensures i >= CeilHalf(|c|) ==> Reference(c, nf)[nf + i - |c|] == c[i]
  {
    var w := Reference(c, nf);
    if i < CeilHalf(|c|) {
      assert w[nf + i] == BinValue(c, i);
    } else {
      assert w[nf + i - |c|] == BinValue(c, i - |c|);
    }
  }

  /** For a spectrum whose magnitudes mirror around bin 0 (that of a real signal),
      the window mirrors around bin 0 too, at every bin but an even N's Nyquist bin
      `N/2` (shown only on the negative side); bins beyond the spectrum are zero. */
  lemma ReferenceSymmetric(c: seq<real>, nf: nat)
    requires |c| >= 1
    requires forall i :: 0 < i < |c| ==> c[i] == c[|c| - i]
    ensures forall j :: nf < j < 2 * nf && (|c| % 2 == 1 || j - nf != |c| / 2) ==>
              Reference(c, nf)[j] == Reference(c, nf)[2 * nf - j]
    ensures forall j :: 0 <= j < 2 * nf && (j - nf >= CeilHalf(|c|) || nf - j > |c| / 2) ==>
              Reference(c, nf)[j] == 0.0
  {
    var w := Reference(c, nf);
    forall j | nf < j < 2 * nf && (|c| % 2 == 1 || j - nf != |c| / 2)
      ensures w[j] == w[2 * nf - j]
    {
      assert w[j] == BinValue(c, j - nf);
      assert w[2 * nf - j] == BinValue(c, nf - j);
    }
    forall j | 0 <= j < 2 * nf && (j - nf >= CeilHalf(|c|) || nf - j > |c| / 2)
      ensures w[j] == 0.0
    {
      assert w[j] == BinValue(c, j - nf);
    }
  }

  /** `s[lo:hi] = src` on a numpy array, for bounds already normalised: the shapes
      agree, or a one-element source is broadcast over the target. */
  method AssignSlice(s: array<real>, lo: nat, hi: nat, src: seq<real>)
    requires lo <= hi <= s.Length
    requires |src| == hi - lo || |src| == 1
    modifies s
    ensures forall p :: 0 <= p < s.Length ==>
              s[p] == if lo <= p < hi then Broadcast(src, p - lo) else old(s[p])
  {
    for p := lo to hi
      invariant forall q :: 0 <= q < s.Length ==>
                  s[q] == if lo <= q < p then Broadcast(src, q - lo) else old(s[q])
    {
      s[p] := Broadcast(src, p - lo);
    }
  }

  /** Element `i` of `src` as broadcasting reads it. */
  function Broadcast(src: seq<real>, i: nat): real
    requires |src| == 1 || i < |src|
  {
    if |src| == 1 then src[0] else src[i]
  }

  /** In the wide branch the upper-half copy always fits the buffer, except for a
      one-coefficient spectrum and no bins, where numpy broadcasts it onto nothing. */
  lemma WideTailFits(n: nat, nf: nat)
    requires n >= 1 && nf >= n / 2
    ensures CeilHalf(n) <= 2 * nf || (n == 1 && nf == 0)
    ensures n / 2 <= 2 * nf
  {
  }

  /** The tail copy of the wide branch overlaps the head copy exactly when N is
      odd and `nf == N // 2`: the buffer then has N - 1 cells for N coefficients. */
  predicate TailOverlapsHead(n: nat, nf: nat)
  {
    n % 2 == 1 && nf == n / 2
  }

  /** The buffer of the wide branch after its two copies (utils.py:207-209):
      `c[:N//2]` at the front, then `c[-N//2:]`, that is the last `ceil(N/2)`
      coefficients, at the back, written second. */
  function PaddedLayout(c: seq<real>, nf: nat): seq<real>
    requires |c| >= 1 && nf >= |c| / 2
  {
    var n, len := |c|, 2 * nf;
    var t := if CeilHalf(n) <= len then CeilHalf(n) else len;
    seq(len, p requires 0 <= p < len =>
      if p >= len - t then c[n - len + p] else if p < n / 2 then c[p] else 0.0)
  }

  /** The buffer's layout: its length is `2 * nf`; the lower half of the spectrum
      sits at the front where the tail copy has not overwritten it; the upper
      `ceil(N/2)` coefficients fill the back; everything between is zero; and when
      the copies overlap, the tail copy wins the shared cell. */
  lemma PaddedLayoutShape(c: seq<real>, nf: nat)
    requires |c| >= 1 && nf >= |c| / 2
    ensures var s, n := PaddedLayout(c, nf), |c|;
            |s| == 2 * nf &&
            (forall p :: 0 <= p < n / 2 && p < 2 * nf - CeilHalf(n) ==> s[p] == c[p]) &&
            (nf > 0 ==> s[2 * nf - CeilHalf(n)..] == c[n / 2..]) &&
            (forall p :: n / 2 <= p < 2 * nf - CeilHalf(n) ==> s[p] == 0.0) &&
            (nf > 0 && TailOverlapsHead(n, nf) ==> s[n / 2 - 1] == c[n / 2])
  {
  }

  /** `np.zeros(2 * Nf)` followed by the two slice assignments of utils.py:207-209. */
  method ZeroPad(c: seq<real>, nf: nat) returns (s: array<real>)
    requires |c| >= 1 && nf >= |c| / 2
    ensures fresh(s) && s[..] == PaddedLayout(c, nf)
  {
    var n := |c|;
    WideTailFits(n, nf);
    NegHalfIsMinusCeilHalf(n);
    s := new real[2 * nf](_ => 0.0);
    // s[:N//2] = c[:N//2]
    AssignSlice(s, 0, Bound(FloorDiv(n, 2), s.Length), Upto(c, FloorDiv(n, 2)));
    // s[-N//2:] = c[-N//2:]
    AssignSlice(s, Bound(FloorDiv(-n, 2), s.Length), s.Length, From(c, FloorDiv(-n, 2)));
    assert s[..] == PaddedLayout(c, nf) by {
      var layout := PaddedLayout(c, nf);
      forall p | 0 <= p < s.Length ensures s[p] == layout[p] {
      }
    }
  }

  /** The narrow branch (utils.py:205) with at least one bin: the last `nf`
      coefficients, then the first `nf`, which is the reference window. */
  lemma NarrowWindow(c: seq<real>, nf: nat)
    requires 1 <= nf <= |c| / 2
    ensures Recentre(c, nf) == c[|c| - nf..] + c[..nf]
    ensures Recentre(c, nf) == Reference(c, nf)
  {
    var n, w := |c|, Recentre(c, nf);
    forall j | 0 <= j < 2 * nf ensures w[j] == Reference(c, nf)[j] {
      assert Reference(c, nf)[j] == BinValue(c, j - nf);
      if j < nf {
        assert w[j] == c[n - nf + j];
      } else {
        assert w[j] == c[j - nf];
      }
    }
  }

  /** The wide branch leaves the middle coefficient of an odd N out of place when
      the window reaches bin `N // 2`: the head copy stops one short of it, and the
      tail copy puts it at bin `-ceil(N/2)` instead. */
  predicate MiddleBinMisplaced(n: nat, nf: nat)
  {
    n % 2 == 1 && nf > n / 2
  }

  /** The back half of the wide buffer, cell `nf + j`, which shows bin `j - nf`. */
  lemma WideNegativeHalf(c: seq<real>, nf: nat, j: nat)
    requires |c| >= 1 && nf >= |c| / 2 && j < nf
    ensures PaddedLayout(c, nf)[nf + j] ==
              if MiddleBinMisplaced(|c|, nf) && j == nf - CeilHalf(|c|) then c[|c| / 2]
              else BinValue(c, j - nf)
  {
  }

  /** The front half of the wide buffer, cell `k`, which shows bin `k`. */
  lemma WidePositiveHalf(c: seq<real>, nf: nat, k: nat)
    requires |c| >= 1 && nf >= |c| / 2 && k < nf
    ensures PaddedLayout(c, nf)[k] ==
              if TailOverlapsHead(|c|, nf) && k == nf - 1 then c[|c| / 2]
              else if MiddleBinMisplaced(|c|, nf) && k == |c| / 2 then 0.0
              else BinValue(c, k)
  {
  }

  /** The wide branch (utils.py:206-210): swapping the buffer's halves gives the
      reference window, except for odd N. Where the copies overlap, the last entry,
      bin `nf - 1`, shows coefficient `N // 2`; in a wider window, coefficient
      `N // 2` shows at bin `-ceil(N/2)` and bin `N // 2` shows zero. */
  lemma WideWindow(c: seq<real>, nf: nat)
    requires |c| >= 1 && nf >= |c| / 2
    ensures var w := Recentre(PaddedLayout(c, nf), nf);
            w == if nf > 0 && TailOverlapsHead(|c|, nf)
                 then Reference(c, nf)[2 * nf - 1 := c[|c| / 2]]
                 else if MiddleBinMisplaced(|c|, nf)
                 then Reference(c, nf)[nf - CeilHalf(|c|) := c[|c| / 2]][nf + |c| / 2 := 0.0]
                 else Reference(c, nf)
  {
    var n, s := |c|, PaddedLayout(c, nf);
    var w, e := Recentre(s, nf), Reference(c, nf);
    var r := if nf > 0 && TailOverlapsHead(n, nf) then e[2 * nf - 1 := c[n / 2]]
             else if MiddleBinMisplaced(n, nf) then e[nf - CeilHalf(n) := c[n / 2]][nf + n / 2 := 0.0]
             else e;
    assert |s| == 2 * nf;
    assert w == s[nf..] + s[..nf];
    forall j | 0 <= j < 2 * nf ensures w[j] == r[j] {
      assert e[j] == BinValue(c, j - nf);
      if j < nf {
        assert w[j] == s[nf + j];
        WideNegativeHalf(c, nf, j);
      } else {
        assert w[j] == s[j - nf];
        WidePositiveHalf(c, nf, j - nf);
      }
    }
  }

  /** The spectrum window as written (utils.py:201-210, with the magnitudes `c`
      and the bin count `nf` given). With bins it is the reference window for even
      N and for the narrow branch; it differs on the two odd-N cases `WideWindow`
      names; with no bins it is the whole spectrum (for N >= 2) or empty. */
  method SpectrumWindow(c: seq<real>, nf: nat) returns (w: seq<real>)
    requires |c| >= 1
    ensures nf == 0 ==> w == if |c| >= 2 then c else []
    ensures nf > 0 && !TailOverlapsHead(|c|, nf) && !MiddleBinMisplaced(|c|, nf) ==> w == Reference(c, nf)
    ensures nf > 0 && TailOverlapsHead(|c|, nf) ==> w == Reference(c, nf)[2 * nf - 1 := c[|c| / 2]]
    ensures MiddleBinMisplaced(|c|, nf) ==>
              w == Reference(c, nf)[nf - CeilHalf(|c|) := c[|c| / 2]][nf + |c| / 2 := 0.0]
  {
    var n := |c|;
    if nf < FloorDiv(n, 2) {
      w := Recentre(c, nf);
      if nf > 0 {
        NarrowWindow(c, nf);
      }
    } else {
      var s := ZeroPad(c, nf);
      w := Recentre(s[..], nf);
      WideWindow(c, nf);
    }
  }

  /** Three coefficients and one bin: the window shows `c[2]` at bin -1 and `c[1]`,
      not `c[0]`, at bin 0. */
  lemma OverlapShowsWrongDcBin()
    ensures Recentre(PaddedLayout([1.0, 2.0, 3.0], 1), 1) == [3.0, 2.0]
    ensures Reference([1.0, 2.0, 3.0], 1) == [3.0, 1.0]
  {
  }

  /** Five mirrored coefficients and two bins: the overlap breaks the window's
      symmetry around bin 0, which the reference window keeps. */
  lemma OverlapBreaksSymmetry()
    ensures Recentre(PaddedLayout([1.0, 2.0, 3.0, 3.0, 2.0], 2), 2) == [3.0, 2.0, 1.0, 3.0]
    ensures Reference([1.0, 2.0, 3.0, 3.0, 2.0], 2) == [3.0, 2.0, 1.0, 2.0]
  {
  }

  /** Five mirrored coefficients and three bins: coefficient 2 shows at bin -3
      and bin 2 shows zero, so the window is not symmetric around bin 0, while the
      reference window shows coefficient 2 at bin 2 and mirrors. */
  lemma OddMiddleBinMisplaced()
    ensures Recentre(PaddedLayout([1.0, 2.0, 3.0, 3.0, 2.0], 3), 3) == [3.0, 3.0, 2.0, 1.0, 2.0, 0.0]
    ensures Reference([1.0, 2.0, 3.0, 3.0, 2.0], 3) == [0.0, 3.0, 2.0, 1.0, 2.0, 3.0]
  {
  }

  /** A four-coefficient spectrum and no bins: all four come back instead of none. */
  lemma NoBinsReturnsWholeSpectrum()
    ensures Recentre([1.0, 2.0, 3.0, 4.0], 0) == [1.0, 2.0, 3.0, 4.0]
    ensures Reference([1.0, 2.0, 3.0, 4.0], 0) == []
  {
  }

  /** The wide buffer as intended: the head copy takes the lower `ceil(N/2)`
      coefficients (as many as fit the front half), the tail copy the upper
      `N // 2`, so neither overwrites the other and the middle coefficient of an
      odd N lands at bin `N // 2`. */
  method ZeroPadIntended(c: seq<real>, nf: nat) returns (s: array<real>)
    requires |c| >= 1 && nf >= |c| / 2
    ensures fresh(s) && s.Length == 2 * nf
    ensures forall p :: 0 <= p < s.Length ==> s[p] == BinValue(c, if p < nf then p else p - 2 * nf)
  {
    var n := |c|;
    s := new real[2 * nf](_ => 0.0);
    var h := if CeilHalf(n) <= nf then CeilHalf(n) else nf;
    AssignSlice(s, 0, h, c[..h]);
    AssignSlice(s, 2 * nf - n / 2, 2 * nf, c[n - n / 2..]);
  }

  /** The spectrum window as intended: exactly the reference window for every bin
      count, zero bins giving an empty window. */
  method SpectrumWindowIntended(c: seq<real>, nf: nat) returns (w: seq<real>)
    requires |c| >= 1
    ensures |w| == 2 * nf
    ensures w == Reference(c, nf)
  {
    var n := |c|;
    if nf < n / 2 {
      w := c[n - nf..] + c[..nf];
      if nf > 0 {
        NarrowWindow(c, nf);
      }
    } else {
      var s := ZeroPadIntended(c, nf);
      w := s[nf..] + s[..nf];
      forall j | 0 <= j < 2 * nf ensures w[j] == Reference(c, nf)[j] {
        if j < nf {
          assert w[j] == s[nf + j];
        } else {
          assert w[j] == s[j - nf];
        }
      }
    }
  }
}
