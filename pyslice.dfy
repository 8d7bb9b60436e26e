/** Python's integer slicing and floor-division rules, as the signal code relies on them. */
module PySlice {

  /** The position a Python slice bound `k` denotes in a sequence of length `n`:
      a negative bound counts from the end, and the result is clamped to [0, n]. */
  function Bound(k: int, n: nat): (r: nat)
    ensures r <= n
    ensures 0 <= k <= n ==> r == k
    ensures -(n as int) <= k < 0 ==> r == n + k
    ensures k > n ==> r == n
    ensures k < -(n as int) ==> r == 0
  {
    if k < 0 then (if n + k < 0 then 0 else n + k)
    else if k > n then n
    else k
  }

  /** `s[lo:]`: a suffix of `s`, starting at `lo`, or `|lo|` from the end for a
      negative `lo`. */
  function From<T>(s: seq<T>, lo: int): (r: seq<T>)
    ensures |r| <= |s| && r == s[|s| - |r|..]
    ensures 0 <= lo <= |s| ==> |r| == |s| - lo
    ensures -|s| <= lo < 0 ==> |r| == -lo
    ensures lo < -|s| ==> r == s
    ensures lo > |s| ==> r == []
  {
    s[Bound(lo, |s|)..]
  }

  /** `s[:hi]`: a prefix of `s`, ending at `hi`, or `|hi|` before the end for a
      negative `hi`. */
  function Upto<T>(s: seq<T>, hi: int): (r: seq<T>)
    ensures |r| <= |s| && r == s[..|r|]
    ensures 0 <= hi <= |s| ==> |r| == hi
    ensures -|s| <= hi < 0 ==> |r| == |s| + hi
    ensures hi < -|s| ==> r == []
    ensures hi > |s| ==> r == s
  {
    s[..Bound(hi, |s|)]
  }

  /** Python's `a // d`. For a positive divisor Dafny's Euclidean division rounds
      towards minus infinity, which is exactly Python's floor division. */
  function FloorDiv(a: int, d: int): int
    requires d > 0
  {
    a / d
  }

  /** `ceil(n / 2)`, the number of elements in the upper half of a length-n sequence. */
  function CeilHalf(n: nat): nat
  {
    n - n / 2
  }

  /** `-N // 2` parses as `(-N) // 2`, which is `-ceil(N/2)` and not `-(N // 2)`. */
  lemma NegHalfIsMinusCeilHalf(n: nat)
    ensures FloorDiv(-(n as int), 2) == -(CeilHalf(n) as int)
    ensures n % 2 == 1 ==> FloorDiv(-(n as int), 2) == -(n / 2) - 1
  {
  }

  /** `s[-k:]` with `0 < k <= |s|` is the last `k` elements; `s[-0:]` is all of `s`. */
  lemma FromNegative<T>(s: seq<T>, k: nat)
    requires k <= |s|
    ensures k > 0 ==> From(s, -(k as int)) == s[|s| - k..] && |From(s, -(k as int))| == k
    ensures k == 0 ==> From(s, -(k as int)) == s
  {
  }

  /** `s[:k]` with `k <= |s|` is the first `k` elements. */
  lemma UptoPrefix<T>(s: seq<T>, k: nat)
    requires k <= |s|
    ensures Upto(s, k) == s[..k] && |Upto(s, k)| == k
  {
  }
}
