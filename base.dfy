/** Small value types and Python list idioms shared by the other modules. */
module Base {

  /** Success or an error the source raises (an IndexError, a shape mismatch). */
  datatype Option<+T> = None | Some(value: T) {
    predicate IsFailure() { None? }

    function PropagateFailure<U>(): Option<U>
      requires None?
    {
      None
    }

    function Extract(): T
      requires Some?
    {
      value
    }
  }

  /** Python's `s[a:b]` for non-negative bounds: both bounds are clamped to
      the length, and an empty slice results when `b <= a`. */
  function PySlice<T>(s: seq<T>, a: nat, b: nat): (r: seq<T>)
    ensures |r| <= |s|
    ensures a <= b <= |s| ==> r == s[a..b]
    ensures a <= |s| <= b ==> r == s[a..]
    ensures |s| <= a ==> r == []
    ensures b <= a ==> r == []
  {
    var lo := if a <= |s| then a else |s|;
    var hi := if b <= |s| then b else |s|;
    if lo <= hi then s[lo..hi] else []
  }

  /** Python's `s[:-1]`: everything but the last element; empty stays empty. */
  function DropLast<T>(s: seq<T>): (r: seq<T>)
    ensures |s| > 0 ==> |r| == |s| - 1 && s == r + [s[|s| - 1]]
    ensures |s| == 0 ==> r == []
  {
    if |s| == 0 then [] else s[..|s| - 1]
  }

  /** The indices `a, a + 1, ..., b - 1`, Python's `range(a, b)`. */
  function Range(a: nat, b: nat): (r: seq<nat>)
    ensures |r| == if a <= b then b - a else 0
    decreases b - a
  {
    if a < b then [a] + Range(a + 1, b) else []
  }

  /** `range(a, m)` followed by `range(m, b)` is `range(a, b)`. */
  lemma {:induction false} RangeSplit(a: nat, m: nat, b: nat)
    requires a <= m <= b
    ensures Range(a, m) + Range(m, b) == Range(a, b)
    decreases m - a
  {
    if a < m {
      RangeSplit(a + 1, m, b);
      assert Range(a, m) + Range(m, b) == [a] + (Range(a + 1, m) + Range(m, b));
    }
  }
}
