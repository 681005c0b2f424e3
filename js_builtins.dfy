/**
 The two JavaScript built-ins the pagination arithmetic relies on, restricted
 to the values it feeds them: `Math.ceil` on a finite number and
 `Array.prototype.slice` with two integer arguments (ECMA-262, 2023 edition,
 section 21.3.2.10 and section 23.1.3.28).
 */
module JsBuiltins {

  function Min(a: int, b: int): int { if a <= b then a else b }

  function Max(a: int, b: int): int { if a <= b then b else a }

  /** `Math.ceil(x)`: the least integer that is not below `x`. Numbers are
      modelled as exact reals. */
  function MathCeil(x: real): (r: int)
    ensures x <= r as real
    ensures r as real < x + 1.0
  {
    var f := x.Floor;
    if f as real == x then f else f + 1
  }

  /** The least integer at or above `x` is unique, so `MathCeil` is that integer. */
  lemma MathCeilUnique(x: real, k: int)
    requires x <= k as real < x + 1.0
    ensures MathCeil(x) == k
  {
    var r := MathCeil(x);
    assert r as real < k as real + 1.0 && k as real < r as real + 1.0;
  }

  /** Steps 3-6 (for the start) and 7-10 (for the end) of `slice`: a relative
      index is resolved against the length `len`; a negative one counts back
      from the end, and the outcome is clamped to [0, len]. */
  function ResolveIndex(relative: int, len: nat): (k: nat)
    ensures k <= len
    ensures 0 <= relative <= len ==> k == relative
    ensures len < relative ==> k == len
    ensures relative < 0 && 0 <= len + relative ==> k == len + relative
    ensures len + relative < 0 ==> k == 0
  {
    if relative < 0 then Max(len + relative, 0) else Min(relative, len)
  }

  /** `s.slice(start, end)`: the elements from the resolved start up to, not
      including, the resolved end; empty when the resolved end is not past the
      resolved start. The receiver is not changed (a fresh array is returned),
      which the value semantics of `seq` give for free. */
  function Slice<T>(s: seq<T>, start: int, end: int): (r: seq<T>)
    ensures |r| == Max(ResolveIndex(end, |s|) - ResolveIndex(start, |s|), 0)
    ensures forall i :: 0 <= i < |r| ==> r[i] == s[ResolveIndex(start, |s|) + i]
  {
    var k := ResolveIndex(start, |s|);
    var f := ResolveIndex(end, |s|);
    if k < f then s[k..f] else []
  }

  /** With non-negative arguments `slice` takes the elements from `start` up to
      `end`, both cut down to the length. */
  lemma SliceNonNegative<T>(s: seq<T>, start: int, end: int)
    requires 0 <= start && 0 <= end
    ensures Slice(s, start, end) ==
            if start < Min(end, |s|) then s[start..Min(end, |s|)] else []
  {
  }

  /** With negative arguments both indices count back from the end of `s` and
      are cut up to 0. */
  lemma SliceNegative<T>(s: seq<T>, start: int, end: int)
    requires start < 0 && end < 0
    ensures Slice(s, start, end) ==
            if Max(|s| + start, 0) < Max(|s| + end, 0)
            then s[Max(|s| + start, 0)..Max(|s| + end, 0)]
            else []
  {
  }

  /** `slice` never yields more elements than the distance between its two
      arguments, nor more than the receiver holds. */
  lemma SliceLengthBound<T>(s: seq<T>, start: int, end: int)
    ensures |Slice(s, start, end)| <= |s|
    ensures start <= end ==> |Slice(s, start, end)| <= end - start
    ensures end <= start && (start < 0 <==> end < 0) ==> Slice(s, start, end) == []
  {
  }
}
