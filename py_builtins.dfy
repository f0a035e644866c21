/**
 * The Python built-ins the trip-log service leans on, with CPython's semantics
 * written out: `str.lower`, the `in` test on strings, `str.endswith`,
 * `str.replace`, `str()` of an optional text, list slicing and `//`.
 */
module PyBuiltins {
  import opened Wrappers

  predicate IsUpper(c: char) {
    'A' <= c <= 'Z'
  }

  function LowerChar(c: char): char {
    if IsUpper(c) then (c as int + 32) as char else c
  }

  /** `s.lower()`, folding the ASCII letters A-Z. */
  function Lower(s: string): (r: string)
    ensures |r| == |s|
    ensures forall i :: 0 <= i < |r| ==> !IsUpper(r[i])
    ensures forall i :: 0 <= i < |s| && !IsUpper(s[i]) ==> r[i] == s[i]
    ensures forall i :: 0 <= i < |s| && IsUpper(s[i]) ==> r[i] as int == s[i] as int + 32
  {
    seq(|s|, i requires 0 <= i < |s| => LowerChar(s[i]))
  }

  /** `str(v)` for a field value: Python prints a missing text (`None`) as "None". */
  function Str(v: Option<string>): string {
    match v
    case Some(s) => s
    case None => "None"
  }

  predicate StartsWith(s: string, prefix: string) {
    |prefix| <= |s| && s[..|prefix|] == prefix
  }

  /** `s.endswith(suffix)`. */
  predicate EndsWith(s: string, suffix: string) {
    |suffix| <= |s| && s[|s| - |suffix|..] == suffix
  }

  /** `needle` occurs in `hay` starting at index `i`. */
  predicate OccursAt(needle: string, hay: string, i: int) {
    0 <= i && i + |needle| <= |hay| && hay[i..i + |needle|] == needle
  }

  /** An occurrence past the front part of a concatenation is an occurrence in the back part. */
  lemma OccursAtShift(needle: string, front: string, back: string, i: int)
    requires |front| <= i
    ensures OccursAt(needle, front + back, i) <==> OccursAt(needle, back, i - |front|)
  {
    if i + |needle| <= |front + back| {
      assert (front + back)[i..i + |needle|] == back[i - |front|..i - |front| + |needle|];
    }
  }

  /** Python's `needle in hay` on strings, as a left-to-right scan. */
  predicate Contains(needle: string, hay: string)
    decreases |hay|
  {
    StartsWith(hay, needle) || (hay != [] && Contains(needle, hay[1..]))
  }

  /** The scan finds `needle` exactly when it occurs at some index. */
  lemma {:induction false} ContainsIffOccurs(needle: string, hay: string)
    ensures Contains(needle, hay) <==> exists i :: OccursAt(needle, hay, i)
    decreases |hay|
  {
    if StartsWith(hay, needle) {
      assert OccursAt(needle, hay, 0);
    } else if hay != [] {
      ContainsIffOccurs(needle, hay[1..]);
      if Contains(needle, hay[1..]) {
        var i :| OccursAt(needle, hay[1..], i);
        assert hay[1..][i..i + |needle|] == hay[i + 1..i + 1 + |needle|];
        assert OccursAt(needle, hay, i + 1);
      }
      if exists i :: OccursAt(needle, hay, i) {
        var i :| OccursAt(needle, hay, i);
        if i == 0 {
          assert false;
        }
        assert hay[1..][i - 1..i - 1 + |needle|] == hay[i..i + |needle|];
        assert OccursAt(needle, hay[1..], i - 1);
      }
    }
  }

  /** A needle holding a character that the haystack lacks is not in it. */
  lemma MissingCharNotContained(needle: string, hay: string, k: nat)
    requires k < |needle| && needle[k] !in hay
    ensures !Contains(needle, hay)
  {
    ContainsIffOccurs(needle, hay);
    forall i | 0 <= i && i + |needle| <= |hay| ensures !OccursAt(needle, hay, i) {
      assert hay[i..i + |needle|][k] == hay[i + k];
    }
  }

  /**
   * `s.replace(pattern, replacement)`: scanning left to right, every
   * non-overlapping occurrence of `pattern` becomes `replacement`.
   */
  function Replace(s: string, pattern: string, replacement: string): string
    requires pattern != []
    decreases |s|
  {
    if StartsWith(s, pattern) then replacement + Replace(s[|pattern|..], pattern, replacement)
    else if s == [] then []
    else [s[0]] + Replace(s[1..], pattern, replacement)
  }

  /** A string in which the pattern does not occur comes back unchanged. */
  lemma {:induction false} ReplaceWithoutOccurrence(s: string, pattern: string, replacement: string)
    requires pattern != []
    requires !Contains(pattern, s)
    ensures Replace(s, pattern, replacement) == s
    decreases |s|
  {
    if s != [] {
      ReplaceWithoutOccurrence(s[1..], pattern, replacement);
    }
  }

  /** CPython's adjustment of one slice bound to a sequence of length `n`. */
  function SliceBound(i: int, n: nat): (j: nat)
    ensures j <= n
    ensures 0 <= i ==> j == if i < n then i else n
  {
    if i < 0 then (if i + n < 0 then 0 else i + n)
    else if i > n then n
    else i
  }

  /** `s[start:stop]`: negative bounds count from the end, bounds past either end are clamped. */
  function Slice<T>(s: seq<T>, start: int, stop: int): (r: seq<T>)
    ensures |r| <= |s|
    ensures 0 <= start && 0 <= stop ==>
      |r| == (if stop <= start || |s| <= start then 0 else if stop < |s| then stop - start else |s| - start)
    ensures 0 <= start ==> forall i :: 0 <= i < |r| ==> start + i < |s| && r[i] == s[start + i]
  {
    var lo, hi := SliceBound(start, |s|), SliceBound(stop, |s|);
    if lo < hi then s[lo..hi] else []
  }

  /** Python's `a // b`: the quotient rounded towards negative infinity. */
  function FloorDiv(a: int, b: int): (q: int)
    requires b != 0
    ensures b > 0 ==> b * q <= a < b * q + b
    ensures b < 0 ==> b * q + b < a <= b * q
  {
    var e := a / b;
    assert a == b * e + a % b;
    if b > 0 || a % b == 0 then e
    else
      assert b * (e - 1) == b * e - b;
      e - 1
  }
}
