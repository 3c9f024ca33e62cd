/** Character-level helpers of Go's `strings` package that nconv relies on:
    `TrimSpace` (whitespace as Go's `unicode.IsSpace` defines it) and the
    ASCII case mapping behind `strings.ToLower`. */
module Text {

  /** Go's `unicode.IsSpace`: the Unicode White_Space property. */
  predicate IsSpace(c: char)
  {
    || ('\t' <= c <= '\r')
    || c == ' '
    || c == '\U{0085}'
    || c == '\U{00A0}'
    || c == '\U{1680}'
    || ('\U{2000}' <= c <= '\U{200A}')
    || c == '\U{2028}'
    || c == '\U{2029}'
    || c == '\U{202F}'
    || c == '\U{205F}'
    || c == '\U{3000}'
  }

  predicate AllSpace(s: string)
  {
    forall i :: 0 <= i < |s| ==> IsSpace(s[i])
  }

  /** The index of the first non-whitespace character of `s` at or after
      `from`, or `|s|` when there is none. */
  function SpaceEnd(s: string, from: nat): (k: nat)
    requires from <= |s|
    ensures from <= k <= |s|
    ensures forall i :: from <= i < k ==> IsSpace(s[i])
    ensures k < |s| ==> !IsSpace(s[k])
    decreases |s| - from
  {
    if from < |s| && IsSpace(s[from]) then SpaceEnd(s, from + 1) else from
  }

  /** Walks `stop` back over trailing whitespace, never below `start`. */
  function SpaceStart(s: string, start: nat, stop: nat): (k: nat)
    requires start <= stop <= |s|
    ensures start <= k <= stop
    ensures forall i :: k <= i < stop ==> IsSpace(s[i])
    ensures k > start ==> !IsSpace(s[k - 1])
    decreases stop
  {
    if stop > start && IsSpace(s[stop - 1]) then SpaceStart(s, start, stop - 1) else stop
  }

  /** `strings.TrimSpace`: `s` without its leading and trailing whitespace.
      The result is a slice of `s` with only whitespace around it, it is
      empty exactly when `s` is all whitespace, and otherwise it neither
      starts nor ends with whitespace. */
  function TrimSpace(s: string): (r: string)
    ensures r == [] <==> AllSpace(s)
    ensures |r| > 0 ==> !IsSpace(r[0]) && !IsSpace(r[|r| - 1])
    ensures exists lo :: 0 <= lo <= |s| - |r| && r == s[lo..lo + |r|]
                         && AllSpace(s[..lo]) && AllSpace(s[lo + |r|..])
  {
    var start := SpaceEnd(s, 0);
    var stop := SpaceStart(s, start, |s|);
    assert AllSpace(s[..start]);
    assert AllSpace(s[stop..]);
    assert AllSpace(s) ==> start == |s|;
    s[start..stop]
  }

  /** Surrounding whitespace is exactly what `TrimSpace` removes: padding a
      string that neither starts nor ends with whitespace gives it back. */
  lemma TrimSpacePadded(pre: string, s: string, post: string)
    requires AllSpace(pre) && AllSpace(post)
    requires |s| > 0 ==> !IsSpace(s[0]) && !IsSpace(s[|s| - 1])
    ensures TrimSpace(pre + s + post) == s
  {
    var x := pre + s + post;
    if s == [] {
      assert AllSpace(x) by {
        forall i | 0 <= i < |x| ensures IsSpace(x[i]) {
          if i < |pre| { assert x[i] == pre[i]; } else { assert x[i] == post[i - |pre|]; }
        }
      }
    } else {
      var start := SpaceEnd(x, 0);
      assert x[|pre|] == s[0];
      assert start == |pre|;
      var stop := SpaceStart(x, start, |x|);
      var e := |pre| + |s|;
      assert x[e - 1] == s[|s| - 1];
      assert stop == e;
      assert x[start..stop] == s;
    }
  }

  /** ASCII lower-casing of one character. */
  function LowerChar(c: char): char
  {
    if 'A' <= c <= 'Z' then (c as int - 'A' as int + 'a' as int) as char else c
  }

  /** ASCII upper-casing of one character. */
  function UpperChar(c: char): char
  {
    if 'a' <= c <= 'z' then (c as int - 'a' as int + 'A' as int) as char else c
  }

  /** `strings.ToLower`, restricted to ASCII letters. */
  function Lower(s: string): (r: string)
    ensures |r| == |s|
    ensures forall i :: 0 <= i < |s| ==> r[i] == LowerChar(s[i])
    ensures forall i :: 0 <= i < |r| ==> !('A' <= r[i] <= 'Z')
  {
    seq(|s|, i requires 0 <= i < |s| => LowerChar(s[i]))
  }

  /** `strings.ToUpper`, restricted to ASCII letters. */
  function Upper(s: string): (r: string)
    ensures |r| == |s|
    ensures forall i :: 0 <= i < |s| ==> r[i] == UpperChar(s[i])
  {
    seq(|s|, i requires 0 <= i < |s| => UpperChar(s[i]))
  }

  /** Lower-casing forgets any earlier upper-casing. */
  lemma LowerUpper(s: string)
    ensures Lower(Upper(s)) == Lower(s)
  {
  }
}
