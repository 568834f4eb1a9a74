/** Splitting a string at a separator character, from the left or from the right. */
module Strings {
  import opened Wrappers

  /**
   * Splits `s` at the first occurrence of `c`: the part before it holds no `c`.
   * None when `c` does not occur.
   */
  function SplitAtFirst(s: string, c: char): (r: Option<(string, string)>)
    ensures r.None? <==> c !in s
    ensures r.Some? ==> s == r.value.0 + [c] + r.value.1 && c !in r.value.0
  {
    if s == [] then None
    else if s[0] == c then
      assert s == [] + [c] + s[1..];
      Some(([], s[1..]))
    else
      match SplitAtFirst(s[1..], c)
      case None => None
      case Some(p) =>
        assert s == [s[0]] + s[1..];
        Some(([s[0]] + p.0, p.1))
  }

  /**
   * Splits `s` at the last occurrence of `c`: the part after it holds no `c`.
   * None when `c` does not occur.
   */
  function SplitAtLast(s: string, c: char): (r: Option<(string, string)>)
    ensures r.None? <==> c !in s
    ensures r.Some? ==> s == r.value.0 + [c] + r.value.1 && c !in r.value.1
  {
    if s == [] then None
    else if s[|s| - 1] == c then
      assert s == s[..|s| - 1] + [c] + [];
      Some((s[..|s| - 1], []))
    else
      match SplitAtLast(s[..|s| - 1], c)
      case None => None
      case Some(p) =>
        assert s == s[..|s| - 1] + [s[|s| - 1]];
        Some((p.0, p.1 + [s[|s| - 1]]))
  }

  /** In `x + [c] + y` with no `c` in `x`, the first `c` stands at position |x|. */
  lemma NoSeparatorBefore(x: string, c: char, y: string)
    requires c !in x
    ensures forall k :: 0 <= k < |x| ==> (x + [c] + y)[k] != c
  {
  }

  /** In `x + [c] + y` with no `c` in `y`, the last `c` stands at position |x|. */
  lemma NoSeparatorAfter(x: string, c: char, y: string)
    requires c !in y
    ensures forall k :: |x| < k < |x| + 1 + |y| ==> (x + [c] + y)[k] != c
  {
  }

  /** Joining two parts with `c` and splitting at the first `c` gives the parts back. */
  lemma SplitAtFirstOfJoin(a: string, c: char, b: string)
    requires c !in a
    ensures SplitAtFirst(a + [c] + b, c) == Some((a, b))
  {
    var s := a + [c] + b;
    var p := SplitAtFirst(s, c).value;
    assert |p.0| == |a| by {
      NoSeparatorBefore(a, c, b);
      NoSeparatorBefore(p.0, c, p.1);
      assert s[|a|] == c;
      assert s[|p.0|] == c;
    }
    assert p.0 == s[..|a|] == a;
    assert p.1 == s[|a| + 1..] == b;
  }

  /** Joining two parts with `c` and splitting at the last `c` gives the parts back. */
  lemma SplitAtLastOfJoin(a: string, c: char, b: string)
    requires c !in b
    ensures SplitAtLast(a + [c] + b, c) == Some((a, b))
  {
    var s := a + [c] + b;
    var p := SplitAtLast(s, c).value;
    assert |p.0| == |a| by {
      NoSeparatorAfter(a, c, b);
      NoSeparatorAfter(p.0, c, p.1);
      assert s[|a|] == c;
      assert s[|p.0|] == c;
    }
    assert p.0 == s[..|a|] == a;
    assert p.1 == s[|a| + 1..] == b;
  }
}
