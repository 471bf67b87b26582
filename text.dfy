/**
  The pieces of Python's `str` behaviour the core relies on: `str.isspace`,
  `str.strip`, `sep.join(xs)` and the prefix slice `s[:n]`. Strings are
  sequences of Unicode scalar values, so `len(s)` is `|s|`.
 */
module Text {

  /** `c.isspace()`; the same set of characters is `\s` in a `re` pattern on `str`. */
  predicate IsSpace(c: char)
  {
    ('\t' <= c <= '\r') || ('\U{1C}' <= c <= '\U{1F}') || c == ' ' ||
    c == '\U{85}' || c == '\U{A0}' || c == '\U{1680}' ||
    ('\U{2000}' <= c <= '\U{200A}') || c == '\U{2028}' || c == '\U{2029}' ||
    c == '\U{202F}' || c == '\U{205F}' || c == '\U{3000}'
  }

  /** Neither end of `s` is whitespace. */
  predicate IsStripped(s: string)
  {
    s == [] || (!IsSpace(s[0]) && !IsSpace(s[|s| - 1]))
  }

  predicate AllSpace(s: string)
  {
    forall i :: 0 <= i < |s| ==> IsSpace(s[i])
  }

  /** The end of the run of whitespace that begins at `i`. */
  function SpaceRunEnd(s: string, i: nat): (j: nat)
    requires i <= |s|
    ensures i <= j <= |s|
    ensures forall m :: i <= m < j ==> IsSpace(s[m])
    ensures j < |s| ==> !IsSpace(s[j])
    decreases |s| - i
  {
    if i == |s| || !IsSpace(s[i]) then i else SpaceRunEnd(s, i + 1)
  }

  /** The start of the run of whitespace that ends at `j`, not going below `lo`. */
  function SpaceRunStart(s: string, lo: nat, j: nat): (k: nat)
    requires lo <= j <= |s|
    ensures lo <= k <= j
    ensures forall m :: k <= m < j ==> IsSpace(s[m])
    ensures k > lo ==> !IsSpace(s[k - 1])
    decreases j - lo
  {
    if j == lo || !IsSpace(s[j - 1]) then j else SpaceRunStart(s, lo, j - 1)
  }

  /** `s.strip()`: `s` without its leading and trailing whitespace; empty exactly when `s` is all whitespace. */
  function Strip(s: string): (r: string)
    ensures r == [] <==> AllSpace(s)
  {
    var lo := SpaceRunEnd(s, 0);
    var hi := SpaceRunStart(s, lo, |s|);
    assert lo == hi ==> AllSpace(s);
    s[lo..hi]
  }

  /**
    What `s.strip()` keeps is an infix of `s` with no whitespace at either
    end, what it removes is whitespace, and a stripped string is left as it is.
   */
  lemma StripFacts(s: string)
    ensures IsStripped(Strip(s))
    ensures IsStripped(s) ==> Strip(s) == s
    ensures var r, lo := Strip(s), SpaceRunEnd(s, 0);
      lo + |r| <= |s| && r == s[lo..lo + |r|] &&
      (forall m :: 0 <= m < lo ==> IsSpace(s[m])) &&
      (forall m :: lo + |r| <= m < |s| ==> IsSpace(s[m]))
  {
    var lo := SpaceRunEnd(s, 0);
    var hi := SpaceRunStart(s, lo, |s|);
    assert IsStripped(s) && s != [] ==> lo == 0 && hi == |s|;
  }

  /** The combined length of the items. */
  function TotalLength(xs: seq<string>): nat
  {
    if xs == [] then 0 else TotalLength(xs[..|xs| - 1]) + |xs[|xs| - 1]|
  }

  /** `sep.join(xs)`: the items in order, with one separator between each two of them. */
  function JoinWith(sep: string, xs: seq<string>): (r: string)
    ensures xs == [] ==> r == ""
    ensures xs != [] ==> |r| == TotalLength(xs) + (|xs| - 1) * |sep|
  {
    if |xs| == 0 then ""
    else if |xs| == 1 then xs[0]
    else JoinWith(sep, xs[..|xs| - 1]) + sep + xs[|xs| - 1]
  }

  /** Joining one more item adds the separator and the item at the end. */
  lemma JoinWithSnoc(sep: string, xs: seq<string>, x: string)
    requires xs != []
    ensures JoinWith(sep, xs + [x]) == JoinWith(sep, xs) + sep + x
  {
    assert (xs + [x])[..|xs|] == xs;
  }

  /** Joining from the front: the first item, the separator, then the join of the rest. */
  lemma {:induction false} JoinWithCons(sep: string, x: string, xs: seq<string>)
    requires xs != []
    ensures JoinWith(sep, [x] + xs) == x + sep + JoinWith(sep, xs)
    decreases |xs|
  {
    if |xs| == 1 {
      assert [x] + xs == [x] + [xs[0]];
      JoinWithSnoc(sep, [x], xs[0]);
    } else {
      var init, last := xs[..|xs| - 1], xs[|xs| - 1];
      assert xs == init + [last];
      assert [x] + xs == ([x] + init) + [last];
      JoinWithSnoc(sep, [x] + init, last);
      JoinWithCons(sep, x, init);
      JoinWithSnoc(sep, init, last);
    }
  }

  /** Joining two non-empty lists: the two joins with one separator between them. */
  lemma {:induction false} JoinWithConcat(sep: string, a: seq<string>, b: seq<string>)
    requires a != [] && b != []
    ensures JoinWith(sep, a + b) == JoinWith(sep, a) + sep + JoinWith(sep, b)
    decreases |b|
  {
    if |b| == 1 {
      assert a + b == a + [b[0]];
      JoinWithSnoc(sep, a, b[0]);
    } else {
      var init, last := b[..|b| - 1], b[|b| - 1];
      assert b == init + [last];
      assert a + b == (a + init) + [last];
      JoinWithSnoc(sep, a + init, last);
      JoinWithConcat(sep, a, init);
      JoinWithSnoc(sep, init, last);
    }
  }

  /** The joined string ends with the last item, so it is empty only if that item is. */
  lemma JoinWithEndsWithLast(sep: string, xs: seq<string>)
    requires xs != []
    ensures |JoinWith(sep, xs)| >= |xs[|xs| - 1]|
  {
  }

  /** `s[:n]` for any integer `n`, as Python slices: a negative `n` drops `-n` items from the end. */
  function Prefix<T>(s: seq<T>, n: int): (r: seq<T>)
    ensures |r| <= |s| && r == s[..|r|]
    ensures n >= 0 ==> |r| == if n < |s| then n else |s|
    ensures n < 0 ==> |r| == if |s| + n > 0 then |s| + n else 0
  {
    if n >= 0 then (if n < |s| then s[..n] else s)
    else (if |s| + n > 0 then s[..|s| + n] else [])
  }
}
