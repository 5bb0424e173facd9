/** The string operations the release-feed layer relies on: Python's
    `str.split(sep, maxsplit=1)`, `str.rsplit(sep, maxsplit=1)` and
    `str.endswith(suffix)`, on `seq<char>`. */
module Text {
  import opened Wrappers

  /** Position of the first `c` in `s`, or `|s|` when there is none. */
  function IndexOfFirst(s: string, c: char): (i: nat)
    ensures i <= |s|
    ensures i < |s| ==> s[i] == c
    ensures forall j :: 0 <= j < i ==> s[j] != c
  {
    if |s| == 0 then 0
    else if s[0] == c then 0
    else 1 + IndexOfFirst(s[1..], c)
  }

  /** Position of the last `c` in `s`, or -1 when there is none. */
  function IndexOfLast(s: string, c: char): (i: int)
    ensures -1 <= i < |s|
    ensures 0 <= i ==> s[i] == c
    ensures forall j :: i < j < |s| ==> s[j] != c
  {
    if |s| == 0 then -1
    else if s[|s| - 1] == c then |s| - 1
    else IndexOfLast(s[..|s| - 1], c)
  }

  /** `s.split(sep, maxsplit=1)` read as a pair: None when the result would
      have a single element (no separator in `s`). */
  function SplitFirst(s: string, sep: char): (r: Option<(string, string)>)
    ensures r.None? <==> sep !in s
    ensures r.Some? ==> sep !in r.value.0 && r.value.0 + [sep] + r.value.1 == s
  {
    var i := IndexOfFirst(s, sep);
    if i == |s| then None
    else
      assert s == s[..i] + [sep] + s[i + 1..];
      Some((s[..i], s[i + 1..]))
  }

  /** `s.rsplit(sep, maxsplit=1)` unpacked into two values: None when `s`
      holds no separator, where Python's two-value unpacking fails. */
  function RSplitLast(s: string, sep: char): (r: Option<(string, string)>)
    ensures r.None? <==> sep !in s
    ensures r.Some? ==> sep !in r.value.1 && r.value.0 + [sep] + r.value.1 == s
  {
    var i := IndexOfLast(s, sep);
    if i < 0 then None
    else
      assert s == s[..i] + [sep] + s[i + 1..];
      Some((s[..i], s[i + 1..]))
  }

  /** Splitting at the first separator is undone by joining, and only one
      split does that: the head is exactly the text before the first `sep`. */
  lemma SplitFirstOf(head: string, sep: char, tail: string)
    requires sep !in head
    ensures SplitFirst(head + [sep] + tail, sep) == Some((head, tail))
  {
    var s := head + [sep] + tail;
    var i := IndexOfFirst(s, sep);
    assert s[|head|] == sep;
    assert i == |head|;
    assert s[..i] == head;
    assert s[i + 1..] == tail;
  }

  /** Splitting at the last separator is undone by joining, and only one
      split does that: the tail is exactly the text after the last `sep`. */
  lemma RSplitLastOf(head: string, sep: char, tail: string)
    requires sep !in tail
    ensures RSplitLast(head + [sep] + tail, sep) == Some((head, tail))
  {
    var s := head + [sep] + tail;
    var i := IndexOfLast(s, sep);
    assert s[|head|] == sep;
    assert i == |head|;
    assert s[..i] == head;
    assert s[i + 1..] == tail;
  }

  /** `s.endswith(suffix)`. */
  predicate EndsWith(s: string, suffix: string)
  {
    |suffix| <= |s| && s[|s| - |suffix|..] == suffix
  }
}
