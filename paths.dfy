/** String and path helpers of the toolbelt: `split`/`join` on a separator,
    the prefix remover, the `/diff` suffix strip and `path.join`. */
module Paths {

  /** `path.join(a, b)` for clean components (no empty, `.` or `..` parts). */
  function Join(a: string, b: string): string
  {
    a + "/" + b
  }

  /** Index of the first `c` in `s` at or after `from`, or `|s|` if none. */
  function IndexOfFrom(s: string, c: char, from: nat): (i: nat)
    requires from <= |s|
    ensures from <= i <= |s|
    ensures i < |s| ==> s[i] == c
    ensures forall j :: from <= j < i ==> s[j] != c
    decreases |s| - from
  {
    if from == |s| || s[from] == c then from else IndexOfFrom(s, c, from + 1)
  }

  /** JavaScript's `s.split(c)` for a one-character separator. */
  function Split(s: string, c: char): (parts: seq<string>)
    ensures |parts| >= 1
    decreases |s|
  {
    var i := IndexOfFrom(s, c, 0);
    if i == |s| then [s] else [s[..i]] + Split(s[i + 1..], c)
  }

  /** JavaScript's `parts.join(c)`: empty for no parts, otherwise it starts
      with the first part. */
  function JoinWith(parts: seq<string>, c: char): (r: string)
    ensures |parts| == 0 ==> r == ""
    ensures |parts| > 0 ==> parts[0] <= r
    decreases |parts|
  {
    if |parts| == 0 then ""
    else if |parts| == 1 then parts[0]
    else parts[0] + [c] + JoinWith(parts[1..], c)
  }

  /** The fields of a split contain no separator, and there is more than
      one exactly when the separator occurs. */
  lemma {:induction false} SplitFields(s: string, c: char)
    ensures forall k :: 0 <= k < |Split(s, c)| ==> c !in Split(s, c)[k]
    ensures |Split(s, c)| == 1 <==> c !in s
    decreases |s|
  {
    var i := IndexOfFrom(s, c, 0);
    if i < |s| {
      var rest := s[i + 1..];
      SplitFields(rest, c);
      var parts := Split(s, c);
      assert parts == [s[..i]] + Split(rest, c);
      assert c !in s[..i];
      assert c in s;
      forall k | 0 <= k < |parts| ensures c !in parts[k] {
        if k > 0 { assert parts[k] == Split(rest, c)[k - 1]; }
      }
    }
  }

  /** Splitting loses nothing: joining the fields back gives the input. */
  lemma {:induction false} SplitJoin(s: string, c: char)
    ensures JoinWith(Split(s, c), c) == s
    decreases |s|
  {
    var i := IndexOfFrom(s, c, 0);
    if i < |s| {
      var rest := s[i + 1..];
      var tail := Split(rest, c);
      SplitJoin(rest, c);
      var parts := Split(s, c);
      assert parts == [s[..i]] + tail;
      assert parts[1..] == tail;
      calc {
        JoinWith(parts, c);
        parts[0] + [c] + JoinWith(tail, c);
        s[..i] + [c] + rest;
        { assert s[i] == c; assert s[..i] + [s[i]] == s[..i + 1]; }
        s;
      }
    }
  }

  /** Joining fields that contain no separator and splitting again gives the
      fields back. */
  lemma {:induction false} JoinSplit(parts: seq<string>, c: char)
    requires |parts| >= 1
    requires forall k :: 0 <= k < |parts| ==> c !in parts[k]
    ensures Split(JoinWith(parts, c), c) == parts
    decreases |parts|
  {
    var s := JoinWith(parts, c);
    if |parts| == 1 {
      assert IndexOfFrom(s, c, 0) == |s|;
    } else {
      var tail := JoinWith(parts[1..], c);
      assert s == parts[0] + [c] + tail;
      IndexOfFirst(parts[0], c, tail);
      assert s[|parts[0]| + 1..] == tail;
      assert s[..|parts[0]|] == parts[0];
      JoinSplit(parts[1..], c);
    }
  }

  /** Appending a field to a non-empty list appends the separator and the
      field to its join. */
  lemma {:induction false} JoinWithSnoc(parts: seq<string>, e: string, c: char)
    requires |parts| > 0
    ensures JoinWith(parts + [e], c) == JoinWith(parts, c) + [c] + e
    decreases |parts|
  {
    if |parts| == 1 {
      assert (parts + [e])[1..] == [e];
    } else {
      assert (parts + [e])[1..] == parts[1..] + [e];
      JoinWithSnoc(parts[1..], e, c);
    }
  }

  /** In `a + [c] + b` with no `c` in `a`, the first `c` is the one after `a`. */
  lemma IndexOfFirst(a: string, c: char, b: string)
    requires c !in a
    ensures IndexOfFrom(a + [c] + b, c, 0) == |a|
  {
    var s := a + [c] + b;
    assert forall j :: 0 <= j < |a| ==> s[j] == a[j];
    assert s[|a|] == c;
  }

  /** `pathPrefixRemover(prefix)(value)`: `value` without `prefix` when it
      starts with it, `value` unchanged otherwise. */
  function PathPrefixRemover(prefix: string, value: string): (r: string)
    ensures if prefix <= value then prefix + r == value else r == value
    ensures r != value ==> prefix + r == value
    ensures |r| <= |value|
  {
    // value.substr(prefix.length) is empty when the prefix is longer
    var slice := if |prefix| <= |value| then value[|prefix|..] else "";
    if prefix + slice == value then slice else value
  }

  /** `s` ends with `suffix`. */
  predicate EndsWith(s: string, suffix: string)
  {
    |suffix| <= |s| && s[|s| - |suffix|..] == suffix
  }

  /** `s.replace(/\/diff$/, '')`: drops one trailing `/diff`. */
  function StripDiffSuffix(s: string): (r: string)
    ensures EndsWith(s, "/diff") ==> r + "/diff" == s
    ensures !EndsWith(s, "/diff") ==> r == s
  {
    if EndsWith(s, "/diff") then s[..|s| - 5] else s
  }

  /** `path.join` of two clean components is their two-element join on `/`,
      and `/`-free components split back out of it. */
  lemma JoinSplitsBack(a: string, b: string)
    requires '/' !in a && '/' !in b
    ensures Join(a, b) == JoinWith([a, b], '/')
    ensures Split(Join(a, b), '/') == [a, b]
  {
    assert [a, b][1..] == [b];
    JoinSplit([a, b], '/');
  }
}
