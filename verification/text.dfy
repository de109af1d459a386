/**
 * strings.TrimSpace, which the middleware calls on both trace headers, and a
 * Split that says which dash-separated field of a header the trace-id is.
 */
module Text {

  /** White space as Go's unicode.IsSpace recognises it (the set strings.TrimSpace removes). */
  predicate IsSpace(c: char) {
    || ('\U{0009}' <= c <= '\U{000D}')   // \t \n \v \f \r
    || c == ' '
    || c == '\U{0085}' || c == '\U{00A0}' || c == '\U{1680}'
    || ('\U{2000}' <= c <= '\U{200A}')
    || c == '\U{2028}' || c == '\U{2029}' || c == '\U{202F}' || c == '\U{205F}' || c == '\U{3000}'
  }

  predicate AllSpace(s: string) {
    forall i | 0 <= i < |s| :: IsSpace(s[i])
  }

  /** s is empty, or neither starts nor ends with white space. */
  predicate Trimmed(s: string) {
    s == [] || (!IsSpace(s[0]) && !IsSpace(s[|s| - 1]))
  }

  /** Scanning forward from i: the index of the first non-space character, or |s|. */
  function SkipForward(s: string, i: nat): (k: nat)
    requires i <= |s|
    ensures i <= k <= |s|
    ensures forall m | i <= m < k :: IsSpace(s[m])
    ensures k == |s| || !IsSpace(s[k])
    decreases |s| - i
  {
    if i < |s| && IsSpace(s[i]) then SkipForward(s, i + 1) else i
  }

  /** Scanning backward from j, never below lo: the end of the non-space text, or lo. */
  function SkipBackward(s: string, lo: nat, j: nat): (k: nat)
    requires lo <= j <= |s|
    ensures lo <= k <= j
    ensures forall m | k <= m < j :: IsSpace(s[m])
    ensures k == lo || !IsSpace(s[k - 1])
    decreases j
  {
    if j > lo && IsSpace(s[j - 1]) then SkipBackward(s, lo, j - 1) else j
  }

  /**
   * strings.TrimSpace: s with all leading and trailing white space removed,
   * found as Go finds it, a start index scanned forward and a stop index
   * scanned backward no further than the start.
   */
  function TrimSpace(s: string): (r: string)
    ensures Trimmed(r) && |r| <= |s|
  {
    var start := SkipForward(s, 0);
    s[start..SkipBackward(s, start, |s|)]
  }

  /** A run of white-space indices of s, as a slice, is white space. */
  lemma SpaceSlice(s: string, lo: nat, hi: nat)
    requires lo <= hi <= |s|
    requires forall m | lo <= m < hi :: IsSpace(s[m])
    ensures AllSpace(s[lo..hi])
  {
  }

  /** TrimSpace(s) is the slice of s between its leading and its trailing white-space runs. */
  lemma TrimSpaceSlice(s: string) returns (i: nat, j: nat)
    ensures i <= j <= |s| && TrimSpace(s) == s[i..j]
    ensures AllSpace(s[..i]) && AllSpace(s[j..])
  {
    i := SkipForward(s, 0);
    j := SkipBackward(s, i, |s|);
    SpaceSlice(s, 0, i);
    SpaceSlice(s, j, |s|);
  }

  /** What TrimSpace removes is white space on either side of its result. */
  lemma TrimSpaceFrames(s: string)
    ensures var r := TrimSpace(s);
      exists i | 0 <= i <= |s| - |r| :: s[i..i + |r|] == r && AllSpace(s[..i]) && AllSpace(s[i + |r|..])
  {
    var i, j := TrimSpaceSlice(s);
    assert s[i..i + (j - i)] == TrimSpace(s);
  }

  /** TrimSpaceFrames with the removed white space named: s is pre + TrimSpace(s) + post. */
  lemma TrimSpaceSplit(s: string) returns (pre: string, post: string)
    ensures AllSpace(pre) && AllSpace(post)
    ensures s == pre + TrimSpace(s) + post
  {
    var i, j := TrimSpaceSlice(s);
    pre, post := s[..i], s[j..];
    SliceJoin(s, i, j);
  }

  lemma SliceJoin(s: string, i: nat, j: nat)
    requires i <= j <= |s|
    ensures s == s[..i] + s[i..j] + s[j..]
  {
    assert s == s[..i] + s[i..];
    assert s[i..] == s[i..j] + s[j..];
  }

  /** The forward scan stops at the first non-space index and nowhere else. */
  lemma {:induction false} SkipForwardStops(s: string, i: nat, k: nat)
    requires i <= k <= |s|
    requires forall m | i <= m < k :: IsSpace(s[m])
    requires k == |s| || !IsSpace(s[k])
    ensures SkipForward(s, i) == k
    decreases k - i
  {
    if i < k {
      SkipForwardStops(s, i + 1, k);
    }
  }

  /** The backward scan stops at the end of the non-space text and nowhere else. */
  lemma {:induction false} SkipBackwardStops(s: string, lo: nat, j: nat, k: nat)
    requires lo <= k <= j <= |s|
    requires forall m | k <= m < j :: IsSpace(s[m])
    requires k == lo || !IsSpace(s[k - 1])
    ensures SkipBackward(s, lo, j) == k
    decreases j - k
  {
    if k < j {
      SkipBackwardStops(s, lo, j - 1, k);
    }
  }

  /**
   * The converse of TrimSpaceFrames: whenever s is a trimmed core framed by
   * white space, TrimSpace recovers exactly that core.
   */
  lemma TrimSpaceOf(pre: string, core: string, post: string)
    requires AllSpace(pre) && AllSpace(post) && Trimmed(core)
    ensures TrimSpace(pre + core + post) == core
  {
    var s := pre + core + post;
    var i, j := |pre|, |pre| + |core|;
    FramedIndices(pre, core, post);
    if core == [] {
      SkipForwardStops(s, 0, |s|);
      SkipBackwardStops(s, |s|, |s|, |s|);
    } else {
      SkipForwardStops(s, 0, i);
      SkipBackwardStops(s, i, |s|, j);
    }
  }

  /** pre + core + post, read by index: white space, then core, then white space. */
  lemma FramedIndices(pre: string, core: string, post: string)
    requires AllSpace(pre) && AllSpace(post)
    ensures var s, i, j := pre + core + post, |pre|, |pre| + |core|;
      && (forall m | 0 <= m < i :: IsSpace(s[m]))
      && (forall m | j <= m < |s| :: IsSpace(s[m]))
      && s[i..j] == core
      && (core != [] ==> s[i] == core[0] && s[j - 1] == core[|core| - 1])
  {
    var s, i, j := pre + core + post, |pre|, |pre| + |core|;
    assert forall m | 0 <= m < i :: s[m] == pre[m];
    assert forall m | j <= m < |s| :: s[m] == post[m - j];
  }

  /** Trimming twice is trimming once. */
  lemma TrimSpaceIdempotent(s: string)
    ensures TrimSpace(TrimSpace(s)) == TrimSpace(s)
  {
    var r := TrimSpace(s);
    assert [] + r + [] == r;
    TrimSpaceOf([], r, []);
  }

  /**
   * The fields between occurrences of sep, empty ones included, in order (what
   * strings.Split would return). The middleware never splits; this only names
   * "the n-th dash-separated field".
   */
  function Split(s: string, sep: char): (parts: seq<string>)
    ensures |parts| >= 1
    ensures forall i | 0 <= i < |parts| :: sep !in parts[i]
  {
    if s == [] then [[]]
    else if s[0] == sep then [[]] + Split(s[1..], sep)
    else
      var rest := Split(s[1..], sep);
      [[s[0]] + rest[0]] + rest[1..]
  }

  /** Splitting a sep-free prefix followed by sep peels off that prefix as the first field. */
  lemma {:induction false} SplitAfter(a: string, sep: char, b: string)
    requires sep !in a
    ensures Split(a + [sep] + b, sep) == [a] + Split(b, sep)
    decreases |a|
  {
    if a == [] {
      assert a + [sep] + b == [sep] + b;
      assert ([sep] + b)[1..] == b;
    } else {
      assert (a + [sep] + b)[1..] == a[1..] + [sep] + b;
      SplitAfter(a[1..], sep, b);
      assert [a[0]] + a[1..] == a;
    }
  }
}
