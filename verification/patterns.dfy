/**
 * The two regular expressions of the correlation middleware, written out as
 * predicates over characters. Go's RE2 syntax is read as Go reads it: `$`
 * without the multi-line flag is the end of the text, `.` is any character
 * except '\n', and `|` binds looser than `^` and `$`.
 */
module Patterns {
  import opened Wrappers
  import opened Hex

  /** [ \t] */
  predicate IsBlank(c: char) {
    c == ' ' || c == '\t'
  }

  predicate Blanks(s: string) {
    forall i | 0 <= i < |s| :: IsBlank(s[i])
  }

  /** Length of the greedy `[ \t]*` run at the start of s. */
  function LeadingBlanks(s: string): (k: nat)
    ensures k <= |s| && Blanks(s[..k])
    ensures k == |s| || !IsBlank(s[k])
  {
    if s != [] && IsBlank(s[0]) then
      var k := 1 + LeadingBlanks(s[1..]);
      assert s[..k] == [s[0]] + s[1..][..k - 1];
      k
    else 0
  }

  /** The four capture groups of the traceparent pattern: version, trace-id, parent-id, flags. */
  datatype TraceParentGroups = TraceParentGroups(version: string, traceId: string, parentId: string, flags: string)

  /** Each group has the width and alphabet the pattern demands: 2, 32, 16 and 2 lower-case hex characters. */
  predicate WellFormed(g: TraceParentGroups) {
    && |g.version| == 2 && IsLowerHex(g.version)
    && |g.traceId| == 32 && IsLowerHex(g.traceId)
    && |g.parentId| == 16 && IsLowerHex(g.parentId)
    && |g.flags| == 2 && IsLowerHex(g.flags)
  }

  /** The dash-joined header text the four groups spell. */
  function Render(g: TraceParentGroups): string {
    g.version + "-" + g.traceId + "-" + g.parentId + "-" + g.flags
  }

  /** Width of the fixed part version-traceid-parentid-flags. */
  const FixedWidth := 55

  /** `(?:-.*)?$`: nothing, or a dash followed by any text without a newline. */
  predicate IsExtension(t: string) {
    t == [] || (t[0] == '-' && forall i | 0 <= i < |t| :: t[i] != '\n')
  }

  /**
   * reTraceParent.FindStringSubmatch(s), reduced to its four groups:
   * `^[ \t]*([0-9a-f]{2})-([0-9a-f]{32})-([0-9a-f]{16})-([0-9a-f]{2})(?:-.*)?$`.
   * On a match, s splits into leading blanks, the rendered groups and an extension.
   */
  function MatchTraceParent(s: string): (m: Option<TraceParentGroups>)
    ensures m.Some? ==> WellFormed(m.value)
    ensures m.Some? ==>
      var k := LeadingBlanks(s);
      && k + FixedWidth <= |s|
      && s == s[..k] + Render(m.value) + s[k + FixedWidth..]
      && IsExtension(s[k + FixedWidth..])
  {
    var k := LeadingBlanks(s);
    var rest := s[k..];
    if |rest| < FixedWidth then None
    else
      var g := TraceParentGroups(rest[..2], rest[3..35], rest[36..52], rest[53..55]);
      if rest[2] == '-' && rest[35] == '-' && rest[52] == '-' && WellFormed(g) && IsExtension(rest[FixedWidth..]) then
        assert rest[..FixedWidth] == Render(g);
        assert s == s[..k] + rest[..FixedWidth] + rest[FixedWidth..];
        Some(g)
      else None
  }

  lemma {:induction false} LeadingBlanksOf(lead: string, rest: string)
    requires Blanks(lead)
    requires rest == [] || !IsBlank(rest[0])
    ensures LeadingBlanks(lead + rest) == |lead|
    decreases |lead|
  {
    if lead != [] {
      assert (lead + rest)[1..] == lead[1..] + rest;
      LeadingBlanksOf(lead[1..], rest);
    }
  }

  /**
   * Every text made of blanks, well-formed groups and an extension is matched,
   * and the match reports exactly those groups.
   */
  lemma MatchTraceParentComplete(lead: string, g: TraceParentGroups, tail: string)
    requires Blanks(lead) && WellFormed(g) && IsExtension(tail)
    ensures MatchTraceParent(lead + Render(g) + tail) == Some(g)
  {
    var s := lead + Render(g) + tail;
    var r := Render(g);
    assert r[0] == g.version[0];
    assert s == lead + (r + tail);
    LeadingBlanksOf(lead, r + tail);
    var rest := s[|lead|..];
    assert rest == r + tail;
    assert rest[..2] == g.version;
    assert rest[3..35] == g.traceId;
    assert rest[36..52] == g.parentId;
    assert rest[53..55] == g.flags;
    assert rest[FixedWidth..] == tail;
  }

  /**
   * reHex16Or32.MatchString(s) for `^[0-9a-f]{16}|[0-9a-f]{32}$`: the alternation
   * splits into "16 hex characters at the start" or "32 hex characters at the end".
   */
  predicate MatchHex16Or32(s: string) {
    || (|s| >= 16 && IsLowerHex(s[..16]))
    || (|s| >= 32 && IsLowerHex(s[|s| - 32..]))
  }

  /** Any text that starts with 16 hex characters matches, whatever follows them. */
  lemma Hex16Or32AcceptsPrefix(head: string, rest: string)
    requires |head| == 16 && IsLowerHex(head)
    ensures MatchHex16Or32(head + rest)
  {
    assert (head + rest)[..16] == head;
  }

  /** Any text that ends with 32 hex characters matches, whatever precedes them. */
  lemma Hex16Or32AcceptsSuffix(rest: string, last: string)
    requires |last| == 32 && IsLowerHex(last)
    ensures MatchHex16Or32(rest + last)
  {
    assert (rest + last)[|rest + last| - 32..] == last;
  }

  /** A text shorter than 16 characters has room for neither alternative, so it is rejected. */
  lemma Hex16Or32RejectsShort(s: string)
    requires |s| < 16
    ensures !MatchHex16Or32(s)
  {
  }

  /** A text without 16 leading and without 32 trailing hex characters is rejected. */
  lemma Hex16Or32RejectsOthers(s: string, i: nat, j: nat)
    requires i < 16 && i < |s| && !IsLowerHexDigit(s[i])
    requires |s| - 32 <= j < |s| && !IsLowerHexDigit(s[j])
    ensures !MatchHex16Or32(s)
  {
    if |s| >= 16 {
      assert s[..16][i] == s[i];
    }
    if |s| >= 32 {
      assert s[|s| - 32..][j - (|s| - 32)] == s[j];
    }
  }
}
