/**
 * String helpers shared by both scripts: prefix/suffix tests, stripping the
 * runs of a character class from both ends (what the page-path regular
 * expression and String.prototype.trim do), and the ECMAScript whitespace set.
 */
module Text {

  predicate StartsWith(s: string, prefix: string) {
    |prefix| <= |s| && s[..|prefix|] == prefix
  }

  predicate EndsWith(s: string, suffix: string) {
    |suffix| <= |s| && s[|s| - |suffix|..] == suffix
  }

  /** A concatenation starts with its first part and ends with every suffix of its second part. */
  lemma ConcatEnds(a: string, b: string, suffix: string)
    requires EndsWith(b, suffix)
    ensures StartsWith(a + b, a) && EndsWith(a + b, suffix)
    ensures b != [] ==> (a + b)[|a|] == b[0]
  {
    assert (a + b)[|a + b| - |suffix|..] == b[|b| - |suffix|..];
  }

  /** A string whose last character differs from that of `suffix` does not end with it. */
  lemma LastCharRulesOut(s: string, suffix: string)
    requires s != [] && suffix != [] && s[|s| - 1] != suffix[|suffix| - 1]
    ensures !EndsWith(s, suffix)
  {
    if |suffix| <= |s| {
      assert s[|s| - |suffix|..][|suffix| - 1] == s[|s| - 1];
    }
  }

  /**
   * The WhiteSpace and LineTerminator code points of ECMAScript, which `trim`
   * removes: in ASCII exactly tab, line feed, vertical tab, form feed,
   * carriage return and space, and none beyond the Basic Multilingual Plane.
   */
  predicate IsWhitespace(c: char)
    ensures c < '\U{0080}' ==> (IsWhitespace(c) <==> c in {'\t', '\n', '\U{000B}', '\U{000C}', '\r', ' '})
    ensures IsWhitespace(c) ==> c <= '\U{FEFF}'
  {
    || c == '\t' || c == '\n' || c == '\U{000B}' || c == '\U{000C}' || c == '\r' || c == ' '
    || c == '\U{00A0}' || c == '\U{1680}' || ('\U{2000}' <= c <= '\U{200A}')
    || c == '\U{2028}' || c == '\U{2029}' || c == '\U{202F}' || c == '\U{205F}'
    || c == '\U{3000}' || c == '\U{FEFF}'
  }

  /** The characters the two scripts strip from the ends of a string. */
  datatype CharClass = Whitespace | Slash

  predicate In(c: char, cls: CharClass) {
    match cls
    case Whitespace => IsWhitespace(c)
    case Slash => c == '/'
  }

  predicate All(s: string, cls: CharClass) {
    forall k :: 0 <= k < |s| ==> In(s[k], cls)
  }

  /** `s` is `r` with only characters of `cls` added on either side. */
  ghost predicate PaddedBy(s: string, r: string, cls: CharClass) {
    exists pre, post :: s == pre + r + post && All(pre, cls) && All(post, cls)
  }

  /** The length of the longest prefix of `s` whose characters are all in `cls`. */
  function LeadingRun(s: string, cls: CharClass): (n: nat)
    ensures n <= |s|
    ensures forall i :: 0 <= i < n ==> In(s[i], cls)
    ensures n < |s| ==> !In(s[n], cls)
  {
    if s != [] && In(s[0], cls) then 1 + LeadingRun(s[1..], cls) else 0
  }

  /** The length of the longest suffix of `s` whose characters are all in `cls`. */
  function TrailingRun(s: string, cls: CharClass): (n: nat)
    ensures n <= |s|
    ensures forall i :: |s| - n <= i < |s| ==> In(s[i], cls)
    ensures n < |s| ==> !In(s[|s| - n - 1], cls)
  {
    if s != [] && In(s[|s| - 1], cls) then 1 + TrailingRun(s[..|s| - 1], cls) else 0
  }

  /** LeadingRun is the unique length with all of `cls` before it and none at it. */
  lemma LeadingRunIs(s: string, cls: CharClass, m: nat)
    requires m <= |s| && (forall i :: 0 <= i < m ==> In(s[i], cls)) && (m < |s| ==> !In(s[m], cls))
    ensures LeadingRun(s, cls) == m
  {
  }

  /** TrailingRun is the unique length with all of `cls` after it and none just before it. */
  lemma TrailingRunIs(s: string, cls: CharClass, m: nat)
    requires m <= |s| && (forall i :: |s| - m <= i < |s| ==> In(s[i], cls)) && (m < |s| ==> !In(s[|s| - m - 1], cls))
    ensures TrailingRun(s, cls) == m
  {
  }

  /** The characters before the leading run's end are all in `cls`. */
  lemma LeadingPadding(s: string, cls: CharClass, i: nat)
    requires i == LeadingRun(s, cls)
    ensures All(s[..i], cls)
  {
    forall k | 0 <= k < i ensures In(s[..i][k], cls) {
      assert s[..i][k] == s[k];
    }
  }

  /** The characters after the trailing run's start, in `s[i..]`, are all in `cls`. */
  lemma TrailingPadding(s: string, cls: CharClass, i: nat, j: nat)
    requires i <= j <= |s| && j == |s| - TrailingRun(s[i..], cls)
    ensures All(s[j..], cls)
    ensures i < j ==> !In(s[j - 1], cls)
  {
    var t := s[i..];
    forall k | 0 <= k < |s| - j ensures In(s[j..][k], cls) {
      assert s[j..][k] == t[j - i + k];
    }
    if i < j {
      assert s[j - 1] == t[|t| - TrailingRun(t, cls) - 1];
    }
  }

  /** A slice of `s` is padded, on both sides, by what lies before and after it. */
  lemma SlicePadded(s: string, cls: CharClass, i: nat, j: nat)
    requires i <= j <= |s| && All(s[..i], cls) && All(s[j..], cls)
    ensures PaddedBy(s, s[i..j], cls)
  {
    assert s == s[..i] + s[i..j] + s[j..];
  }

  /** The slice between the leading run and the trailing run is padded by them and does not start or end with a character of `cls`. */
  lemma BetweenRuns(s: string, cls: CharClass, i: nat, j: nat)
    requires i == LeadingRun(s, cls) && i <= j <= |s| && j == |s| - TrailingRun(s[i..], cls)
    ensures PaddedBy(s, s[i..j], cls)
    ensures i == j || (!In(s[i..j][0], cls) && !In(s[i..j][j - i - 1], cls))
  {
    LeadingPadding(s, cls, i);
    TrailingPadding(s, cls, i, j);
    SlicePadded(s, cls, i, j);
  }

  /**
   * `s` with the runs of characters of `cls` removed from both ends:
   * `s` is the result padded on both sides by such characters only, and the
   * result neither starts nor ends with one.
   */
  function StripBoth(s: string, cls: CharClass): (r: string)
    ensures PaddedBy(s, r, cls)
    ensures r == [] || (!In(r[0], cls) && !In(r[|r| - 1], cls))
  {
    var i := LeadingRun(s, cls);
    var j := |s| - TrailingRun(s[i..], cls);
    BetweenRuns(s, cls, i, j);
    s[i..j]
  }

  /** StripBoth keeps exactly the slice between the two runs it measures. */
  lemma StripBothBetween(s: string, cls: CharClass, i: nat, j: nat)
    requires i <= j <= |s| && LeadingRun(s, cls) == i && TrailingRun(s[i..], cls) == |s| - j
    ensures StripBoth(s, cls) == s[i..j]
  {
  }

  /** The leading run of `pre + rest` is `pre` when `rest` does not start with a character of `cls`. */
  lemma LeadingRunOf(pre: string, rest: string, cls: CharClass)
    requires All(pre, cls) && rest != [] && !In(rest[0], cls)
    ensures LeadingRun(pre + rest, cls) == |pre|
  {
    var s := pre + rest;
    assert s[|pre|] == rest[0];
    assert forall k :: 0 <= k < |pre| ==> s[k] == pre[k];
    LeadingRunIs(s, cls, |pre|);
  }

  /** The trailing run of `rest + post` is `post` when `rest` does not end with a character of `cls`. */
  lemma TrailingRunOf(rest: string, post: string, cls: CharClass)
    requires All(post, cls) && rest != [] && !In(rest[|rest| - 1], cls)
    ensures TrailingRun(rest + post, cls) == |post|
  {
    var s := rest + post;
    assert s[|rest| - 1] == rest[|rest| - 1];
    assert forall k :: |rest| <= k < |s| ==> s[k] == post[k - |rest|];
    TrailingRunIs(s, cls, |post|);
  }

  /** Stripping a middle part that neither starts nor ends with a character of `cls` from its padding gives the middle part. */
  lemma StripBothAround(pre: string, mid: string, post: string, cls: CharClass)
    requires All(pre, cls) && All(post, cls)
    requires mid != [] && !In(mid[0], cls) && !In(mid[|mid| - 1], cls)
    ensures StripBoth(pre + mid + post, cls) == mid
  {
    var s := pre + mid + post;
    var i, j := |pre|, |pre| + |mid|;
    assert s == pre + (mid + post);
    LeadingRunOf(pre, mid + post, cls);
    assert s[i..] == mid + post;
    TrailingRunOf(mid, post, cls);
    assert s[i..j] == mid;
    StripBothBetween(s, cls, i, j);
  }

  /** String.prototype.trim: `s` with its leading and trailing whitespace removed. */
  function Trim(s: string): (r: string)
    ensures PaddedBy(s, r, Whitespace)
    ensures r == [] || (!IsWhitespace(r[0]) && !IsWhitespace(r[|r| - 1]))
  {
    StripBoth(s, Whitespace)
  }

  /** Trimming twice is trimming once. */
  lemma TrimIdempotent(s: string)
    ensures Trim(Trim(s)) == Trim(s)
  {
    var t := Trim(s);
    assert LeadingRun(t, Whitespace) == 0;
    assert TrailingRun(t, Whitespace) == 0;
  }
}
