/**
 * The URL locator of the chat route: `message.match(/(https?:\/\/[^\s]+)/g)`
 * followed by `urls ? urls[0] : null`. The first element of a global match
 * is the leftmost match, so the locator is a left-to-right scan that, at
 * each index, tries the pattern the way the regular-expression engine does
 * and stops at the first index where it succeeds.
 */
module UrlLocator {
  import opened Wrappers
  import opened JsText

  const Http: string := "http://"
  const Https: string := "https://"

  /** Specification: a match can begin at index `i` of `s` — `http://` or
      `https://` there, followed by at least one non-whitespace character.
      The comparison is case-sensitive. */
  predicate UrlStartsAt(s: string, i: int) {
    (StartsAt(s, i, Http) && i + |Http| < |s| && !IsWs(s[i + |Http|]))
    || (StartsAt(s, i, Https) && i + |Https| < |s| && !IsWs(s[i + |Https|]))
  }

  /** Specification: `s[i..j]` is the first URL of `s` — the leftmost index
      where a match begins, run on to the next whitespace or the end of text. */
  ghost predicate IsFirstUrl(s: string, i: int, j: int) {
    0 <= i < j <= |s|
    && UrlStartsAt(s, i)
    && (forall k | 0 <= k < i :: !UrlStartsAt(s, k))
    && (forall m | i <= m < j :: !IsWs(s[m]))
    && (j == |s| || IsWs(s[j]))
  }

  /** `[^\s]+` taken greedily from index `k`: the end of the run of
      non-whitespace characters that starts there. */
  function RunEnd(s: string, k: nat): (e: nat)
    requires k <= |s|
    ensures k <= e <= |s|
    ensures forall m | k <= m < e :: !IsWs(s[m])
    ensures e == |s| || IsWs(s[e])
    decreases |s| - k
  {
    if k == |s| || IsWs(s[k]) then k else RunEnd(s, k + 1)
  }

  /** The scheme `prefix` at index `i` followed by `[^\s]+`: the end of the
      match, or None when this alternative fails. */
  function TryScheme(s: string, i: nat, prefix: string): (r: Option<nat>)
    requires i <= |s|
  {
    if StartsAt(s, i, prefix) && i + |prefix| < |s| && !IsWs(s[i + |prefix|])
    then Some(RunEnd(s, i + |prefix|))
    else None
  }

  /** The pattern tried at index `i`: `s?` is greedy, so the engine first
      tries `https://`, and only then backtracks to `http://`. */
  function TryAt(s: string, i: nat): (r: Option<nat>)
    requires i <= |s|
    ensures r.Some? <==> UrlStartsAt(s, i)
    ensures r.Some? ==> i < r.value <= |s|
                        && (forall m | i <= m < r.value :: !IsWs(s[m]))
                        && (r.value == |s| || IsWs(s[r.value]))
  {
    match TryScheme(s, i, Https)
    case Some(e) => Some(e)
    case None => TryScheme(s, i, Http)
  }

  /** The leftmost index at or after `from` where the pattern matches,
      with the end of that match. */
  function FindFrom(s: string, from: nat): (r: Option<(nat, nat)>)
    requires from <= |s|
    ensures r.None? ==> forall k | from <= k < |s| :: !UrlStartsAt(s, k)
    ensures r.Some? ==> from <= r.value.0 < |s|
                        && TryAt(s, r.value.0) == Some(r.value.1)
                        && forall k | from <= k < r.value.0 :: !UrlStartsAt(s, k)
    decreases |s| - from
  {
    if from == |s| then None
    else match TryAt(s, from)
      case Some(e) => Some((from, e))
      case None => FindFrom(s, from + 1)
  }

  /** The URL the chat route extracts from a message: the first match, or
      None (the route's `null`) when the message holds none. */
  function FirstUrl(s: string): (r: Option<string>)
    ensures r.None? <==> forall i | 0 <= i < |s| :: !UrlStartsAt(s, i)
    ensures r.Some? ==> exists i, j :: IsFirstUrl(s, i, j) && r.value == s[i..j]
  {
    match FindFrom(s, 0)
    case None => None
    case Some((i, e)) =>
      assert IsFirstUrl(s, i, e);
      Some(s[i..e])
  }

  /** The first URL is unique: whatever satisfies the specification is what
      the locator returns (leftmost, and maximal up to whitespace). */
  lemma FirstUrlComplete(s: string, i: int, j: int)
    requires IsFirstUrl(s, i, j)
    ensures FirstUrl(s) == Some(s[i..j])
  {
    var r := FindFrom(s, 0);
    assert r.Some?;
    var (i', e) := r.value;
    assert i' == i;
  }

  /** What a found URL looks like: a substring of the message that begins
      with a scheme prefix, is longer than that prefix, and holds no
      whitespace. */
  lemma FirstUrlShape(s: string, u: string)
    requires FirstUrl(s) == Some(u)
    ensures Contains(s, u)
    ensures (StartsAt(u, 0, Http) && |u| > |Http|) || (StartsAt(u, 0, Https) && |u| > |Https|)
    ensures forall m | 0 <= m < |u| :: !IsWs(u[m])
  {
    var i, j :| IsFirstUrl(s, i, j) && u == s[i..j];
    assert StartsAt(s, i, u);
    forall m | 0 <= m < |u| ensures !IsWs(u[m]) {
      assert u[m] == s[i + m];
    }
    if StartsAt(s, i, Http) && i + |Http| < |s| && !IsWs(s[i + |Http|]) {
      PrefixOfSlice(s, i, j, Http);
    } else {
      PrefixOfSlice(s, i, j, Https);
    }
  }

  /** A prefix found at `i`, followed by a character of the run up to `j`,
      is a proper prefix of `s[i..j]`. */
  lemma PrefixOfSlice(s: string, i: int, j: int, w: string)
    requires 0 <= i <= j <= |s| && StartsAt(s, i, w) && i + |w| < j
    ensures StartsAt(s[i..j], 0, w) && |s[i..j]| > |w|
  {
    assert s[i..j][..|w|] == s[i..i + |w|];
  }

  /** No match begins at a character other than a lower-case `h`. */
  lemma NoUrlAt(s: string, i: int)
    requires 0 <= i < |s| && s[i] != 'h'
    ensures !UrlStartsAt(s, i)
  {
    StartsAtHead(s, i, Http);
    StartsAtHead(s, i, Https);
  }

  /** Matching is case-sensitive: an upper-case scheme is not a URL. */
  lemma UpperCaseSchemeIgnored(s: string)
    requires s == "HTTP://x"
    ensures FirstUrl(s) == None
  {
    forall i | 0 <= i < |s| ensures !UrlStartsAt(s, i) {
      NoUrlAt(s, i);
    }
  }

  /** Trailing punctuation stays in the URL; only whitespace ends it. */
  lemma TrailingPunctuationKept(s: string)
    requires s == "go https://a.b? x"
    ensures FirstUrl(s) == Some("https://a.b?")
  {
    TrailingPunctuationMatch(s);
    FirstUrlComplete(s, 3, 15);
  }

  lemma TrailingPunctuationMatch(s: string)
    requires s == "go https://a.b? x"
    ensures IsFirstUrl(s, 3, 15) && s[3..15] == "https://a.b?"
  {
    assert s[3..11] == Https;
    assert s[11] == 'a';
    assert s[15] == ' ';
    assert s[3..15] == "https://a.b?";
    NoUrlAt(s, 0);
    NoUrlAt(s, 1);
    NoUrlAt(s, 2);
    forall m | 3 <= m < 15 ensures !IsWs(s[m]) {
      assert s[m] in "https:/a.b?";
    }
  }

  /** Only the first URL is used; later ones are ignored. */
  lemma LaterUrlsIgnored(s: string)
    requires s == "http://a https://b"
    ensures FirstUrl(s) == Some("http://a")
  {
    assert s[0..7] == Http && s[7] == 'a' && s[8] == ' ';
    assert s[0..8] == "http://a";
    assert forall m | 0 <= m < 8 :: s[m] in "http://a";
    assert IsFirstUrl(s, 0, 8);
    FirstUrlComplete(s, 0, 8);
  }

  /** A scheme followed by whitespace starts no match. */
  lemma BareSchemeIgnored(s: string)
    requires s == "https:// x"
    ensures FirstUrl(s) == None
  {
    assert s[8] == ' ' && s[4] == 's';
    assert s[0..7] != Http by { assert s[0..7][4] != Http[4]; }
    forall i | 1 <= i < |s| ensures !UrlStartsAt(s, i) {
      NoUrlAt(s, i);
    }
  }
}
