/**
 * JavaScript string notions used by the route and the middleware:
 * the regular-expression class `\s`, the line terminators that `.` does
 * not match, `String.prototype.includes`, and the truthiness of a
 * `string | null` value.
 */
module JsText {
  import opened Wrappers

  /** The characters of the regular-expression class `\s`
      (the ECMAScript WhiteSpace and LineTerminator characters). */
  predicate IsWs(c: char) {
    c == ' ' || ('\t' <= c <= '\r') || c == '\U{00A0}' || c == '\U{1680}'
    || ('\U{2000}' <= c <= '\U{200A}') || c == '\U{2028}' || c == '\U{2029}'
    || c == '\U{202F}' || c == '\U{205F}' || c == '\U{3000}' || c == '\U{FEFF}'
  }

  /** The characters that the regular-expression `.` does not match. */
  predicate IsLineTerminator(c: char) {
    c == '\n' || c == '\r' || c == '\U{2028}' || c == '\U{2029}'
  }

  /** `w` occurs in `s` starting at index `i`. */
  predicate StartsAt(s: string, i: int, w: string) {
    0 <= i && i + |w| <= |s| && s[i..i + |w|] == w
  }

  /** An occurrence of `w` begins with the first character of `w`. */
  lemma StartsAtHead(s: string, i: int, w: string)
    requires |w| > 0
    ensures StartsAt(s, i, w) ==> 0 <= i < |s| && s[i] == w[0]
  {
    if StartsAt(s, i, w) {
      assert s[i..i + |w|][0] == s[i];
    }
  }

  /** `s.includes(w)`: `w` is a contiguous substring of `s`. */
  predicate Contains(s: string, w: string) {
    exists i | 0 <= i <= |s| - |w| :: StartsAt(s, i, w)
  }

  /** A JavaScript `string | null` is truthy when it is present and not empty. */
  predicate Truthy(v: Option<string>) {
    v.Some? && v.value != ""
  }

  /** Substring containment is transitive. */
  lemma ContainsTrans(s: string, m: string, w: string)
    requires Contains(s, m) && Contains(m, w)
    ensures Contains(s, w)
  {
    var i :| 0 <= i <= |s| - |m| && StartsAt(s, i, m);
    var j :| 0 <= j <= |m| - |w| && StartsAt(m, j, w);
    assert m == s[i..i + |m|];
    forall k | 0 <= k < |w|
      ensures s[i + j + k] == w[k]
    {
      assert w[k] == m[j + k] == s[i + j + k];
    }
    assert s[i + j..i + j + |w|] == w;
    assert StartsAt(s, i + j, w);
  }

  lemma ContainsSelf(s: string)
    ensures Contains(s, s)
  {
    assert StartsAt(s, 0, s);
  }

  /** Text around an occurrence keeps it: `p + m + q` contains what `m` contains. */
  lemma ContainsInContext(p: string, m: string, q: string, w: string)
    requires Contains(m, w)
    ensures Contains(p + m + q, w)
  {
    var s := p + m + q;
    assert s[|p|..|p| + |m|] == m;
    assert StartsAt(s, |p|, m);
    ContainsTrans(s, m, w);
  }
}
