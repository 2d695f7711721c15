/**
 * The middleware's path matcher `/((?!_next/static|_next/image|favicon.ico).*)`,
 * read as a JavaScript regular expression anchored at both ends of the
 * request path: a `/`, then a negative lookahead over three alternatives,
 * then `.*`. In the alternatives `/` is literal and `.` is the one
 * metacharacter, so `favicon.ico` also excludes `favicon-ico`. The pattern
 * has no `u` flag, so `.` consumes one UTF-16 code unit: a character outside
 * the Basic Multilingual Plane is two code units, and `.` followed by a
 * literal cannot step over it.
 */
module PathMatcher {
  import opened JsText

  /** One position of a lookahead alternative: a literal character or `.`. */
  datatype Atom = Lit(c: char) | AnyChar

  /** The character is one UTF-16 code unit (it lies in the Basic
      Multilingual Plane). */
  predicate OneCodeUnit(c: char) {
    c < '\U{10000}'
  }

  /** Reads an alternative of the pattern: `.` is any single code unit but a
      line terminator, everything else stands for itself. */
  function Compile(src: string): (r: seq<Atom>) {
    if src == [] then []
    else [if src[0] == '.' then AnyChar else Lit(src[0])] + Compile(src[1..])
  }

  predicate AtomMatches(a: Atom, c: char) {
    match a
    case Lit(x) => c == x
    case AnyChar => !IsLineTerminator(c) && OneCodeUnit(c)
  }

  /** The alternative `p` matches at the start of `s`. */
  predicate PrefixMatches(p: seq<Atom>, s: string) {
    if p == [] then true
    else s != [] && AtomMatches(p[0], s[0]) && PrefixMatches(p[1..], s[1..])
  }

  const Excluded: seq<string> := ["_next/static", "_next/image", "favicon.ico"]

  /** `(?!_next/static|_next/image|favicon.ico)` fails at the start of `rest`. */
  predicate LookaheadHit(rest: string) {
    PrefixMatches(Compile(Excluded[0]), rest)
    || PrefixMatches(Compile(Excluded[1]), rest)
    || PrefixMatches(Compile(Excluded[2]), rest)
  }

  /** `.*` followed by the end anchor: no line terminator in `rest`. */
  predicate DotStar(rest: string) {
    forall i | 0 <= i < |rest| :: !IsLineTerminator(rest[i])
  }

  /** The middleware runs on `path`: a `/`, then neither `_next/static`,
      `_next/image` nor `favicon`, any character, `ico`, and no line
      terminator anywhere after the `/`. */
  predicate MatcherAccepts(path: string)
    ensures MatcherAccepts(path) <==>
      |path| >= 1 && path[0] == '/'
      && !StartsAt(path[1..], 0, "_next/static")
      && !StartsAt(path[1..], 0, "_next/image")
      && !FaviconLike(path[1..])
      && DotStar(path[1..])
  {
    if |path| == 0 then false
    else
      LookaheadHitIff(path[1..]);
      path[0] == '/' && !LookaheadHit(path[1..]) && DotStar(path[1..])
  }

  /** Specification of an alternative: it matches at the start of `s`
      exactly when `s` is at least as long and agrees with it position by
      position, `.` agreeing with any single code unit but a line
      terminator. */
  predicate AgreesWith(src: string, s: string) {
    |src| <= |s| &&
    forall i | 0 <= i < |src| ::
      if src[i] == '.' then !IsLineTerminator(s[i]) && OneCodeUnit(s[i]) else s[i] == src[i]
  }

  lemma {:induction false} CompiledPrefix(src: string, s: string)
    ensures PrefixMatches(Compile(src), s) <==> AgreesWith(src, s)
  {
    if src != [] && s != [] {
      assert Compile(src)[1..] == Compile(src[1..]);
      CompiledPrefix(src[1..], s[1..]);
      assert forall i | 1 <= i < |src| :: src[1..][i - 1] == src[i];
      assert forall i | 1 <= i < |s| :: s[1..][i - 1] == s[i];
    }
  }

  /** An alternative without `.` is a plain literal prefix. */
  lemma LiteralAlternative(src: string, s: string)
    requires forall i | 0 <= i < |src| :: src[i] != '.'
    ensures PrefixMatches(Compile(src), s) <==> StartsAt(s, 0, src)
  {
    CompiledPrefix(src, s);
    if AgreesWith(src, s) {
      assert s[..|src|] == src;
    }
  }

  /** `favicon.ico` matches `favicon`, any character but a line terminator,
      then `ico`. */
  lemma FaviconAlternative(s: string)
    ensures PrefixMatches(Compile("favicon.ico"), s) <==> FaviconLike(s)
  {
    CompiledPrefix("favicon.ico", s);
    if AgreesWith("favicon.ico", s) {
      FaviconAgreement(s);
    }
    if FaviconLike(s) {
      FaviconLikeAgrees(s);
    }
  }

  /** `favicon`, one code unit that is not a line terminator, `ico`. */
  predicate FaviconLike(s: string) {
    |s| >= 11 && s[..7] == "favicon" && !IsLineTerminator(s[7]) && OneCodeUnit(s[7])
    && s[8..11] == "ico"
  }

  lemma FaviconAgreement(s: string)
    requires AgreesWith("favicon.ico", s)
    ensures FaviconLike(s)
  {
    var src := "favicon.ico";
    assert src[7] == '.';
    assert s[..7] == src[..7];
    assert s[8..11] == src[8..11];
  }

  lemma FaviconLikeAgrees(s: string)
    requires FaviconLike(s)
    ensures AgreesWith("favicon.ico", s)
  {
    var src := "favicon.ico";
    forall i | 0 <= i < |src|
      ensures if src[i] == '.' then !IsLineTerminator(s[i]) && OneCodeUnit(s[i]) else s[i] == src[i]
    {
      if i < 7 { assert s[i] == s[..7][i]; }
      else if i > 7 { assert s[i] == s[8..11][i - 8]; }
    }
  }

  /** The lookahead fails exactly on the three excluded beginnings. */
  lemma LookaheadHitIff(rest: string)
    ensures LookaheadHit(rest) <==>
      StartsAt(rest, 0, "_next/static") || StartsAt(rest, 0, "_next/image") || FaviconLike(rest)
  {
    LiteralAlternative(Excluded[0], rest);
    LiteralAlternative(Excluded[1], rest);
    FaviconAlternative(rest);
    assert Excluded[2] == "favicon.ico";
  }

  /** For a path without line terminators: the middleware runs exactly when
      the path begins with `/` and what follows begins neither with
      `_next/static` nor with `_next/image` nor with `favicon`, any
      character, `ico`. */
  lemma MatcherCharacterization(path: string)
    requires forall i | 0 <= i < |path| :: !IsLineTerminator(path[i])
    ensures MatcherAccepts(path) <==>
      |path| >= 1 && path[0] == '/'
      && !StartsAt(path[1..], 0, "_next/static")
      && !StartsAt(path[1..], 0, "_next/image")
      && !FaviconLike(path[1..])
  {
    if |path| >= 1 && path[0] == '/' {
      var rest := path[1..];
      assert DotStar(rest) by {
        forall i | 0 <= i < |rest| ensures !IsLineTerminator(rest[i]) {
          assert rest[i] == path[i + 1];
        }
      }
      LookaheadHitIff(rest);
    }
  }

  /** The unescaped `.` excludes `/favicon-ico` as well as `/favicon.ico`. */
  lemma FaviconDotIsWildcard(path: string, c: char)
    requires path == "/favicon" + [c] + "ico" && !IsLineTerminator(c) && OneCodeUnit(c)
    ensures !MatcherAccepts(path)
  {
    var rest := path[1..];
    assert rest == "favicon" + [c] + "ico";
    assert rest[..7] == "favicon";
    assert rest[7] == c;
    assert rest[8..11] == "ico";
    assert FaviconLike(rest);
    LookaheadHitIff(rest);
  }

  /** A character outside the Basic Multilingual Plane between `/favicon`
      and `ico` is two code units: `.` takes the first, `i` fails on the
      second, the lookahead does not fire, and the path is matched. */
  lemma FaviconAstralMatched(path: string, c: char)
    requires path == "/favicon" + [c] + "ico" && !OneCodeUnit(c)
    ensures MatcherAccepts(path)
  {
    var rest := path[1..];
    assert rest == "favicon" + [c] + "ico";
    assert rest[7] == c;
    assert DotStar(rest) by {
      forall i | 0 <= i < |rest| ensures !IsLineTerminator(rest[i]) {
        if i < 7 { assert rest[i] == "favicon"[i]; }
        else if i > 7 { assert rest[i] == "ico"[i - 8]; }
      }
    }
    StartsAtHead(rest, 0, "_next/static");
    StartsAtHead(rest, 0, "_next/image");
  }

  /** Build assets are excluded. */
  lemma StaticAssetExcluded(path: string, tail: string)
    requires path == "/_next/static" + tail
    ensures !MatcherAccepts(path)
  {
    var rest := path[1..];
    assert rest[..12] == "_next/static";
    LookaheadHitIff(rest);
  }

  /** A path whose first segment starts with neither `_` nor `f` (an API
      route, a page) is matched whenever it holds no line terminator. */
  lemma OrdinaryPathMatched(path: string)
    requires |path| >= 2 && path[0] == '/' && path[1] != '_' && path[1] != 'f'
    requires forall i | 0 <= i < |path| :: !IsLineTerminator(path[i])
    ensures MatcherAccepts(path)
  {
    MatcherCharacterization(path);
    NotExcludedAt(path[1..], 0);
  }

  /** Data routes are matched: under `_next` only `static` and `image` are
      excluded. */
  lemma DataRouteMatched(path: string, tail: string)
    requires path == "/_next/data/" + tail
    requires forall i | 0 <= i < |tail| :: !IsLineTerminator(tail[i])
    ensures MatcherAccepts(path)
  {
    DataRouteShape(path, tail);
    MatcherCharacterization(path);
    NotExcludedAt(path[1..], 6);
  }

  /** A character that differs from all three excluded beginnings at
      position `k` rules them out. */
  lemma NotExcludedAt(rest: string, k: nat)
    requires k < |rest| && k < 7
    requires rest[k] != "_next/static"[k] && rest[k] != "_next/image"[k] && rest[k] != "favicon"[k]
    ensures !StartsAt(rest, 0, "_next/static") && !StartsAt(rest, 0, "_next/image") && !FaviconLike(rest)
  {
  }

  lemma DataRouteShape(path: string, tail: string)
    requires path == "/_next/data/" + tail
    requires forall i | 0 <= i < |tail| :: !IsLineTerminator(tail[i])
    ensures |path| >= 12 && path[0] == '/' && path[1..][6] == 'd'
    ensures forall i | 0 <= i < |path| :: !IsLineTerminator(path[i])
  {
    forall i | 0 <= i < |path| ensures !IsLineTerminator(path[i]) {
      if i >= 12 { assert path[i] == tail[i - 12]; }
    }
  }
}
