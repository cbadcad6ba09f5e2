/** The URL strings of the configuration: which strings count as valid
    absolute URIs, the trailing-slash normalisation of a base URL, and the
    resolution of a relative-path reference against a base as java.net.URI
    performs it (merge and dot-segment removal by the rules of RFC 2396). */
module Uris {

  // ---------------------------------------------------------------------
  // Scanning

  /** The first index at or after `from` holding a character of `stops`,
      or |s| when there is none. */
  function FindFrom(s: string, from: nat, stops: set<char>): (k: nat)
    requires from <= |s|
    ensures from <= k <= |s|
    ensures k < |s| ==> s[k] in stops
    ensures forall j :: from <= j < k ==> s[j] !in stops
    decreases |s| - from
  {
    if from == |s| || s[from] in stops then from else FindFrom(s, from + 1, stops)
  }

  /** The last index in [lo, hi) holding '/', given that s[lo] is one. */
  function LastSlash(s: string, lo: nat, hi: nat): (k: nat)
    requires lo < hi <= |s| && s[lo] == '/'
    ensures lo <= k < hi && s[k] == '/'
    ensures forall j :: k < j < hi ==> s[j] != '/'
    decreases hi
  {
    if s[hi - 1] == '/' then hi - 1 else LastSlash(s, lo, hi - 1)
  }

  // ---------------------------------------------------------------------
  // Syntax

  predicate IsAlpha(ch: char) {
    'a' <= ch <= 'z' || 'A' <= ch <= 'Z'
  }

  predicate IsSchemeChar(ch: char) {
    IsAlpha(ch) || '0' <= ch <= '9' || ch == '+' || ch == '-' || ch == '.'
  }

  /** scheme = ALPHA *( ALPHA / DIGIT / "+" / "-" / "." ) (section 3.1 of RFC 3986). */
  predicate IsScheme(t: string) {
    |t| > 0 && IsAlpha(t[0]) && forall i :: 0 < i < |t| ==> IsSchemeChar(t[i])
  }

  /** Characters java.net.URI never accepts unescaped: ASCII controls,
      space, DEL and " < > \ ^ ` { | }, and, above the ASCII range, the ISO
      control characters and the Unicode space characters (categories Zs, Zl
      and Zp). */
  predicate IsUriChar(ch: char) {
    ' ' < ch && ch != '\U{7f}'
    && ch != '"' && ch != '<' && ch != '>' && ch != '\\'
    && ch != '^' && ch != '`' && ch != '{' && ch != '|' && ch != '}'
    && !('\U{80}' <= ch <= '\U{a0}')
    && ch != '\U{1680}' && !('\U{2000}' <= ch <= '\U{200a}')
    && ch != '\U{2028}' && ch != '\U{2029}' && ch != '\U{202f}' && ch != '\U{205f}'
    && ch != '\U{3000}'
  }

  /** True iff every character of `s` may appear in a URI. */
  predicate AllUriChars(s: string) {
    forall i :: 0 <= i < |s| ==> IsUriChar(s[i])
  }

  /** URI characters joined give URI characters. */
  lemma AllUriCharsJoin(a: string, b: string)
    requires AllUriChars(a) && AllUriChars(b)
    ensures AllUriChars(a + b)
  {
    forall i | 0 <= i < |a + b| ensures IsUriChar((a + b)[i]) {
      if i < |a| {
        assert (a + b)[i] == a[i];
      } else {
        assert (a + b)[i] == b[i - |a|];
      }
    }
  }

  /** True iff `s` holds no '[' and no ']' in [lo, hi): java.net.URI takes
      brackets only around an IPv6 host and in the query and fragment, never
      in the path. */
  predicate NoBracketsIn(s: string, lo: nat, hi: nat)
    requires lo <= hi <= |s|
  {
    forall j :: lo <= j < hi ==> s[j] != '[' && s[j] != ']'
  }

  /** Index of the ':' that ends the scheme (|s| when there is none). */
  function SchemeEnd(s: string): (k: nat)
    ensures k <= |s|
    ensures k < |s| ==> s[k] == ':'
    ensures forall j :: 0 <= j < k ==> s[j] != ':'
  {
    FindFrom(s, 0, {':'})
  }

  /** True iff `s` has the form scheme "://" authority, where the authority is
      non-empty, followed by an optional path, query and fragment, uses only
      characters a URI may hold, and has no bracket in its path. */
  predicate ValidAbsoluteURI(s: string) {
    var se := SchemeEnd(s);
    && AllUriChars(s)
    && IsScheme(s[..se])
    && se + 3 <= |s| && s[se..se + 3] == "://"
    && var ps := FindFrom(s, se + 3, {'/', '?', '#'});
       && ps > se + 3
       && NoBracketsIn(s, ps, FindFrom(s, ps, {'?', '#'}))
  }

  /** Index where the path of a valid absolute URI starts (just after the authority). */
  function PathStart(s: string): (k: nat)
    requires ValidAbsoluteURI(s)
    ensures SchemeEnd(s) + 3 < k <= |s|
    ensures k < |s| ==> s[k] == '/' || s[k] == '?' || s[k] == '#'
    ensures forall j :: SchemeEnd(s) + 3 <= j < k ==> s[j] != '/'
  {
    FindFrom(s, SchemeEnd(s) + 3, {'/', '?', '#'})
  }

  /** Index where the path ends (the start of the query or fragment, or |s|). */
  function PathEnd(s: string): (k: nat)
    requires ValidAbsoluteURI(s)
    ensures PathStart(s) <= k <= |s|
    ensures forall j :: PathStart(s) <= j < k ==> s[j] != '?' && s[j] != '#'
  {
    FindFrom(s, PathStart(s), {'?', '#'})
  }

  /** True iff `s` carries no query and no fragment. */
  predicate PathOnly(s: string) {
    forall i :: 0 <= i < |s| ==> s[i] != '?' && s[i] != '#'
  }

  predicate EndsWithSlash(s: string) {
    |s| > 0 && s[|s| - 1] == '/'
  }

  /** True iff `r` holds none of '?', '#' and ':'. */
  predicate NoDelimiters(r: string) {
    forall i :: 0 <= i < |r| ==> r[i] != '?' && r[i] != '#' && r[i] != ':'
  }

  /** A relative-path reference (section 4.2 of RFC 3986) with no query,
      fragment or colon: the shape of every reference the configuration
      resolves. */
  predicate IsRelativePath(r: string) {
    |r| > 0 && r[0] != '/' && NoDelimiters(r)
  }

  // ---------------------------------------------------------------------
  // Path segments

  /** A path segment, and whether a '/' followed it in the path it came from. */
  datatype Segment = Segment(text: string, slash: bool)

  /** The segments of a path, left to right, with every run of '/' between
      them dropped (the private `split` of java.net.URI, which skips
      redundant slashes). */
  function Segments(s: string): (r: seq<Segment>)
    ensures forall i :: 0 <= i < |r| ==> |r[i].text| > 0
    decreases |s|
  {
    if s == [] then []
    else if s[0] == '/' then Segments(s[1..])
    else
      var k := FindFrom(s, 0, {'/'});
      [Segment(s[..k], k < |s|)] + Segments(s[k..])
  }

  /** A segment as written back: its text, then '/' when one followed it. */
  function SegmentString(g: Segment): string {
    if g.slash then g.text + "/" else g.text
  }

  /** No segment holds a '/': every '/' of the path is a separator. */
  lemma {:induction false} SegmentsHaveNoSlash(s: string)
    ensures forall i, j :: 0 <= i < |Segments(s)| && 0 <= j < |Segments(s)[i].text| ==> Segments(s)[i].text[j] != '/'
    decreases |s|
  {
    if s != [] {
      if s[0] == '/' {
        SegmentsHaveNoSlash(s[1..]);
      } else {
        var k := FindFrom(s, 0, {'/'});
        SegmentsHaveNoSlash(s[k..]);
        var r, g := Segments(s), Segment(s[..k], k < |s|);
        assert r == [g] + Segments(s[k..]);
        assert forall j :: 0 <= j < k ==> s[..k][j] == s[j] && s[j] !in {'/'};
      }
    }
  }

  /** The segments written back one after the other. */
  function Unsplit(segs: seq<Segment>): string {
    if segs == [] then [] else SegmentString(segs[0]) + Unsplit(segs[1..])
  }

  /** One step of the private `removeDots` of java.net.URI: "." is dropped;
      ".." removes the nearest segment kept so far, unless there is none or
      that one is itself "..", in which case the ".." is kept; any other
      segment is kept. */
  function Push(kept: seq<Segment>, g: Segment): seq<Segment> {
    if g.text == "." then kept
    else if g.text == ".." && |kept| > 0 && kept[|kept| - 1].text != ".." then kept[..|kept| - 1]
    else kept + [g]
  }

  /** True iff no segment is "." and every ".." comes before all other segments. */
  predicate Reduced(segs: seq<Segment>) {
    forall i :: 0 <= i < |segs| ==>
      segs[i].text != "." && (segs[i].text == ".." ==> forall j :: 0 <= j < i ==> segs[j].text == "..")
  }

  /** The segments that remain once dot segments are removed left to right. */
  function RemoveDots(segs: seq<Segment>): (r: seq<Segment>)
    ensures Reduced(r)
    ensures |r| <= |segs|
  {
    if segs == [] then [] else Push(RemoveDots(segs[..|segs| - 1]), segs[|segs| - 1])
  }

  /** The `normalize` of java.net.URI on an absolute path: the path split into
      segments, dot segments removed, the rest written back after one '/'. */
  function NormalizePath(p: string): (r: string)
    requires |p| > 0 && p[0] == '/'
    ensures |r| > 0 && r[0] == '/'
    ensures |r| <= |p|
  {
    NormalizedLength(p);
    "/" + Unsplit(RemoveDots(Segments(p)))
  }

  /** True iff no two '/' are adjacent in `s`. */
  predicate NoDoubleSlash(s: string) {
    forall i :: 0 <= i < |s| - 1 ==> s[i] != '/' || s[i + 1] != '/'
  }

  /** True iff `s` holds no '.'. */
  predicate NoDotChar(s: string) {
    forall i :: 0 <= i < |s| ==> s[i] != '.'
  }

  /** True iff no segment is "." or "..". */
  predicate NoDotSegment(segs: seq<Segment>) {
    forall i :: 0 <= i < |segs| ==> segs[i].text != "." && segs[i].text != ".."
  }

  /** An absolute path with no redundant '/' and no dot segment: the paths
      normalisation leaves as they are. */
  predicate NormalPath(p: string) {
    |p| > 0 && p[0] == '/' && NoDoubleSlash(p) && NoDotSegment(Segments(p))
  }

  /** A relative-path reference with no redundant '/' and no dot segment. */
  predicate NormalRef(r: string) {
    IsRelativePath(r) && NoDoubleSlash(r) && NoDotSegment(Segments(r))
  }

  // ---------------------------------------------------------------------
  // Normalisation and resolution

  /** A base URL as stored: `s` itself when it already ends in '/', otherwise
      `s` with one '/' appended. */
  function NormalizeBase(s: string): (r: string)
    ensures EndsWithSlash(r)
    ensures |s| <= |r| <= |s| + 1 && r[..|s|] == s
  {
    if EndsWithSlash(s) then s else s + "/"
  }

  /** The directory a relative reference is merged into, as the private
      `resolvePath` of java.net.URI in JDK 21 builds it: the base path up to
      and including its right-most '/', or "/" when the base has an empty
      path. */
  function BaseDirectory(base: string): (d: string)
    requires ValidAbsoluteURI(base)
    ensures |d| > 0 && d[0] == '/' && EndsWithSlash(d)
    ensures PathEnd(base) == PathStart(base) ==> d == "/"
    ensures PathEnd(base) > PathStart(base) ==>
      && PathStart(base) + |d| <= PathEnd(base)
      && d == base[PathStart(base)..PathStart(base) + |d|]
      && forall j :: PathStart(base) + |d| <= j < PathEnd(base) ==> base[j] != '/'
  {
    var ps := PathStart(base);
    var pe := PathEnd(base);
    if pe == ps then "/" else base[ps..LastSlash(base, ps, pe) + 1]
  }

  /** True iff the path of a valid absolute URI is empty or normal. */
  predicate NormalBasePath(base: string)
    requires ValidAbsoluteURI(base)
  {
    PathEnd(base) == PathStart(base) || NormalPath(base[PathStart(base)..PathEnd(base)])
  }

  /** `URI.resolve` of the relative-path reference `ref` against `base`, as
      JDK 21 does it: the scheme and authority of the base, then the base
      directory merged with `ref` and normalised. java.net.URI removes dot
      segments by the rules of RFC 2396, not by section 5.2.4 of RFC 3986: a
      ".." with no ordinary segment before it is kept. The base's query and
      fragment are dropped. */
  function Resolve(base: string, ref: string): (r: string)
    requires ValidAbsoluteURI(base) && IsRelativePath(ref)
    ensures |r| > PathStart(base) && r[..PathStart(base)] == base[..PathStart(base)]
    ensures r[PathStart(base)] == '/'
  {
    base[..PathStart(base)] + NormalizePath(BaseDirectory(base) + ref)
  }

  // ---------------------------------------------------------------------
  // Properties

  /** FindFrom returns the index of the first stop character, and no other. */
  lemma {:induction false} FindFromIs(s: string, from: nat, stops: set<char>, k: nat)
    requires from <= k <= |s|
    requires k < |s| ==> s[k] in stops
    requires forall j :: from <= j < k ==> s[j] !in stops
    ensures FindFrom(s, from, stops) == k
    decreases k - from
  {
    if from < k {
      FindFromIs(s, from + 1, stops, k);
    }
  }

  /** A scheme, "://", a non-empty authority and a rest, all of URI
      characters, make a valid absolute URI; it is path-only when the parts
      are. */
  lemma ValidFromParts(s: string, scheme: string, authority: string, rest: string)
    requires s == scheme + "://" + authority + rest
    requires IsScheme(scheme) && |authority| > 0
    requires authority[0] != '/' && authority[0] != '?' && authority[0] != '#'
    requires AllUriChars(scheme) && AllUriChars(authority) && AllUriChars(rest)
    requires NoBracketsIn(authority, 0, |authority|) && NoBracketsIn(rest, 0, |rest|)
    ensures ValidAbsoluteURI(s)
    ensures PathOnly(scheme) && PathOnly(authority) && PathOnly(rest) ==> PathOnly(s)
  {
    assert AllUriChars("://");
    AllUriCharsJoin(scheme, "://");
    AllUriCharsJoin(scheme + "://", authority);
    AllUriCharsJoin(scheme + "://" + authority, rest);
    SchemeOfParts(s, scheme, authority, rest);
    PartsNoBrackets(s, scheme, authority, rest);
    assert PathOnly(scheme) && PathOnly(authority) && PathOnly(rest) ==> PathOnly(s) by {
      if PathOnly(scheme) && PathOnly(authority) && PathOnly(rest) {
        PathOnlyOfParts(s, scheme, authority, rest);
      }
    }
  }

  /** The scheme of a URI built from parts ends where the given scheme does,
      and the authority follows "://". */
  lemma SchemeOfParts(s: string, scheme: string, authority: string, rest: string)
    requires s == scheme + "://" + authority + rest && IsScheme(scheme) && |authority| > 0
    ensures SchemeEnd(s) == |scheme| && s[..|scheme|] == scheme
    ensures s[|scheme|..|scheme| + 3] == "://" && s[|scheme| + 3] == authority[0]
  {
    var se := |scheme|;
    assert forall j :: 0 <= j < se ==> s[j] == scheme[j];
    FindFromIs(s, 0, {':'}, se);
  }

  /** Parts with no query or fragment make a URI with none. */
  lemma PathOnlyOfParts(s: string, scheme: string, authority: string, rest: string)
    requires s == scheme + "://" + authority + rest
    requires PathOnly(scheme) && PathOnly(authority) && PathOnly(rest)
    ensures PathOnly(s)
  {
    var a := |scheme| + 3;
    forall j | 0 <= j < |s| ensures s[j] != '?' && s[j] != '#' {
      if j < |scheme| {
        assert s[j] == scheme[j];
      } else if a <= j < a + |authority| {
        assert s[j] == authority[j - a];
      } else if a + |authority| <= j {
        assert s[j] == rest[j - a - |authority|];
      }
    }
  }

  /** Nothing after the "://" of a URI built from bracket-free parts is a bracket. */
  lemma PartsNoBrackets(s: string, scheme: string, authority: string, rest: string)
    requires s == scheme + "://" + authority + rest
    requires NoBracketsIn(authority, 0, |authority|) && NoBracketsIn(rest, 0, |rest|)
    ensures forall lo, hi :: |scheme| + 3 <= lo <= hi <= |s| ==> NoBracketsIn(s, lo, hi)
  {
    var a := |scheme| + 3;
    forall j | a <= j < |s| ensures s[j] != '[' && s[j] != ']' {
      if j < a + |authority| {
        assert s[j] == authority[j - a];
      } else {
        assert s[j] == rest[j - a - |authority|];
      }
    }
  }

  /** The path of a URI built from parts whose authority holds no '/', '?'
      or '#' and whose path-only rest starts with '/' is that rest. */
  lemma PathOfParts(s: string, scheme: string, authority: string, rest: string)
    requires s == scheme + "://" + authority + rest && ValidAbsoluteURI(s)
    requires IsScheme(scheme) && |rest| > 0 && rest[0] == '/' && PathOnly(rest)
    requires forall j :: 0 <= j < |authority| ==> authority[j] != '/' && authority[j] != '?' && authority[j] != '#'
    ensures s[PathStart(s)..PathEnd(s)] == rest
  {
    var ps := |scheme| + 3 + |authority|;
    PathStartOfParts(s, scheme, authority, rest);
    assert forall j :: ps <= j < |s| ==> s[j] == rest[j - ps];
    FindFromIs(s, ps, {'?', '#'}, |s|);
    assert s[ps..] == rest;
  }

  /** The path of a URI built from parts starts right after the authority. */
  lemma PathStartOfParts(s: string, scheme: string, authority: string, rest: string)
    requires s == scheme + "://" + authority + rest && ValidAbsoluteURI(s)
    requires IsScheme(scheme) && |rest| > 0 && rest[0] == '/'
    requires forall j :: 0 <= j < |authority| ==> authority[j] != '/' && authority[j] != '?' && authority[j] != '#'
    ensures PathStart(s) == |scheme| + 3 + |authority|
  {
    var se := |scheme|;
    var ps := se + 3 + |authority|;
    assert forall j :: 0 <= j < se ==> s[j] == scheme[j];
    FindFromIs(s, 0, {':'}, se);
    assert forall j :: se + 3 <= j < ps ==> s[j] == authority[j - se - 3];
    assert s[ps] == rest[0];
    FindFromIs(s, se + 3, {'/', '?', '#'}, ps);
  }

  /** Joining strings free of delimiters keeps a relative path relative. */
  lemma RelativePathJoin(a: string, b: string)
    requires IsRelativePath(a) && NoDelimiters(b)
    ensures IsRelativePath(a + b)
  {
    assert forall i :: |a| <= i < |a + b| ==> (a + b)[i] == b[i - |a|];
  }

  /** Normalising twice is normalising once. */
  lemma NormalizeIdempotent(s: string)
    ensures NormalizeBase(NormalizeBase(s)) == NormalizeBase(s)
  {
  }

  /** The normalised string is the shortest extension of `s` that ends in '/'. */
  lemma NormalizeShortest(s: string, t: string)
    requires |s| <= |t| && t[..|s|] == s && EndsWithSlash(t)
    ensures |NormalizeBase(s)| <= |t|
  {
    if !EndsWithSlash(s) {
      assert t != s;
    }
  }

  /** Appending '/' to a valid absolute URI leaves it valid, so every valid
      URL passes the URL setters' check. */
  lemma NormalizeKeepsValid(s: string)
    requires ValidAbsoluteURI(s)
    ensures ValidAbsoluteURI(NormalizeBase(s))
  {
    if !EndsWithSlash(s) {
      var t := s + "/";
      var se, ps, pe := SchemeEnd(s), PathStart(s), PathEnd(s);
      assert AllUriChars("/");
      AllUriCharsJoin(s, "/");
      FindFromSnoc(s, '/', 0, {':'});
      FindFromSnoc(s, '/', se + 3, {'/', '?', '#'});
      assert t[..se] == s[..se] && t[se..se + 3] == s[se..se + 3];
      SlashKeepsPathBracketFree(s);
    }
  }

  /** After appending '/', the path of a valid URI still starts where it did
      and still holds no bracket. */
  lemma SlashKeepsPathBracketFree(s: string)
    requires ValidAbsoluteURI(s)
    ensures NoBracketsIn(s + "/", PathStart(s), FindFrom(s + "/", PathStart(s), {'?', '#'}))
  {
    var t, ps, pe := s + "/", PathStart(s), PathEnd(s);
    FindFromSnoc(s, '/', ps, {'?', '#'});
    forall j | ps <= j < FindFrom(t, ps, {'?', '#'}) ensures t[j] != '[' && t[j] != ']' {
      if j < |s| {
        assert t[j] == s[j] && j < pe;
      }
    }
  }

  /** Searching `s` with one more character `c` at its end finds what the
      search of `s` found, or else the position of `c` when it is a stop. */
  lemma FindFromSnoc(s: string, c: char, from: nat, stops: set<char>)
    requires from <= |s|
    ensures FindFrom(s, from, stops) < |s| ==> FindFrom(s + [c], from, stops) == FindFrom(s, from, stops)
    ensures FindFrom(s, from, stops) == |s| ==> FindFrom(s + [c], from, stops) == if c in stops then |s| else |s| + 1
  {
    var t, k := s + [c], FindFrom(s, from, stops);
    assert forall j :: 0 <= j < |s| ==> t[j] == s[j];
    if k < |s| {
      FindFromIs(t, from, stops, k);
    } else if c in stops {
      FindFromIs(t, from, stops, |s|);
    } else {
      FindFromIs(t, from, stops, |s| + 1);
    }
  }

  /** The segments of a path that ends in '/' followed by more text are the
      segments of each part. */
  lemma {:induction false} SegmentsAppend(a: string, b: string)
    requires a == [] || a[|a| - 1] == '/'
    ensures Segments(a + b) == Segments(a) + Segments(b)
    decreases |a|
  {
    if a == [] {
      assert a + b == b;
    } else if a[0] == '/' {
      assert (a + b)[1..] == a[1..] + b;
      SegmentsAppend(a[1..], b);
    } else {
      var k := FindFrom(a, 0, {'/'});
      assert a[|a| - 1] in {'/'};
      FindFromIs(a + b, 0, {'/'}, k);
      assert (a + b)[..k] == a[..k];
      assert (a + b)[k..] == a[k..] + b;
      SegmentsAppend(a[k..], b);
    }
  }

  lemma {:induction false} UnsplitAppend(x: seq<Segment>, y: seq<Segment>)
    ensures Unsplit(x + y) == Unsplit(x) + Unsplit(y)
    decreases |x|
  {
    if x == [] {
      assert x + y == y;
    } else {
      assert (x + y)[0] == x[0];
      assert (x + y)[1..] == x[1..] + y;
      UnsplitAppend(x[1..], y);
    }
  }

  /** Writing back the segments of a string without redundant slashes gives
      the string itself, when it does not start with '/'. */
  lemma {:induction false} UnsplitSegments(s: string)
    requires NoDoubleSlash(s) && (s == [] || s[0] != '/')
    ensures Unsplit(Segments(s)) == s
    decreases |s|
  {
    if s != [] {
      var k := FindFrom(s, 0, {'/'});
      var g := Segment(s[..k], k < |s|);
      assert Segments(s) == [g] + Segments(s[k..]);
      assert ([g] + Segments(s[k..]))[1..] == Segments(s[k..]);
      if k == |s| {
        assert s[k..] == [];
        assert s[..k] == s;
      } else {
        var rest := s[k + 1..];
        assert s[k..][1..] == rest;
        assert Segments(s[k..]) == Segments(rest);
        assert s[k] == '/';
        forall j | 0 <= j < |rest| - 1 ensures rest[j] != '/' || rest[j + 1] != '/' {
          assert rest[j] == s[k + 1 + j] && rest[j + 1] == s[k + 2 + j];
        }
        assert rest != [] ==> rest[0] == s[k + 1];
        UnsplitSegments(rest);
        assert s == s[..k] + "/" + rest;
      }
    }
  }

  /** Appending segments that are not dot segments appends them to the
      result of removing dots. */
  lemma {:induction false} RemoveDotsAppend(x: seq<Segment>, y: seq<Segment>)
    requires NoDotSegment(y)
    ensures RemoveDots(x + y) == RemoveDots(x) + y
    decreases |y|
  {
    if y == [] {
      assert x + y == x;
    } else {
      var init := y[..|y| - 1];
      assert (x + y)[..|x + y| - 1] == x + init;
      assert (x + y)[|x + y| - 1] == y[|y| - 1];
      RemoveDotsAppend(x, init);
      assert init + [y[|y| - 1]] == y;
    }
  }

  /** Writing the segments of `s` back takes at most |s| characters. */
  lemma {:induction false} UnsplitSegmentsLength(s: string)
    ensures |Unsplit(Segments(s))| <= |s|
    decreases |s|
  {
    if s != [] {
      if s[0] == '/' {
        UnsplitSegmentsLength(s[1..]);
      } else {
        var k := FindFrom(s, 0, {'/'});
        var g := Segment(s[..k], k < |s|);
        assert Segments(s) == [g] + Segments(s[k..]);
        assert ([g] + Segments(s[k..]))[1..] == Segments(s[k..]);
        UnsplitSegmentsLength(s[k..]);
        if k < |s| {
          assert s[k..][0] == '/';
          assert Segments(s[k..]) == Segments(s[k..][1..]);
          UnsplitSegmentsLength(s[k..][1..]);
        }
      }
    }
  }

  /** Removing dot segments never lengthens what is written back. */
  lemma {:induction false} RemoveDotsLength(segs: seq<Segment>)
    ensures |Unsplit(RemoveDots(segs))| <= |Unsplit(segs)|
    decreases |segs|
  {
    if segs != [] {
      var init, last := segs[..|segs| - 1], segs[|segs| - 1];
      var kept := RemoveDots(init);
      RemoveDotsLength(init);
      assert init + [last] == segs;
      RemoveDotsSnoc(init, last);
      UnsplitAppend(init, [last]);
      UnsplitSingle(last);
      PushLength(kept, last);
    }
  }

  /** One `Push` step adds at most the pushed segment to what is written back. */
  lemma PushLength(kept: seq<Segment>, g: Segment)
    ensures |Unsplit(Push(kept, g))| <= |Unsplit(kept)| + |SegmentString(g)|
  {
    if g.text == "." {
    } else if g.text == ".." && |kept| > 0 && kept[|kept| - 1].text != ".." {
      var n := |kept| - 1;
      assert kept[..n] + [kept[n]] == kept;
      UnsplitAppend(kept[..n], [kept[n]]);
    } else {
      UnsplitAppend(kept, [g]);
      UnsplitSingle(g);
    }
  }

  /** One segment written back is its own string. */
  lemma UnsplitSingle(g: Segment)
    ensures Unsplit([g]) == SegmentString(g)
  {
    assert Unsplit([g]) == SegmentString(g) + Unsplit([g][1..]);
  }

  /** Normalisation never lengthens a path. */
  lemma NormalizedLength(p: string)
    requires |p| > 0 && p[0] == '/'
    ensures 1 + |Unsplit(RemoveDots(Segments(p)))| <= |p|
  {
    UnsplitSegmentsLength(p[1..]);
    assert Segments(p) == Segments(p[1..]);
    RemoveDotsLength(Segments(p));
  }

  /** Normalisation leaves a normal path as it is. */
  lemma NormalizeKeepsNormal(p: string)
    requires NormalPath(p)
    ensures NormalizePath(p) == p
  {
    var rest := p[1..];
    assert Segments(p) == Segments(rest);
    RemoveDotsOfNoDots(Segments(p));
    NoDoubleSlashTail(p);
    UnsplitSegments(rest);
    assert p == "/" + rest;
  }

  /** Without dot segments there is nothing to remove. */
  lemma RemoveDotsOfNoDots(segs: seq<Segment>)
    requires NoDotSegment(segs)
    ensures RemoveDots(segs) == segs
  {
    RemoveDotsAppend([], segs);
    assert [] + segs == segs;
  }

  /** Dropping the leading '/' of a path without redundant slashes leaves a
      string without redundant slashes that does not start with '/'. */
  lemma NoDoubleSlashTail(p: string)
    requires |p| > 0 && p[0] == '/' && NoDoubleSlash(p)
    ensures NoDoubleSlash(p[1..]) && (|p| == 1 || p[1] != '/')
  {
    var rest := p[1..];
    forall j | 0 <= j < |rest| - 1 ensures rest[j] != '/' || rest[j + 1] != '/' {
      assert rest[j] == p[j + 1] && rest[j + 1] == p[j + 2];
    }
  }

  /** Normalising a directory followed by a normal reference normalises the
      directory and appends the reference unchanged. */
  lemma NormalizeAppend(p: string, ref: string)
    requires |p| > 0 && p[0] == '/' && EndsWithSlash(p) && NormalRef(ref)
    ensures NormalizePath(p + ref) == NormalizePath(p) + ref
  {
    var segs, rs := Segments(p), Segments(ref);
    var K := RemoveDots(segs);
    SegmentsAppend(p, ref);
    RemoveDotsAppend(segs, rs);
    assert RemoveDots(Segments(p + ref)) == K + rs;
    UnsplitAppend(K, rs);
    UnsplitSegments(ref);
    assert NormalizePath(p + ref) == "/" + (Unsplit(K) + ref);
    assert NormalizePath(p) == "/" + Unsplit(K);
    ConcatAssoc("/", Unsplit(K), ref);
  }

  /** Resolving a normal reference appends it to the normalised base
      directory, after the base's scheme and authority. */
  lemma ResolveNormalRef(base: string, ref: string)
    requires ValidAbsoluteURI(base) && NormalRef(ref)
    ensures Resolve(base, ref) == base[..PathStart(base)] + NormalizePath(BaseDirectory(base)) + ref
  {
    var d := BaseDirectory(base);
    NormalizeAppend(d, ref);
    assert Resolve(base, ref) == base[..PathStart(base)] + (NormalizePath(d) + ref);
    ConcatAssoc(base[..PathStart(base)], NormalizePath(d), ref);
  }

  /** A prefix of a normal path that ends in '/' is normal. */
  lemma NormalPathPrefix(p: string, k: nat)
    requires NormalPath(p) && 0 < k <= |p| && p[k - 1] == '/'
    ensures NormalPath(p[..k])
  {
    SegmentsAppend(p[..k], p[k..]);
    assert p[..k] + p[k..] == p;
    var a := Segments(p[..k]);
    assert forall i :: 0 <= i < |a| ==> a[i] == Segments(p)[i];
  }

  /** The base directory of a base with an empty or normal path is normal. */
  lemma BaseDirectoryNormal(base: string)
    requires ValidAbsoluteURI(base) && NormalBasePath(base)
    ensures NormalPath(BaseDirectory(base))
  {
    var ps := PathStart(base);
    var pe := PathEnd(base);
    if pe == ps {
      assert Segments("/") == Segments("/"[1..]);
    } else {
      var ls := LastSlash(base, ps, pe);
      NormalPathPrefix(base[ps..pe], ls + 1 - ps);
      assert base[ps..pe][..ls + 1 - ps] == BaseDirectory(base);
    }
  }

  /** For a path-only base, the base directory is the whole path when the
      base ends in '/', and has another length otherwise. */
  lemma BaseDirectoryOfPathOnly(base: string)
    requires ValidAbsoluteURI(base) && PathOnly(base)
    ensures EndsWithSlash(base) ==> base[..PathStart(base)] + BaseDirectory(base) == base
    ensures !EndsWithSlash(base) ==> PathStart(base) + |BaseDirectory(base)| != |base|
  {
    var ps := PathStart(base);
    var pe := PathEnd(base);
    assert pe == |base|;
    if pe == ps {
      assert base[ps - 1] != '/';
    } else {
      var ls := LastSlash(base, ps, pe);
      if EndsWithSlash(base) {
        assert ls == |base| - 1;
      } else {
        assert ls < |base| - 1;
      }
    }
  }

  /** For a valid path-only base with an empty or normal path, resolving a
      normal reference appends it to the base exactly when the base ends in
      '/'; otherwise the base's last path segment is replaced (or a '/'
      inserted). */
  lemma ResolveAppendsIff(base: string, ref: string)
    requires ValidAbsoluteURI(base) && PathOnly(base) && NormalBasePath(base) && NormalRef(ref)
    ensures Resolve(base, ref) == base[..PathStart(base)] + BaseDirectory(base) + ref
    ensures Resolve(base, ref) == base + ref <==> EndsWithSlash(base)
  {
    ResolveNormalRef(base, ref);
    BaseDirectoryNormal(base);
    NormalizeKeepsNormal(BaseDirectory(base));
    BaseDirectoryOfPathOnly(base);
    if !EndsWithSlash(base) {
      assert |Resolve(base, ref)| != |base + ref|;
    }
  }

  /** A string without '.' has no dot segment. */
  lemma {:induction false} NoDotCharNoDotSegment(s: string)
    requires NoDotChar(s)
    ensures NoDotSegment(Segments(s))
    decreases |s|
  {
    if s != [] {
      if s[0] == '/' {
        NoDotCharNoDotSegment(s[1..]);
      } else {
        var k := FindFrom(s, 0, {'/'});
        var g := Segment(s[..k], k < |s|);
        assert Segments(s) == [g] + Segments(s[k..]);
        assert g.text[0] == s[0];
        NoDotCharNoDotSegment(s[k..]);
      }
    }
  }

  /** Joining two strings adds no redundant slash unless one is at the seam. */
  lemma NoDoubleSlashJoin(a: string, b: string)
    requires NoDoubleSlash(a) && NoDoubleSlash(b)
    requires a == [] || b == [] || a[|a| - 1] != '/' || b[0] != '/'
    ensures NoDoubleSlash(a + b)
  {
    var s := a + b;
    forall i | 0 <= i < |s| - 1 ensures s[i] != '/' || s[i + 1] != '/' {
      if i + 1 < |a| {
        assert s[i] == a[i] && s[i + 1] == a[i + 1];
      } else if i >= |a| {
        assert s[i] == b[i - |a|] && s[i + 1] == b[i + 1 - |a|];
      }
    }
  }

  /** Joining two strings without '.' gives one without '.'. */
  lemma NoDotCharJoin(a: string, b: string)
    requires NoDotChar(a) && NoDotChar(b)
    ensures NoDotChar(a + b)
  {
    assert forall i :: |a| <= i < |a + b| ==> (a + b)[i] == b[i - |a|];
  }

  /** A segment with no '/' followed by '/' and a rest: that segment, then
      the segments of the rest. */
  lemma SegmentThen(x: string, rest: string)
    requires |x| > 0 && forall j :: 0 <= j < |x| ==> x[j] != '/'
    ensures Segments(x + "/" + rest) == [Segment(x, true)] + Segments(rest)
  {
    var s := x + "/" + rest;
    FindFromIs(s, 0, {'/'}, |x|);
    assert s[..|x|] == x;
    assert s[|x|..][1..] == rest;
  }

  /** Removing dots from `x` and then `g` is one more `Push` step. */
  lemma RemoveDotsSnoc(x: seq<Segment>, g: Segment)
    ensures RemoveDots(x + [g]) == Push(RemoveDots(x), g)
  {
    assert (x + [g])[..|x|] == x;
  }

  /** A trailing "." segment is dropped. */
  lemma RemoveDotsDropsDot(x: seq<Segment>, b: bool)
    ensures RemoveDots(x + [Segment(".", b)]) == RemoveDots(x)
  {
    RemoveDotsSnoc(x, Segment(".", b));
  }

  /** A trailing ordinary segment is kept, after the segments kept before it. */
  lemma RemoveDotsKeepsOrdinary(x: seq<Segment>, g: Segment)
    requires g.text != "." && g.text != ".."
    ensures RemoveDots(x + [g]) == RemoveDots(x) + [g]
  {
    RemoveDotsSnoc(x, g);
  }

  /** An ordinary segment followed by ".." removes both, and nothing else. */
  lemma RemoveDotsParentCancels(x: seq<Segment>, g: Segment, b: bool)
    requires g.text != "." && g.text != ".."
    ensures RemoveDots(x + [g, Segment("..", b)]) == RemoveDots(x)
  {
    var d := Segment("..", b);
    assert x + [g, d] == (x + [g]) + [d];
    RemoveDotsSnoc(x + [g], d);
    RemoveDotsKeepsOrdinary(x, g);
    PushParentPops(RemoveDots(x), g, b);
  }

  /** A ".." pushed right after an ordinary segment pops it. */
  lemma PushParentPops(k: seq<Segment>, g: Segment, b: bool)
    requires g.text != "." && g.text != ".."
    ensures Push(k + [g], Segment("..", b)) == k
  {
    var kg := k + [g];
    assert kg[|kg| - 1] == g && kg[..|kg| - 1] == k;
  }

  /** A ".." with no ordinary segment kept before it stays. */
  lemma RemoveDotsKeepsParent(x: seq<Segment>, b: bool)
    requires var k := RemoveDots(x); k == [] || k[|k| - 1].text == ".."
    ensures RemoveDots(x + [Segment("..", b)]) == RemoveDots(x) + [Segment("..", b)]
  {
    RemoveDotsSnoc(x, Segment("..", b));
  }

  /** The segments of "x/../ref": x, then "..", then those of ref. */
  lemma SegmentsOfParent(x: string, ref: string)
    requires |x| > 0 && forall j :: 0 <= j < |x| ==> x[j] != '/'
    ensures Segments(x + "/../" + ref) == [Segment(x, true), Segment("..", true)] + Segments(ref)
  {
    ParentJoin(x, ref);
    SegmentThen(x, "../" + ref);
    SegmentsOfDotDot(ref);
  }

  /** "x/../ref" is x, '/', then "../ref". */
  lemma ParentJoin(x: string, ref: string)
    ensures x + "/../" + ref == x + "/" + ("../" + ref)
  {
    assert "/../" == "/" + "../";
  }

  /** The segments of "../ref": "..", then those of ref. */
  lemma SegmentsOfDotDot(ref: string)
    ensures Segments("../" + ref) == [Segment("..", true)] + Segments(ref)
  {
    var s := "../" + ref;
    FindFromIs(s, 0, {'/'}, 2);
    assert s[..2] == "..";
    assert s[2..][1..] == ref;
  }

  /** A segment followed by ".." cancels: "p x/../ref" normalises to the
      normalised directory `p` followed by `ref`. */
  lemma NormalizeParentCancels(p: string, x: string, ref: string)
    requires |p| > 0 && p[0] == '/' && EndsWithSlash(p)
    requires |x| > 0 && x != "." && x != ".." && forall j :: 0 <= j < |x| ==> x[j] != '/'
    requires NormalRef(ref)
    ensures NormalizePath(p + x + "/../" + ref) == NormalizePath(p) + ref
  {
    var t := x + "/../" + ref;
    var R := Segments(ref);
    var K := RemoveDots(Segments(p));
    ParentAssoc(p, x, ref);
    SegmentsAppend(p, t);
    SegmentsOfParent(x, ref);
    RemoveDotsOfParent(Segments(p), Segment(x, true), R);
    assert RemoveDots(Segments(p + t)) == K + R;
    UnsplitAppend(K, R);
    UnsplitSegments(ref);
    assert NormalizePath(p + t) == "/" + (Unsplit(K) + ref);
    assert NormalizePath(p) == "/" + Unsplit(K);
    ConcatAssoc("/", Unsplit(K), ref);
  }

  /** "p x/../ref" is p followed by "x/../ref". */
  lemma ParentAssoc(p: string, x: string, ref: string)
    ensures p + x + "/../" + ref == p + (x + "/../" + ref)
  {
  }

  /** Concatenation of three strings, grouped either way. */
  lemma ConcatAssoc(a: string, b: string, c: string)
    ensures a + b + c == a + (b + c)
  {
  }

  /** Dot removal over "S x .. R", with R free of dot segments, keeps what S
      keeps and then R. */
  lemma RemoveDotsOfParent(S: seq<Segment>, X: Segment, R: seq<Segment>)
    requires X.text != "." && X.text != ".." && NoDotSegment(R)
    ensures RemoveDots(S + ([X, Segment("..", true)] + R)) == RemoveDots(S) + R
  {
    var D := Segment("..", true);
    assert S + ([X, D] + R) == (S + [X, D]) + R;
    RemoveDotsAppend(S + [X, D], R);
    RemoveDotsParentCancels(S, X, true);
  }

  /** For a path-only base whose path ends in '/', the part before the path is
      the scheme and authority, and the base directory is the whole path. */
  lemma DirectoryOfParts(s: string, scheme: string, authority: string, rest: string)
    requires s == scheme + "://" + authority + rest && ValidAbsoluteURI(s)
    requires IsScheme(scheme) && |rest| > 0 && rest[0] == '/' && PathOnly(rest) && EndsWithSlash(rest)
    requires forall j :: 0 <= j < |authority| ==> authority[j] != '/' && authority[j] != '?' && authority[j] != '#'
    ensures s[..PathStart(s)] == scheme + "://" + authority && BaseDirectory(s) == rest
  {
    PathOfParts(s, scheme, authority, rest);
    var ps, pe := PathStart(s), PathEnd(s);
    assert ps == |s| - |rest|;
    assert s[..ps] == scheme + "://" + authority;
    assert s[pe - 1] == '/';
    assert LastSlash(s, ps, pe) == pe - 1;
  }

  /** "q x/../" has no query or fragment when q and x have none. */
  lemma ParentPathOnly(q: string, x: string)
    requires PathOnly(q) && forall j :: 0 <= j < |x| ==> x[j] != '?' && x[j] != '#'
    ensures PathOnly(q + x + "/../") && EndsWithSlash(q + x + "/../")
  {
    var rest := q + x + "/../";
    forall j | 0 <= j < |rest| ensures rest[j] != '?' && rest[j] != '#' {
      if j < |q| {
        assert rest[j] == q[j];
      } else if j < |q| + |x| {
        assert rest[j] == x[j - |q|];
      }
    }
  }

  /** Resolving against a base whose path is "q x/../", with `q` a normal
      directory, yields `q` followed by the reference: java.net.URI removes
      the segment x and its "..", and keeps everything before them. */
  lemma ResolveUnderParent(base: string, head: string, scheme: string, authority: string, q: string, x: string, ref: string)
    requires head == scheme + "://" + authority && base == head + (q + x + "/../") && ValidAbsoluteURI(base)
    requires IsScheme(scheme) && NormalRef(ref)
    requires forall j :: 0 <= j < |authority| ==> authority[j] != '/' && authority[j] != '?' && authority[j] != '#'
    requires NormalPath(q) && EndsWithSlash(q) && PathOnly(q)
    requires |x| > 0 && x != "." && x != ".." && forall j :: 0 <= j < |x| ==> x[j] != '/' && x[j] != '?' && x[j] != '#'
    ensures Resolve(base, ref) == head + q + ref
  {
    var rest := q + x + "/../";
    ParentPathOnly(q, x);
    DirectoryOfParts(base, scheme, authority, rest);
    NormalizeParentCancels(q, x, ref);
    NormalizeKeepsNormal(q);
    assert rest + ref == q + x + "/../" + ref;
  }
}
