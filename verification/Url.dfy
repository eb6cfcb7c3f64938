/** `urlsplit`, `urlunsplit`, `urlparse`, `parse_qsl`, `parse_qs` and `urlencode` of `urllib.parse`. */
module Url {
  import opened Text
  import opened Percent
  import opened Dict

  datatype Parts = Parts(scheme: string, netloc: string, path: string, query: string, fragment: string)

  type Pairs = seq<(string, string)>

  const USES_NETLOC: seq<string> := [
    "", "ftp", "http", "gopher", "nntp", "telnet", "imap", "wais", "file", "mms", "https", "shttp",
    "snews", "prospero", "rtsp", "rtsps", "rtspu", "rsync", "svn", "svn+ssh", "sftp", "nfs", "git",
    "git+ssh", "ws", "wss", "itms-services"
  ]

  const USES_PARAMS: seq<string> := [
    "", "ftp", "hdl", "prospero", "http", "imap", "https", "shttp", "rtsp", "rtsps", "rtspu", "sip",
    "sips", "mms", "sftp", "tel"
  ]

  // ----- Splitting a URL ---------------------------------------------------

  predicate IsAlpha(c: char) {
    'a' <= c <= 'z' || 'A' <= c <= 'Z'
  }

  predicate SchemeChar(c: char) {
    IsAlpha(c) || IsDigit(c) || c == '+' || c == '-' || c == '.'
  }

  predicate IsScheme(s: string) {
    s != "" && IsAlpha(s[0]) && forall i :: 0 <= i < |s| ==> SchemeChar(s[i])
  }

  predicate HasScheme(url: string) {
    var i := FindAny(url, ":");
    i < |url| && IsScheme(url[..i])
  }

  function SplitScheme(url: string): (string, string) {
    if HasScheme(url) then
      var i := FindAny(url, ":");
      (Lower(url[..i]), url[i + 1..])
    else ("", url)
  }

  function SplitNetloc(url: string): (string, string) {
    if "//" <= url then
      var rest := url[2..];
      var i := FindAny(rest, "/?#");
      (rest[..i], rest[i..])
    else ("", url)
  }

  /** `s.split(c, 1)` when `c` occurs, else `(s, "")`. */
  function CutAt(s: string, c: char): (string, string) {
    var i := FindAny(s, [c]);
    if i < |s| then (s[..i], s[i + 1..]) else (s, "")
  }

  /** `urlsplit(url)`. */
  function UrlSplit(url: string): Parts {
    var (scheme, afterScheme) := SplitScheme(url);
    var (netloc, afterNetloc) := SplitNetloc(afterScheme);
    var (beforeFragment, fragment) := CutAt(afterNetloc, '#');
    var (path, query) := CutAt(beforeFragment, '?');
    Parts(scheme, netloc, path, query, fragment)
  }

  /** The position of the last `c`, or 0. */
  function LastIndex(s: string, c: char): (i: nat)
    ensures i <= |s|
  {
    if s == "" then 0 else if s[|s| - 1] == c then |s| - 1 else LastIndex(s[..|s| - 1], c)
  }

  /** `_splitparams(path)[0]`: parameters are cut off the last segment only. */
  function DropParams(path: string): string {
    var k := LastIndex(path, '/');
    path[..k + FindAny(path[k..], ";")]
  }

  // ----- Putting a URL together --------------------------------------------

  /** Whether `urlunsplit` writes `//` for an empty authority. */
  predicate EmptyAuthority(p: Parts) {
    p.scheme != "" && p.scheme in USES_NETLOC && (p.path == "" || p.path[0] == '/')
  }

  /** The authority and path as `urlunsplit` writes them. */
  function Authority(p: Parts, empty: bool): string {
    if p.netloc != "" then
      "//" + p.netloc + (if p.path != "" && p.path[0] != '/' then "/" + p.path else p.path)
    else if "//" <= p.path || empty then "//" + p.path
    else p.path
  }

  function Head(p: Parts): string {
    (if p.scheme != "" then p.scheme + ":" else "") + Authority(p, EmptyAuthority(p))
  }

  function QueryTail(p: Parts): string {
    if p.query != "" then "?" + p.query else ""
  }

  function FragmentTail(p: Parts): string {
    if p.fragment != "" then "#" + p.fragment else ""
  }

  function Tail(p: Parts): string {
    QueryTail(p) + FragmentTail(p)
  }

  /** `urlunsplit(p)`. */
  function UrlUnsplit(p: Parts): string {
    Head(p) + Tail(p)
  }

  /** When `//` is written: for an authority, before a path that begins so, or as the scheme demands. */
  ghost predicate SlashesWritten(p: Parts) {
    || p.netloc != "" || "//" <= p.path
    || (p.scheme in USES_NETLOC && p.scheme != "" && (p.path == "" || p.path[0] == '/'))
  }

  /** Putting a URL together writes the five parts with their marks, and a slash after an authority where none is. */
  lemma {:induction false} UrlWritten(p: Parts)
    ensures UrlUnsplit(p) ==
      ((if p.scheme == "" then "" else p.scheme + ":")
       + ((if SlashesWritten(p) then "//" + p.netloc else "")
          + ((if p.netloc != "" && p.path != "" && p.path[0] != '/' then "/" else "") + p.path)))
      + ((if p.query == "" then "" else "?" + p.query) + (if p.fragment == "" then "" else "#" + p.fragment))
  {
    hide USES_NETLOC;
    AuthorityIs(p);
  }

  lemma {:induction false} AuthorityIs(p: Parts)
    ensures Authority(p, EmptyAuthority(p)) ==
      (if SlashesWritten(p) then "//" + p.netloc else "")
      + ((if p.netloc != "" && p.path != "" && p.path[0] != '/' then "/" else "") + p.path)
  {
    hide USES_NETLOC;
    var slash := if p.netloc != "" && p.path != "" && p.path[0] != '/' then "/" else "";
    Concat3("//", p.netloc, slash + p.path);
    assert "" + p.path == p.path;
    assert p.netloc == "" ==> "//" + p.netloc == "//";
  }

  /** What `urlsplit` produces: where each delimiter may still occur. */
  ghost predicate Splittable(p: Parts) {
    && (p.scheme != "" ==> IsScheme(p.scheme) && Lower(p.scheme) == p.scheme)
    && FreeOf(p.netloc, "/?#")
    && (p.netloc != "" ==> p.path == "" || p.path[0] == '/')
    && FreeOf(p.path, "?#")
    && FreeOf(p.query, "#")
    && (p.scheme == "" && p.netloc == "" ==> !HasScheme(p.path))
  }

  lemma CutHere(p: string, s: string, c: char)
    requires FreeOf(p, [c])
    requires s == "" || s[0] == c
    ensures CutAt(p + s, c) == (p, if s == "" then "" else s[1..])
  {
    FindAnyStops(p, s, [c]);
    assert p + s == if s == "" then p else p + s;
    if s != "" {
      assert (p + s)[|p| + 1..] == s[1..];
    }
  }

  /** Whether a URL has a scheme is decided by what comes before its first `/`, `?` or `#`. */
  lemma SchemeDecidedEarly(path: string, rest: string)
    requires rest == "" || (!SchemeChar(rest[0]) && rest[0] != ':')
    ensures HasScheme(path + rest) <==> HasScheme(path)
  {
    var i := FindAny(path, ":");
    if i < |path| {
      assert path == path[..i] + path[i..];
      assert path + rest == path[..i] + (path[i..] + rest);
      FindAnyStops(path[..i], path[i..] + rest, ":");
    } else {
      assert path[..i] == path;
      FindAnySkips(path, rest, ":");
      var k := FindAny(path + rest, ":");
      if k < |path + rest| {
        assert k > |path|;
        assert (path + rest)[..k][|path|] == rest[0];
      }
    }
  }

  lemma NoSchemeAtSlash(s: string)
    requires s == "" || s[0] == '/'
    ensures !HasScheme(s)
  {
    var i := FindAny(s, ":");
    if 0 < i < |s| {
      assert s[..i][0] == '/';
    }
  }

  lemma SplitHere(s: string, i: nat)
    requires i < |s|
    ensures s == s[..i] + ([s[i]] + s[i + 1..])
  {
  }

  lemma {:induction false} CutParts(s: string, c: char)
    ensures var (a, b) := CutAt(s, c);
      FreeOf(a, [c]) && if FindAny(s, [c]) < |s| then s == a + ([c] + b) else a == s && b == ""
  {
    hide FindAny, FreeOf;
    var i := FindAny(s, [c]);
    if i < |s| {
      SplitHere(s, i);
    } else {
      assert s[..i] == s;
    }
  }

  lemma PathAndQuery(s: string)
    ensures var c := CutAt(s, '#').0; var (path, query) := CutAt(c, '?');
      FreeOf(path, "?#") && FreeOf(query, "#") && path <= s
      && (|path| < |s| ==> s[|path|] in "?#")
  {
    var c := CutAt(s, '#').0;
    CutParts(s, '#');
    CutParts(c, '?');
  }

  lemma NoSchemeKept(url: string, path: string)
    requires !HasScheme(url) && path <= url
    requires |path| < |url| ==> url[|path|] in "?#"
    ensures !HasScheme(path)
  {
    assert url == path + url[|path|..];
    SchemeDecidedEarly(path, url[|path|..]);
  }

  lemma NetlocThenSlash(url: string)
    ensures var (netloc, rest) := SplitNetloc(url);
      FreeOf(netloc, "/?#") && ("//" <= url ==> rest == "" || rest[0] in "/?#")
        && (!("//" <= url) ==> netloc == "" && rest == url)
  {
  }

  lemma PathAfterNetloc(url: string, path: string)
    requires var rest := SplitNetloc(url).1; path <= rest && (|path| < |rest| ==> rest[|path|] in "?#")
    requires FreeOf(path, "?#")
    ensures "//" <= url ==> path == "" || path[0] == '/'
    ensures SplitNetloc(url).0 == "" && !HasScheme(url) ==> !HasScheme(path)
  {
    hide HasScheme, FreeOf;
    var rest := SplitNetloc(url).1;
    NetlocThenSlash(url);
    if "//" <= url {
      assert path == "" || path[0] == '/' by {
        if path != "" { assert path[0] == rest[0] && path[0] !in "?#" by { FreeHead(path, "?#"); } }
      }
      NoSchemeAtSlash(path);
    } else if !HasScheme(url) {
      NoSchemeKept(url, path);
    }
  }

  lemma FreeHead(s: string, cs: string)
    requires FreeOf(s, cs) && s != ""
    ensures s[0] !in cs
  {
  }

  lemma SchemeLowered(url: string)
    ensures var (scheme, rest) := SplitScheme(url);
      if scheme != "" then IsScheme(scheme) && Lower(scheme) == scheme else !HasScheme(url) && rest == url
  {
    if HasScheme(url) {
      var i := FindAny(url, ":");
      var scheme := Lower(url[..i]);
      LowerKeeps(scheme);
    }
  }

  lemma SplitIsSplittable(url: string)
    ensures Splittable(UrlSplit(url))
  {
    hide HasScheme, FreeOf, SplitScheme, SplitNetloc, CutAt, Lower, IsScheme;
    var (scheme, a) := SplitScheme(url);
    var (netloc, b) := SplitNetloc(a);
    var path := CutAt(CutAt(b, '#').0, '?').0;
    SchemeLowered(url);
    NetlocThenSlash(a);
    PathAndQuery(b);
    PathAfterNetloc(a, path);
  }

  lemma TailSplits(path: string, p: Parts)
    requires FreeOf(path, "?#") && FreeOf(p.query, "#")
    ensures CutAt(path + Tail(p), '#') == (path + QueryTail(p), p.fragment)
    ensures CutAt(path + QueryTail(p), '?') == (path, p.query)
  {
    assert path + Tail(p) == (path + QueryTail(p)) + FragmentTail(p);
    assert FreeOf(path, ['#']) && FreeOf(path, ['?']) && FreeOf(QueryTail(p), ['#']) by {
      assert '#' in "?#" && '?' in "?#" && '#' in "#";
    }
    CutHere(path + QueryTail(p), FragmentTail(p), '#');
    CutHere(path, QueryTail(p), '?');
  }

  lemma NetlocHere(netloc: string, rest: string)
    requires FreeOf(netloc, "/?#") && (rest == "" || rest[0] in "/?#")
    ensures SplitNetloc("//" + (netloc + rest)) == (netloc, rest)
  {
    var s := "//" + (netloc + rest);
    assert s[2..] == netloc + rest && "//" <= s;
    FindAnyStops(netloc, rest, "/?#");
  }

  lemma NoNetloc(path: string, tail: string)
    requires !("//" <= path) && (tail == "" || tail[0] in "?#")
    ensures SplitNetloc(path + tail) == ("", path + tail)
  {
    var s := path + tail;
    assert |path| >= 1 ==> s[0] == path[0];
    assert |path| >= 2 ==> s[1] == path[1] && path[..2] == [s[0], s[1]];
    assert tail != "" ==> s[|path|] == tail[0];
  }

  lemma PathHead(path: string, p: Parts)
    requires path == "" || path[0] == '/'
    ensures path + Tail(p) == "" || (path + Tail(p))[0] in "/?#"
  {
    assert path == "" ==> path + Tail(p) == Tail(p);
  }

  lemma NetlocSplits(p: Parts, empty: bool)
    requires Splittable(p)
    requires empty ==> p.path == "" || p.path[0] == '/'
    ensures SplitNetloc(Authority(p, empty) + Tail(p)) == (p.netloc, p.path + Tail(p))
  {
    hide SplitNetloc, HasScheme, IsScheme, Lower, FreeOf;
    if p.netloc != "" || "//" <= p.path || empty {
      PathHead(p.path, p);
      hide Tail;
      FreeOfEmpty("/?#");
      assert Authority(p, empty) == "//" + (p.netloc + p.path) by { AuthorityWritten(p, empty); }
      hide Authority;
      Concat3("//", p.netloc + p.path, Tail(p));
      Concat3(p.netloc, p.path, Tail(p));
      NetlocHere(p.netloc, p.path + Tail(p));
    } else {
      TailMark(p);
      hide Tail;
      NoNetloc(p.path, Tail(p));
    }
  }

  lemma TailMark(p: Parts)
    ensures Tail(p) == "" || Tail(p)[0] in "?#"
  {
  }

  lemma AuthorityWritten(p: Parts, empty: bool)
    requires p.netloc != "" || "//" <= p.path || empty
    requires p.netloc != "" ==> p.path == "" || p.path[0] == '/'
    ensures Authority(p, empty) == "//" + (p.netloc + p.path)
  {
    if p.netloc == "" {
      assert p.netloc + p.path == p.path;
    } else {
      Concat3("//", p.netloc, p.path);
    }
  }

  lemma FreeOfEmpty(cs: string)
    ensures FreeOf("", cs)
  {
  }

  lemma SchemeSplits(p: Parts, empty: bool)
    requires Splittable(p)
    requires empty ==> p.path == "" || p.path[0] == '/'
    ensures SplitScheme((if p.scheme != "" then p.scheme + ":" else "") + (Authority(p, empty) + Tail(p)))
         == (p.scheme, Authority(p, empty) + Tail(p))
  {
    var rest := Authority(p, empty) + Tail(p);
    if p.scheme != "" {
      var s := p.scheme + ":" + rest;
      assert s == p.scheme + (":" + rest);
      FindAnyStops(p.scheme, ":" + rest, ":");
      assert s[|p.scheme| + 1..] == rest;
    } else {
      assert "" + rest == rest;
      if Authority(p, empty) == p.path && p.netloc == "" {
        SchemeDecidedEarly(p.path, Tail(p));
      } else {
        NoSchemeAtSlash(rest);
      }
    }
  }

  lemma EmptyAuthorityPath(p: Parts)
    ensures EmptyAuthority(p) ==> p.path == "" || p.path[0] == '/'
  {
  }

  /** Splitting undoes unsplitting, for everything `urlsplit` can produce. */
  lemma SplitUnsplit(p: Parts)
    requires Splittable(p)
    ensures UrlSplit(UrlUnsplit(p)) == p
  {
    hide EmptyAuthority, Authority, Tail, HasScheme, FreeOf, SplitScheme, SplitNetloc, CutAt;
    var empty := EmptyAuthority(p);
    EmptyAuthorityPath(p);
    SchemeSplits(p, empty);
    NetlocSplits(p, empty);
    assert UrlUnsplit(p) == (if p.scheme != "" then p.scheme + ":" else "") + (Authority(p, empty) + Tail(p));
    TailSplits(p.path, p);
  }

  /** Text with its mark, which may be missing when the text is empty. */
  ghost predicate Marked(written: string, mark: char, text: string) {
    written == [mark] + text || (written == "" && text == "")
  }

  /** A scheme as it is written, in either letter case, or none where the URL starts with none. */
  ghost predicate SchemeWritten(written: string, scheme: string, url: string) {
    if written == "" then
      (scheme == "" && forall t: string :: IsScheme(t) ==> !(t + ":" <= url))
    else
      var t := written[..|written| - 1];
      written == t + ":" && IsScheme(t) && Lower(t) == scheme
  }

  lemma NoColonInScheme(t: string)
    requires IsScheme(t)
    ensures FreeOf(t, ":")
  {
  }

  lemma SchemeCut(url: string) returns (written: string)
    ensures var (scheme, rest) := SplitScheme(url); url == written + rest && SchemeWritten(written, scheme, url)
  {
    var i := FindAny(url, ":");
    if HasScheme(url) {
      written := url[..i + 1];
      assert written[..i] == url[..i];
    } else {
      written := "";
      forall t: string | IsScheme(t) ensures !(t + ":" <= url) {
        if t + ":" <= url {
          NoColonInScheme(t);
          var rest := url[|t|..];
          assert url == t + rest && rest[0] == ':' by { assert url[..|t| + 1] == t + ":"; }
          FindAnyStops(t, rest, ":");
          assert false;
        }
      }
    }
  }

  lemma CutWritten(s: string, c: char) returns (written: string)
    ensures var (a, b) := CutAt(s, c); s == a + written && Marked(written, c, b)
  {
    CutParts(s, c);
    var (a, b) := CutAt(s, c);
    written := if FindAny(s, [c]) < |s| then [c] + b else "";
  }

  /**
   * Splitting a URL cuts its text into the five parts, each with its mark, and changes the letter case of the scheme
   * and nothing else. With the places the marks may still have, that is all there is to say of `urlsplit`.
   */
  lemma SplitKeepsText(url: string) returns (scheme: string, authority: string, query: string, fragment: string)
    ensures var p := UrlSplit(url);
      && url == scheme + (authority + (p.path + (query + fragment)))
      && SchemeWritten(scheme, p.scheme, url)
      && (authority == "//" + p.netloc
          || (authority == "" && p.netloc == "" && !("//" <= p.path + (query + fragment))))
      && Marked(query, '?', p.query) && Marked(fragment, '#', p.fragment)
  {
    hide SplitScheme, SplitNetloc, CutAt, SchemeWritten, Marked;
    scheme := SchemeCut(url);
    var a := SplitScheme(url).1;
    var (netloc, b) := SplitNetloc(a);
    fragment := CutWritten(b, '#');
    query := CutWritten(CutAt(b, '#').0, '?');
    Concat3(UrlSplit(url).path, query, fragment);
    authority := if "//" <= a then "//" + netloc else "";
    NetlocCut(a);
  }

  lemma NetlocCut(url: string)
    ensures var (netloc, rest) := SplitNetloc(url);
      url == (if "//" <= url then "//" + netloc else "") + rest && (!("//" <= url) ==> netloc == "" && rest == url)
  {
    if "//" <= url {
      assert url == "//" + url[2..];
    }
  }

  /** A last segment with the slash before it, cut at its first semicolon. */
  lemma {:induction false} LastSegmentCut(s: string) returns (slash: string, kept: string, params: string)
    requires forall j :: 0 < j < |s| ==> s[j] != '/'
    ensures slash == (if s != "" && s[0] == '/' then "/" else "")
    ensures s == slash + (kept + params) && s[..FindAny(s, ";")] == slash + kept
    ensures FreeOf(kept, "/;") && '/' !in params && (params == "" || params[0] == ';')
  {
    slash := if s != "" && s[0] == '/' then "/" else "";
    var rest := s[|slash|..];
    assert s == slash + rest && '/' !in rest;
    assert FreeOf(slash, ";");
    FindAnySkips(slash, rest, ";");
    kept, params := AtSemicolon(rest);
    assert (slash + rest)[..|slash| + |kept|] == slash + kept;
  }

  lemma {:induction false} AtSemicolon(s: string) returns (kept: string, params: string)
    requires '/' !in s
    ensures s == kept + params && |kept| == FindAny(s, ";")
    ensures FreeOf(kept, "/;") && '/' !in params && (params == "" || params[0] == ';')
  {
    var n := FindAny(s, ";");
    kept, params := s[..n], s[n..];
    forall i | 0 <= i < |kept| ensures kept[i] !in "/;" {
      assert kept[i] !in ";" && kept[i] in s;
    }
    if params != "" {
      assert s[n] in ";" && params[0] == s[n];
    }
  }

  /** Parameters are cut off the last segment of a path, from its first semicolon on. */
  lemma ParamsCut(path: string) returns (dir: string, kept: string, params: string)
    ensures path == dir + (kept + params) && DropParams(path) == dir + kept
    ensures dir == "" || dir[|dir| - 1] == '/'
    ensures FreeOf(kept, "/;") && '/' !in params && (params == "" || params[0] == ';')
  {
    hide FindAny, LastIndex, FreeOf, DropParams;
    var k := LastIndex(path, '/');
    LastSegment(path, k);
    var slash;
    slash, kept, params := LastSegmentCut(path[k..]);
    dir := path[..k] + slash;
    Concat3(path[..k], slash, kept + params);
    Concat3(path[..k], slash, kept);
  }

  lemma {:induction false} LastSegment(path: string, k: nat)
    requires k == LastIndex(path, '/')
    ensures forall j :: 0 < j < |path[k..]| ==> path[k..][j] != '/'
    ensures path == path[..k] + path[k..]
    ensures DropParams(path) == path[..k] + path[k..][..FindAny(path[k..], ";")]
    ensures path[k..] == "" || path[k..][0] != '/' ==> path[..k] == ""
  {
    LastIndexIs(path, '/');
    hide FindAny, LastIndex;
    forall j | 0 < j < |path[k..]| ensures path[k..][j] != '/' {
      assert path[k..][j] == path[k + j];
    }
    PrefixOfTwo(path, k, FindAny(path[k..], ";"));
  }

  lemma {:induction false} PrefixOfTwo(path: string, k: nat, n: nat)
    requires k + n <= |path|
    ensures path[..k + n] == path[..k] + path[k..][..n]
  {
  }

  lemma SemicolonIn(dir: string, kept: string, params: string)
    requires params != "" && params[0] == ';'
    ensures ';' in dir + (kept + params)
  {
    assert (dir + (kept + params))[|dir| + |kept|] == ';';
  }

  lemma {:induction false} LastIndexIs(s: string, c: char)
    ensures var i := LastIndex(s, c);
      (c in s ==> i < |s| && s[i] == c) && (c !in s ==> i == 0) && forall j :: i < j < |s| ==> s[j] != c
  {
    if s == "" {
    } else if s[|s| - 1] != c {
      LastIndexIs(s[..|s| - 1], c);
      assert s == s[..|s| - 1] + [s[|s| - 1]];
    }
  }

  // ----- URLs and paths with a known shape ---------------------------------

  /** A plain path has no origin; a full URL has a scheme and a host. */
  function Origin(host: Option<string>): string {
    match host case Some(h) => "https://" + h case None => ""
  }

  /** The query a suffix such as `?a=b#c` carries. */
  function SuffixQuery(suffix: string): string {
    CutAt(CutAt(suffix, '#').0, '?').1
  }

  /** It is the text between the question mark and the fragment. */
  lemma SuffixQueryIs(query: string, fragment: string)
    requires '#' !in query
    ensures SuffixQuery("?" + query) == SuffixQuery("?" + (query + ("#" + fragment))) == query
    ensures SuffixQuery("#" + fragment) == ""
  {
    hide FindAny;
    var q := "?" + query;
    assert FreeOf(q, ['#']) && q + "" == q && "?" + (query + ("#" + fragment)) == q + ("#" + fragment);
    CutHere(q, "", '#');
    CutHere(q, "#" + fragment, '#');
    CutHere("", q, '?');
    CutHere("", "", '?');
    CutHere("", "#" + fragment, '#');
    assert "" + q == q && q[1..] == query && "" + ("#" + fragment) == "#" + fragment;
  }

  ghost predicate PathLike(host: Option<string>, path: string, suffix: string) {
    && (host.Some? ==> FreeOf(host.value, "/?#"))
    && (host.None? ==> !("//" <= path))
    && (path == "" || path[0] == '/')
    && FreeOf(path, "?#")
    && (suffix == "" || suffix[0] in "?#")
  }

  lemma CutSuffix(path: string, suffix: string)
    requires FreeOf(path, "?#") && (suffix == "" || suffix[0] in "?#")
    ensures var c := CutAt(path + suffix, '#').0; CutAt(c, '?') == (path, SuffixQuery(suffix))
  {
    var i := FindAny(suffix, ['#']);
    var c := CutAt(suffix, '#').0;
    assert FreeOf(path, ['#']) && FreeOf(path, ['?']) by { assert '#' in "?#" && '?' in "?#"; }
    FindAnySkips(path, suffix, ['#']);
    assert (path + suffix)[..|path| + i] == path + suffix[..i];
    assert suffix[..|suffix|] == suffix;
    assert CutAt(path + suffix, '#').0 == path + c by {
      assert (path + suffix)[..|path + suffix|] == path + suffix;
    }
    assert c == "" || c[0] == '?';
    CutHere(path, c, '?');
    CutHere("", c, '?');
    assert "" + c == c;
  }

  lemma HttpsScheme(rest: string)
    ensures SplitScheme("https:" + rest) == ("https", rest)
  {
    var s := "https:" + rest;
    assert s == "https" + (":" + rest);
    FindAnyStops("https", ":" + rest, ":");
    assert s[6..] == rest && s[..5] == "https";
    assert IsScheme("https");
    LowerKeeps("https");
  }

  lemma PlainScheme(path: string, suffix: string)
    requires path == "" || path[0] == '/'
    requires suffix == "" || suffix[0] in "?#"
    ensures SplitScheme(path + suffix) == ("", path + suffix)
  {
    hide HasScheme;
    if path == "" {
      assert "" + suffix == suffix;
      SchemeDecidedEarly("", suffix);
      NoSchemeAtSlash("");
    } else {
      NoSchemeAtSlash(path + suffix);
    }
  }

  lemma EmptySuffix()
    ensures SuffixQuery("") == ""
  {
  }

  lemma NoOrigin(s: string)
    ensures Origin(None) + s == s
  {
  }

  lemma OriginText(h: string, rest: string)
    ensures Origin(Some(h)) + rest == "https:" + ("//" + (h + rest))
  {
    Concat3("https://", h, rest);
    assert "https:" + "//" == "https://";
    Concat3("https:", "//", h + rest);
  }

  /** A path, with or without an origin before it and a query after it, splits as expected. */
  lemma SplitPath(host: Option<string>, path: string, suffix: string)
    requires PathLike(host, path, suffix)
    ensures var p := UrlSplit(Origin(host) + (path + suffix)); p.path == path && p.query == SuffixQuery(suffix)
  {
    var rest := path + suffix;
    CutSuffix(path, suffix);
    match host {
      case Some(h) =>
        hide SplitNetloc, SplitScheme, CutAt, FreeOf;
        assert rest == "" || rest[0] in "/?#";
        OriginText(h, rest);
        HttpsScheme("//" + (h + rest));
        NetlocHere(h, rest);
      case None =>
        hide SplitNetloc, SplitScheme, CutAt, FreeOf;
        assert Origin(host) + rest == rest;
        PlainScheme(path, suffix);
        NoNetloc(path, suffix);
    }
  }

  // ----- Query strings -----------------------------------------------------

  /** One `name=value` field of a query. */
  function Field(text: string): (string, string) {
    var (name, value) := CutAt(text, '=');
    (UnquotePlus(name), UnquotePlus(value))
  }

  function Fields(texts: seq<string>): Pairs {
    if texts == [] then []
    else (if texts[0] == "" then [] else [Field(texts[0])]) + Fields(texts[1..])
  }

  /** `parse_qsl(query, keep_blank_values=True)`. */
  function ParseQsl(query: string): Pairs {
    Fields(Split(query, '&'))
  }

  function EncodePair(pair: (string, string)): string {
    QuotePlus(pair.0) + "=" + QuotePlus(pair.1)
  }

  function EncodePairs(pairs: Pairs): seq<string> {
    if pairs == [] then [] else [EncodePair(pairs[0])] + EncodePairs(pairs[1..])
  }

  /** `urlencode(pairs)`. */
  function UrlEncode(pairs: Pairs): string {
    Join(EncodePairs(pairs), "&")
  }

  predicate FormSafe(s: string) {
    forall i :: 0 <= i < |s| ==> Encoded(s[i]) || s[i] == '+'
  }

  lemma FormSafeMarks(s: string)
    requires FormSafe(s)
    ensures '&' !in s && FreeOf(s, ['=']) && FreeOf(s, "#")
  {
  }

  lemma FieldOfPair(pair: (string, string))
    ensures Field(EncodePair(pair)) == pair
    ensures '&' !in EncodePair(pair) && EncodePair(pair) != "" && FreeOf(EncodePair(pair), "#")
  {
    var name, value := QuotePlus(pair.0), QuotePlus(pair.1);
    QuotePlusEncoded(pair.0);
    QuotePlusEncoded(pair.1);
    assert FormSafe(name) && FormSafe(value);
    FormSafeMarks(name);
    FormSafeMarks(value);
    assert EncodePair(pair) == name + ("=" + value);
    CutHere(name, "=" + value, '=');
    assert ("=" + value)[1..] == value;
    UnquotePlusQuotePlus(pair.0);
    UnquotePlusQuotePlus(pair.1);
  }

  lemma {:induction false} FieldsOfPairs(pairs: Pairs)
    ensures Fields(EncodePairs(pairs)) == pairs
    ensures |EncodePairs(pairs)| == |pairs|
    ensures forall i :: 0 <= i < |pairs| ==> '&' !in EncodePairs(pairs)[i]
    ensures FreeOf(UrlEncode(pairs), "#")
  {
    hide Field, EncodePair;
    if pairs == [] {
    } else {
      FieldOfPair(pairs[0]);
      FieldsOfPairs(pairs[1..]);
      var texts := EncodePairs(pairs);
      assert texts[1..] == EncodePairs(pairs[1..]);
      assert pairs == [pairs[0]] + pairs[1..];
    }
  }

  /** Reading an encoded query gives back the pairs it was made from, for every list of pairs. */
  lemma ParseEncode(pairs: Pairs)
    ensures ParseQsl(UrlEncode(pairs)) == pairs
  {
    FieldsOfPairs(pairs);
    if pairs != [] {
      SplitJoin(EncodePairs(pairs), '&');
    }
  }

  lemma {:induction false} FieldsAppend(a: seq<string>, b: seq<string>)
    ensures Fields(a + b) == Fields(a) + Fields(b)
  {
    hide Field;
    if a == [] {
      assert a + b == b;
    } else {
      assert (a + b)[1..] == a[1..] + b;
      FieldsAppend(a[1..], b);
      Concat3(if a[0] == "" then [] else [Field(a[0])], Fields(a[1..]), Fields(b));
    }
  }

  lemma {:induction false} FieldRead(name: string, value: string)
    requires '=' !in name
    ensures Field(name + "=" + value) == (UnquotePlus(name), UnquotePlus(value))
    ensures Field(name) == (UnquotePlus(name), "")
  {
    hide UnquotePlus, FindAny, CutAt;
    assert name + "=" + value == name + ("=" + value) && name + "" == name && ("=" + value)[1..] == value;
    CutHere(name, "=" + value, '=');
    CutHere(name, "", '=');
    UnquoteEmpty();
  }

  lemma {:induction false} OneField(text: string)
    requires '&' !in text && text != ""
    ensures ParseQsl(text) == [Field(text)]
  {
    hide Field, Split;
    SplitUnmarked(text, '&');
    assert Fields([text]) == [Field(text)] + Fields([text][1..]);
  }

  /**
   * Reading any query: fields are cut at each `&` and read in order, empty ones are skipped, name and value are cut at
   * the first `=`, and a field without one has an empty value.
   */
  lemma {:induction false} QueryRead(a: string, b: string, name: string, value: string)
    requires '&' !in name && '=' !in name && '&' !in value
    ensures ParseQsl("") == [] && ParseQsl(a + "&" + b) == ParseQsl(a) + ParseQsl(b)
    ensures ParseQsl(name + "=" + value) == [(UnquotePlus(name), UnquotePlus(value))]
    ensures name != "" ==> ParseQsl(name) == [(UnquotePlus(name), "")]
  {
    hide Split, UnquotePlus, Field;
    SplitUnmarked("", '&');
    assert Fields([""]) == [] + Fields([""][1..]) == [];
    SplitAppend(a, b, '&');
    FieldsAppend(Split(a, '&'), Split(b, '&'));
    FieldRead(name, value);
    hide ParseQsl;
    OneField(name + "=" + value);
    if name != "" {
      OneField(name);
    }
  }

  lemma {:induction false} EncodedLength(p: Pairs)
    ensures |EncodePairs(p)| == |p|
  {
    hide EncodePair;
    if p == [] {
    } else {
      EncodedLength(p[1..]);
    }
  }

  /** Writing a query: a field for each pair, joined by `&`, with name and value encoded and joined by `=`. */
  lemma QueryWritten(pair: (string, string), rest: Pairs)
    ensures UrlEncode([]) == "" && UrlEncode([pair]) == QuotePlus(pair.0) + "=" + QuotePlus(pair.1)
    ensures rest != [] ==> UrlEncode([pair] + rest) == UrlEncode([pair]) + "&" + UrlEncode(rest)
  {
    hide QuotePlus;
    assert [pair][1..] == [] && ([pair] + rest)[1..] == rest;
    EncodedLength(rest);
    var texts := EncodePairs([pair] + rest);
    assert texts == [EncodePair(pair)] + EncodePairs(rest) && texts[1..] == EncodePairs(rest);
    assert EncodePairs([pair]) == [EncodePair(pair)];
  }

  /** `parse_qs(query, keep_blank_values=True)`: the values of each name, in order of appearance. */
  function ParseQs(query: string): Dict<seq<string>> {
    Group(ParseQsl(query))
  }
}
