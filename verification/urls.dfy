/** The parts of Python's `urllib.parse.urlparse` the core relies on: the
    network location (for the Google-domain check) and the path (for the
    profile username). */
module Urls {
  import opened Text

  predicate IsAsciiLetter(c: char) {
    'a' <= c <= 'z' || 'A' <= c <= 'Z'
  }

  /** Characters a URL scheme may hold. */
  predicate IsSchemeChar(c: char) {
    IsAsciiLetter(c) || IsDigit(c) || c == '+' || c == '-' || c == '.'
  }

  /** A well-formed scheme: a letter followed by scheme characters. */
  predicate IsScheme(s: string) {
    |s| > 0 && IsAsciiLetter(s[0]) && forall k :: 0 <= k < |s| ==> IsSchemeChar(s[k])
  }

  /** Characters that end the network location. */
  const NetlocEnd: set<char> := {'/', '?', '#'}

  /** Characters that end the path: the query and the fragment delimiters. */
  const PathEnd: set<char> := {'?', '#'}

  /** The URL with its scheme and colon removed, when the text before the
      first `:` is a scheme; otherwise the URL unchanged. */
  function AfterScheme(url: string): string
  {
    var scheme := TakeUntil(url, {':'});
    if |scheme| < |url| && IsScheme(scheme) then url[|scheme| + 1..] else url
  }

  /** Whether the text after the scheme opens a network location with `//`. */
  predicate HasAuthority(rest: string) {
    |rest| >= 2 && rest[..2] == "//"
  }

  /** The network location within the text that follows the scheme. */
  function NetlocOf(rest: string): string
  {
    if HasAuthority(rest) then TakeUntil(rest[2..], NetlocEnd) else ""
  }

  /** The path within the text that follows the scheme. */
  function PathOf(rest: string): (p: string)
    ensures forall i :: 0 <= i < |p| ==> p[i] !in PathEnd
  {
    var tail := if HasAuthority(rest) then DropUntil(rest[2..], NetlocEnd) else rest;
    TakeUntil(tail, PathEnd)
  }

  /** `urlparse(url).netloc`: after `scheme:` and `//`, up to the first `/`, `?` or `#`. */
  function Netloc(url: string): string
  {
    NetlocOf(AfterScheme(url))
  }

  /** `urlparse` raises `ValueError` ("Invalid IPv6 URL") when the network
      location holds a `[` without a `]`, or a `]` without a `[`. */
  predicate HasUnmatchedBracket(url: string) {
    var host := Netloc(url);
    ('[' in host) != (']' in host)
  }

  /** `urlparse(url).path`: after the network location, up to the query or fragment. */
  function Path(url: string): string
  {
    PathOf(AfterScheme(url))
  }

  /** A well-formed scheme and its colon are removed, whatever follows. */
  lemma AfterSchemeRemovesScheme(scheme: string, rest: string)
    requires IsScheme(scheme)
    ensures AfterScheme(scheme + ":" + rest) == rest
  {
    var url := scheme + ":" + rest;
    forall i | 0 <= i < |scheme| ensures scheme[i] !in {':'} {
      assert IsSchemeChar(scheme[i]);
    }
    assert url == scheme + (":" + rest);
    TakeUntilStopsAtBoundary(scheme, ":" + rest, {':'});
    assert url[|scheme| + 1..] == rest;
  }

  /** After `//`, the host runs to the first `/`, `?` or `#`, and the path from
      there to the first `?` or `#`. */
  lemma AuthorityAndPath(host: string, path: string, suffix: string)
    requires forall i :: 0 <= i < |host| ==> host[i] !in NetlocEnd
    requires path == [] || path[0] == '/'
    requires forall i :: 0 <= i < |path| ==> path[i] !in PathEnd
    requires suffix == [] || suffix[0] in PathEnd
    ensures NetlocOf("//" + host + path + suffix) == host
    ensures PathOf("//" + host + path + suffix) == path
  {
    var tail := "//" + host + path + suffix;
    assert HasAuthority(tail);
    assert tail[2..] == host + (path + suffix);
    var afterHost := path + suffix;
    assert afterHost == [] || afterHost[0] in NetlocEnd;
    TakeUntilStopsAtBoundary(host, afterHost, NetlocEnd);
    TakeUntilStopsAtBoundary(path, suffix, PathEnd);
  }

  /** Parsing a URL assembled from a scheme, a host, a path and a query or
      fragment recovers the host and the path. */
  lemma ParseAssembled(url: string, scheme: string, host: string, path: string, suffix: string)
    requires url == scheme + "://" + host + path + suffix
    requires IsScheme(scheme)
    requires forall i :: 0 <= i < |host| ==> host[i] !in NetlocEnd
    requires path == [] || path[0] == '/'
    requires forall i :: 0 <= i < |path| ==> path[i] !in PathEnd
    requires suffix == [] || suffix[0] in PathEnd
    ensures Netloc(url) == host
    ensures Path(url) == path
  {
    var tail := "//" + host + path + suffix;
    assert url == scheme + ":" + tail;
    AfterSchemeRemovesScheme(scheme, tail);
    AuthorityAndPath(host, path, suffix);
  }

  /** The last `/`-separated segment of a path once leading and trailing
      slashes are stripped: `path.strip("/").split("/")[-1]`. */
  function LastPathSegment(path: string): string
  {
    LastSegment(Strip(path, '/'), '/')
  }

  /** The segment holds no slash and ends the stripped path, right after a
      slash unless it is the whole stripped path. */
  lemma LastPathSegmentShape(path: string)
    ensures var r := LastPathSegment(path);
            var p := Strip(path, '/');
            && '/' !in r
            && EndsWith(p, r)
            && (|r| == |p| || p[|p| - |r| - 1] == '/')
  {
    LastSegmentShape(Strip(path, '/'), '/');
  }

  /** The profile username the source derives from a profile URL. */
  function Username(url: string): string
  {
    LastPathSegment(Path(url))
  }

  /** The last segment is empty exactly when the path holds nothing but slashes. */
  lemma LastPathSegmentEmptyIff(path: string)
    ensures LastPathSegment(path) == "" <==> forall i :: 0 <= i < |path| ==> path[i] == '/'
  {
    var left := StripStart(path, '/');
    StripStartShape(path, '/');
    StripEndShape(left, '/');
    LastSegmentShape(StripEnd(left, '/'), '/');
  }

  /** The path of a link `<scheme>://<host>/<dir>/<name><trailing><suffix>`. */
  lemma PathOfProfileLink(scheme: string, host: string, dir: string, name: string, trailing: string, suffix: string)
    requires IsScheme(scheme)
    requires forall i :: 0 <= i < |host| ==> host[i] !in NetlocEnd
    requires forall i :: 0 <= i < |dir| ==> dir[i] !in PathEnd
    requires forall i :: 0 <= i < |name| ==> name[i] !in PathEnd
    requires trailing == "" || trailing == "/"
    requires suffix == [] || suffix[0] in PathEnd
    ensures Path(scheme + "://" + host + "/" + dir + "/" + name + trailing + suffix)
         == "/" + dir + "/" + name + trailing
  {
    var path := "/" + dir + "/" + name + trailing;
    assert scheme + "://" + host + "/" + dir + "/" + name + trailing + suffix
        == scheme + "://" + host + path + suffix;
    forall i | 0 <= i < |path| ensures path[i] !in PathEnd {
      if 1 <= i < 1 + |dir| {
        assert path[i] == dir[i - 1];
      } else if 2 + |dir| <= i < 2 + |dir| + |name| {
        assert path[i] == name[i - 2 - |dir|];
      }
    }
    ParseAssembled(scheme + "://" + host + path + suffix, scheme, host, path, suffix);
  }

  /** A path `/<dir>/<name>` with an optional trailing slash yields `<name>`. */
  lemma LastSegmentOfProfilePath(dir: string, name: string, trailing: string)
    requires |dir| > 0 && dir[0] != '/'
    requires |name| > 0 && '/' !in name
    requires trailing == "" || trailing == "/"
    ensures LastPathSegment("/" + dir + "/" + name + trailing) == name
  {
    var segments := dir + "/" + name;
    assert "/" + dir + "/" + name + trailing == "/" + segments + trailing;
    assert segments[0] == dir[0];
    assert segments[|segments| - 1] == name[|name| - 1];
    StripSingleSlashes(segments, trailing);
    LastSegmentAfterSeparator(dir, name, '/');
  }

  /** A profile link `<scheme>://<host>/<dir>/<name>` (as in `/in/<name>`)
      with an optional trailing slash and an optional query or fragment yields
      `<name>` as username. */
  lemma UsernameOfProfileLink(scheme: string, host: string, dir: string, name: string, trailing: string, suffix: string)
    requires IsScheme(scheme)
    requires forall i :: 0 <= i < |host| ==> host[i] !in NetlocEnd
    requires |dir| > 0 && dir[0] != '/'
    requires forall i :: 0 <= i < |dir| ==> dir[i] !in PathEnd
    requires |name| > 0 && '/' !in name
    requires forall i :: 0 <= i < |name| ==> name[i] !in PathEnd
    requires trailing == "" || trailing == "/"
    requires suffix == [] || suffix[0] in PathEnd
    ensures Username(scheme + "://" + host + "/" + dir + "/" + name + trailing + suffix) == name
  {
    PathOfProfileLink(scheme, host, dir, name, trailing, suffix);
    LastSegmentOfProfilePath(dir, name, trailing);
  }

  /** Stripping one leading slash and an optional trailing one. */
  lemma StripSingleSlashes(segments: string, trailing: string)
    requires |segments| > 0 && segments[0] != '/' && segments[|segments| - 1] != '/'
    requires trailing == "" || trailing == "/"
    ensures Strip("/" + segments + trailing, '/') == segments
  {
    assert ("/" + segments + trailing)[1..] == segments + trailing;
    assert StripStart(segments + trailing, '/') == segments + trailing;
    assert StripStart("/" + segments + trailing, '/') == segments + trailing;
    if trailing == "/" {
      assert (segments + trailing)[..|segments|] == segments;
      assert StripEnd(segments + trailing, '/') == StripEnd(segments, '/');
    } else {
      assert segments + trailing == segments;
    }
  }

  /** The last segment of `a + sep + b` is `b` when `b` holds no separator. */
  lemma {:induction false} LastSegmentAfterSeparator(a: string, b: string, sep: char)
    requires sep !in b
    ensures LastSegment(a + [sep] + b, sep) == b
  {
    if |b| > 0 {
      var s := a + [sep] + b;
      assert s[..|s| - 1] == a + [sep] + b[..|b| - 1];
      LastSegmentAfterSeparator(a, b[..|b| - 1], sep);
    }
  }
}
