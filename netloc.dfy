/**
 * `get_netloc` (rss_keyword_collector/parse.py): the routing key of a URL,
 * and the part of Python 2.7's `urlparse` it depends on.
 *
 * `urlparse` is modelled on the text: a scheme is taken off when the text
 * before the first ':' is made of scheme characters (and what follows is
 * not a bare port number), or is exactly "http"; a netloc is taken when
 * what remains starts with "//" and runs to the first '/', '?' or '#';
 * then the fragment and the query are cut off the path, and for the
 * schemes that use parameters the ";params" of the last path segment.
 */
module Netloc {
  import opened Strings
  import opened Outcomes

  /** urlparse's `scheme_chars`. */
  predicate IsSchemeChar(c: char) {
    'a' <= c <= 'z' || 'A' <= c <= 'Z' || '0' <= c <= '9' || c == '+' || c == '-' || c == '.'
  }

  predicate IsDigit(c: char) {
    '0' <= c <= '9'
  }

  /** urlparse's `uses_params`. */
  const UsesParams: set<string> :=
    {"", "ftp", "hdl", "prospero", "http", "imap", "https", "shttp",
     "rtsp", "rtspu", "sip", "sips", "mms", "sftp", "tel"}

  /** The characters that end a netloc. */
  const NetlocDelims: set<char> := {'/', '?', '#'}

  /** The fields of a parsed URL that `get_netloc` reads (query, fragment and params dropped). */
  datatype Url = Url(scheme: string, netloc: string, path: string)

  /** Whether urlsplit takes a scheme off `url`. */
  predicate HasScheme(url: string) {
    var i := IndexOf(url, ':');
    0 < i < |url| &&
    (url[..i] == "http" ||
     ((forall j :: 0 <= j < i ==> IsSchemeChar(url[j])) &&
      (i + 1 == |url| || exists j :: i + 1 <= j < |url| && !IsDigit(url[j]))))
  }

  /** `'[' in netloc` without `']'`, or the other way round. */
  predicate UnbalancedBrackets(netloc: string) {
    ('[' in netloc && ']' !in netloc) || (']' in netloc && '[' !in netloc)
  }

  /** The position of the last `c` in `s`. */
  function LastIndexOf(s: string, c: char): (i: nat)
    requires c in s
    ensures i < |s| && s[i] == c
    ensures forall j :: i < j < |s| ==> s[j] != c
  {
    if s[|s| - 1] == c then |s| - 1
    else
      assert c in s[..|s| - 1] by {
        var k :| 0 <= k < |s| && s[k] == c;
        assert s[..|s| - 1][k] == c;
      }
      LastIndexOf(s[..|s| - 1], c)
  }

  /** urlparse's `_splitparams`, keeping only the part before the parameters. */
  function WithoutParams(path: string): (r: string)
    ensures r <= path
    ensures var start := if '/' in path then LastIndexOf(path, '/') else 0;
      && start <= |r|
      && (forall j :: start <= j < |r| ==> path[j] != ';')
      && (|r| < |path| ==> path[|r|] == ';')
  {
    if '/' in path then
      var k := LastIndexOf(path, '/');
      path[..k + IndexOf(path[k..], ';')]
    else
      path[..IndexOf(path, ';')]
  }

  /** urlsplit's scheme step: the lower-cased scheme and what follows its ':'. */
  function SplitScheme(url: string): (string, string)
  {
    if HasScheme(url) then
      var i := IndexOf(url, ':');
      (Lower(url[..i]), url[i + 1..])
    else ("", url)
  }

  /** urlsplit's `_splitnetloc`: after a leading "//", up to the first '/', '?' or '#'. */
  function SplitNetloc(rest: string): (string, string)
  {
    if |rest| >= 2 && rest[..2] == "//" then
      var d := 2 + IndexOfAny(rest[2..], NetlocDelims);
      (rest[2..d], rest[d..])
    else ("", rest)
  }

  /** What is left of the path once the fragment and then the query are cut off. */
  function PathPart(tail: string): (path: string)
    ensures path <= tail
    ensures '#' !in path && '?' !in path
    ensures |path| < |tail| ==> tail[|path|] == '?' || tail[|path|] == '#'
  {
    var noFragment := tail[..IndexOf(tail, '#')];
    noFragment[..IndexOf(noFragment, '?')]
  }

  /** `urlparse(url)`, or the "Invalid IPv6 URL" ValueError it raises. */
  function UrlParse(url: string): (r: Result<Url>)
  {
    var (scheme, rest) := SplitScheme(url);
    var (netloc, tail) := SplitNetloc(rest);
    if UnbalancedBrackets(netloc) then Err(InvalidIPv6Url)
    else
      var path := PathPart(tail);
      Ok(Url(scheme, netloc, if scheme in UsesParams then WithoutParams(path) else path))
  }

  /** The host `get_netloc` starts from: the netloc, or else the path up to its first '/'. */
  function RawNetloc(u: Url): string {
    if u.netloc != "" then u.netloc else u.path[..IndexOf(u.path, '/')]
  }

  /** The escaping `get_netloc` applies: '.' becomes '_', then lower case. */
  function EscapeHost(raw: string): (k: string)
    ensures |k| == |raw|
    ensures '.' !in k
    ensures IsLowerCase(k)
    ensures forall i :: 0 <= i < |raw| ==> k[i] == (if raw[i] == '.' then '_' else LowerChar(raw[i]))
  {
    Lower(ReplaceChar(raw, '.', '_'))
  }

  /** `get_netloc(url)`: the routing key of a URL, or the ValueError it raises. */
  function GetNetloc(url: string): (r: Result<string>)
  {
    match UrlParse(url)
    case Err(e) => Err(e)
    case Ok(u) =>
      var raw := RawNetloc(u);
      if raw == "" then Err(UnparsableUrl) else Ok(EscapeHost(raw))
  }

  // ---------------------------------------------------------------------
  // Properties
  // ---------------------------------------------------------------------

  /**
   * get_netloc fails exactly when urlparse fails or the raw host is empty;
   * otherwise its key is the raw host escaped: same length, no '.', no
   * upper-case letter.
   */
  lemma GetNetlocSpec(url: string)
    ensures UrlParse(url).Err? ==> GetNetloc(url) == Err(UrlParse(url).error)
    ensures UrlParse(url).Ok? ==>
      (GetNetloc(url).Err? <==> RawNetloc(UrlParse(url).value) == "")
    ensures GetNetloc(url).Err? ==> GetNetloc(url).error in {UnparsableUrl, InvalidIPv6Url}
    ensures GetNetloc(url).Ok? ==>
      var k := GetNetloc(url).value;
      var raw := RawNetloc(UrlParse(url).value);
      && k != "" && |k| == |raw| && '.' !in k && IsLowerCase(k)
      && forall i :: 0 <= i < |raw| ==> k[i] == (if raw[i] == '.' then '_' else LowerChar(raw[i]))
  {
  }

  /** Escaping an already escaped key changes nothing. */
  lemma EscapeHostIdempotent(raw: string)
    ensures EscapeHost(EscapeHost(raw)) == EscapeHost(raw)
  {
    var k := EscapeHost(raw);
    var kk := EscapeHost(k);
    forall i | 0 <= i < |k| ensures kk[i] == k[i] {
      assert k[i] != '.';
      assert !IsUpper(k[i]);
    }
  }

  /**
   * A URL of the shape `scheme://host<rest>` (section 3 of RFC 3986), where
   * `rest` is empty or starts the path, query or fragment, has `host` as its
   * netloc, and get_netloc escapes exactly that host.
   */
  lemma {:induction false} HostOfAbsoluteUrl(scheme: string, host: string, rest: string)
    requires scheme != [] && forall c :: c in scheme ==> IsSchemeChar(c)
    requires forall c :: c in host ==> c !in NetlocDelims
    requires !UnbalancedBrackets(host)
    requires rest == [] || rest[0] in NetlocDelims
    ensures UrlParse(scheme + "://" + host + rest).Ok?
    ensures UrlParse(scheme + "://" + host + rest).value.netloc == host
    ensures host != [] ==> GetNetloc(scheme + "://" + host + rest) == Ok(EscapeHost(host))
  {
    var url := scheme + "://" + host + rest;
    var i := |scheme|;
    assert IndexOf(url, ':') == i by {
      assert url[i] == ':';
      forall j | 0 <= j < i ensures url[j] != ':' {
        assert url[j] == scheme[j];
        assert scheme[j] in scheme;
      }
    }
    assert HasScheme(url) by {
      assert url[..i] == scheme;
      forall j | 0 <= j < i ensures IsSchemeChar(url[j]) {
        assert url[j] == scheme[j] && scheme[j] in scheme;
      }
      assert url[i + 1] == '/' && !IsDigit(url[i + 1]);
    }
    assert SplitScheme(url) == (Lower(scheme), "//" + host + rest) by {
      assert url[..i] == scheme;
      assert url[i + 1..] == "//" + host + rest;
    }
    NetlocOfHost(host, rest);
  }

  /** `_splitnetloc` of `"//" + host + rest` takes exactly `host`. */
  lemma NetlocOfHost(host: string, rest: string)
    requires forall c :: c in host ==> c !in NetlocDelims
    requires rest == [] || rest[0] in NetlocDelims
    ensures SplitNetloc("//" + host + rest) == (host, rest)
  {
    var after := "//" + host + rest;
    var h := host + rest;
    assert after[2..] == h;
    forall j | 0 <= j < |host| ensures h[j] !in NetlocDelims {
      assert h[j] == host[j];
      assert host[j] in host;
    }
    IndexOfAnyIsFirst(h, NetlocDelims, |host|);
    assert after[2..2 + |host|] == host;
    assert after[2 + |host|..] == rest;
  }

  /**
   * A URL without a scheme, `host<rest>` with `rest` empty or starting with
   * '/', is parsed with an empty netloc, and get_netloc takes the host from
   * the first path segment.
   */
  lemma {:induction false} HostOfRelativeUrl(host: string, rest: string)
    requires forall c :: c in host ==> c !in NetlocDelims && c != ':' && c != ';'
    requires ':' !in rest
    requires rest == [] || rest[0] == '/'
    requires host == [] ==> !(|rest| >= 2 && rest[..2] == "//")
    ensures UrlParse(host + rest).Ok?
    ensures UrlParse(host + rest).value.netloc == ""
    ensures GetNetloc(host + rest) == if host == [] then Err(UnparsableUrl) else Ok(EscapeHost(host))
  {
    var url := host + rest;
    RelativeUrlParts(host, rest);
    var path := PathPart(url);
    FirstSegmentOfPath(host, path);
  }

  /** Without a ':' or a leading "//" the whole text is the path. */
  lemma {:induction false} RelativeUrlParts(host: string, rest: string)
    requires forall c :: c in host ==> c !in NetlocDelims && c != ':' && c != ';'
    requires ':' !in rest
    requires rest == [] || rest[0] == '/'
    requires host == [] ==> !(|rest| >= 2 && rest[..2] == "//")
    ensures UrlParse(host + rest) == Ok(Url("", "", WithoutParams(PathPart(host + rest))))
    ensures PathPart(host + rest)[..|host|] == host
    ensures |PathPart(host + rest)| > |host| ==> PathPart(host + rest)[|host|] == '/'
  {
    var url := host + rest;
    NoSchemeWithoutColon(host, rest);
    assert SplitNetloc(url) == ("", url) by {
      if host != [] {
        assert url[0] == host[0] && host[0] in host;
      } else {
        assert url == rest;
      }
    }
    PathPartKeepsHost(host, rest);
  }

  /** Without a ':' anywhere, urlsplit finds no scheme. */
  lemma NoSchemeWithoutColon(host: string, rest: string)
    requires forall c :: c in host ==> c != ':'
    requires ':' !in rest
    ensures SplitScheme(host + rest) == ("", host + rest)
  {
    var url := host + rest;
    forall k | 0 <= k < |url| ensures url[k] != ':' {
      if k < |host| {
        assert url[k] == host[k] && host[k] in host;
      } else {
        assert url[k] == rest[k - |host|] && rest[k - |host|] in rest;
      }
    }
    assert IndexOf(url, ':') == |url|;
  }

  /** Cutting the fragment and the query of `host<rest>` keeps the host and the '/' after it. */
  lemma PathPartKeepsHost(host: string, rest: string)
    requires forall c :: c in host ==> c !in NetlocDelims
    requires rest == [] || rest[0] == '/'
    ensures PathPart(host + rest)[..|host|] == host
    ensures |PathPart(host + rest)| > |host| ==> PathPart(host + rest)[|host|] == '/'
  {
    var url := host + rest;
    forall j | 0 <= j < |host| ensures url[j] == host[j] && url[j] !in NetlocDelims {
      assert host[j] in host;
    }
    var noFragment := url[..IndexOf(url, '#')];
    assert |host| <= IndexOf(url, '#');
    assert |host| <= IndexOf(noFragment, '?');
  }

  /** Cutting the parameters keeps the first segment of such a path. */
  lemma {:induction false} FirstSegmentOfPath(host: string, path: string)
    requires forall c :: c in host ==> c != '/' && c != ';'
    requires |host| <= |path| && path[..|host|] == host
    requires |path| > |host| ==> path[|host|] == '/'
    ensures var p := WithoutParams(path); p[..IndexOf(p, '/')] == host
  {
    var p := WithoutParams(path);
    forall j | 0 <= j < |host| ensures path[j] == host[j] && path[j] != '/' && path[j] != ';' {
      assert host[j] in host;
    }
    if '/' in path {
      var k := LastIndexOf(path, '/');
      assert |host| <= k;
      assert |p| > |host| && p[|host|] == '/';
    } else {
      assert |path| == |host|;
      assert IndexOf(path, ';') == |host|;
      assert p == host;
    }
    assert IndexOf(p, '/') == |host| by {
      assert forall j :: 0 <= j < |host| ==> p[j] == host[j] && p[j] != '/';
    }
  }

  /** The first position of a character of `cs` is the first one the scan meets. */
  lemma IndexOfAnyIsFirst(s: string, cs: set<char>, k: nat)
    requires k <= |s|
    requires forall j :: 0 <= j < k ==> s[j] !in cs
    requires k < |s| ==> s[k] in cs
    ensures IndexOfAny(s, cs) == k
  {
  }

  lemma EscapeBbcHost()
    ensures EscapeHost("www.bbc.com") == "www_bbc_com"
    ensures EscapeHost("www.BBC.com") == "www_bbc_com"
  {
    var raw, raw2 := "www.bbc.com", "www.BBC.com";
    forall i | 0 <= i < |raw| ensures EscapeHost(raw)[i] == "www_bbc_com"[i] {
      assert !IsUpper(raw[i]);
    }
    forall i | 0 <= i < |raw2| ensures EscapeHost(raw2)[i] == "www_bbc_com"[i] {
      if 4 <= i < 7 {
        assert LowerChar(raw2[i]) == "www_bbc_com"[i];
      } else {
        assert !IsUpper(raw2[i]);
      }
    }
  }

  lemma EscapeUnknownHost()
    ensures EscapeHost("unknown-site.example") == "unknown-site_example"
    ensures EscapeHost("not a url") == "not a url"
  {
    var raw, raw2 := "unknown-site.example", "not a url";
    forall i | 0 <= i < |raw| ensures EscapeHost(raw)[i] == "unknown-site_example"[i] {
      assert !IsUpper(raw[i]);
    }
    forall i | 0 <= i < |raw2| ensures EscapeHost(raw2)[i] == raw2[i] {
      assert !IsUpper(raw2[i]);
    }
  }

  /** get_netloc on example URLs: a BBC article, an unknown site. */
  lemma GetNetlocOfBbcUrl()
    ensures GetNetloc("http://www.bbc.com/news/world-123") == Ok("www_bbc_com")
  {
    BbcUrlShape();
    HostOfAbsoluteUrl("http", "www.bbc.com", "/news/world-123");
    EscapeBbcHost();
  }

  /** The BBC example URL is `http://` + its host + its path. */
  lemma BbcUrlShape()
    ensures "http" + "://" + "www.bbc.com" + "/news/world-123" == "http://www.bbc.com/news/world-123"
  {
  }

  lemma GetNetlocOfUnknownSite()
    ensures GetNetloc("https://unknown-site.example/a") == Ok("unknown-site_example")
  {
    var host := "unknown-site.example";
    UnknownSiteShape();
    UnknownSiteHost();
    HostOfAbsoluteUrl("https", host, "/a");
    EscapeUnknownHost();
  }

  /** The example URL is `https://` + its host + "/a"... */
  lemma UnknownSiteShape()
    ensures "https" + "://" + "unknown-site.example" + "/a" == "https://unknown-site.example/a"
  {
  }

  /** ...and its host holds no delimiter and no bracket. */
  lemma UnknownSiteHost()
    ensures forall c :: c in "unknown-site.example" ==> c !in NetlocDelims
    ensures !UnbalancedBrackets("unknown-site.example")
  {
    var host := "unknown-site.example";
    forall i | 0 <= i < |host| ensures host[i] !in NetlocDelims { }
  }

  lemma GetNetlocWithoutScheme()
    ensures GetNetloc("www.BBC.com/news") == Ok("www_bbc_com")
  {
    var host := "www.BBC.com";
    forall i | 0 <= i < |host| ensures host[i] !in NetlocDelims && host[i] != ':' && host[i] != ';' { }
    assert host + "/news" == "www.BBC.com/news";
    HostOfRelativeUrl(host, "/news");
    EscapeBbcHost();
  }

  /** A text that is no URL at all is still accepted: its whole text is the host. */
  lemma GetNetlocOfPlainText()
    ensures GetNetloc("not a url") == Ok("not a url")
  {
    var host := "not a url";
    forall i | 0 <= i < |host| ensures host[i] !in NetlocDelims && host[i] != ':' && host[i] != ';' { }
    assert host + "" == host;
    HostOfRelativeUrl(host, "");
    EscapeUnknownHost();
  }

  lemma GetNetlocWithoutHost()
    ensures GetNetloc("") == Err(UnparsableUrl)
    ensures GetNetloc("/news/world") == Err(UnparsableUrl)
  {
    assert "" + "" == "";
    HostOfRelativeUrl("", "");
    var rest := "/news/world";
    assert rest[..2] != "//" by { assert rest[1] == 'n'; }
    assert "" + rest == rest;
    HostOfRelativeUrl("", rest);
  }
}
