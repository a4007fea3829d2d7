/**
 * `Uri::UriParser::parse` (src/http/uri_parser.cpp): splits an `http` or
 * `https` URI into scheme, domain, port and path, the subset of the generic
 * syntax of RFC 3986, section 3, that the HTTP client needs.  The whole text
 * is lower-cased first; the scheme must be exactly the text before the first
 * `"://"`; the authority runs to the first `'/'` after it and the path is the
 * rest, query included; a `':'` at a positive index of the authority
 * separates an explicit port.  Indices that the source passes to
 * `String::substring` as `unsigned int` go through `Unsigned`, so a missing
 * `'/'` (index -1) means "to the end".
 */
module Uri {
  import opened Arduino
  import opened Wrappers

  datatype Scheme = Http | Https

  /** The parser's output structure; `port` is an `int` in the source. */
  datatype Uri = Uri(scheme: Scheme, domain: string, path: string, port: int)

  function SchemeName(s: Scheme): string
  {
    match s
    case Http => "http"
    case Https => "https"
  }

  function DefaultPort(s: Scheme): int
  {
    match s
    case Http => 80
    case Https => 443
  }

  predicate HasPrefix(s: string, prefix: string)
  {
    |prefix| <= |s| && s[..|prefix|] == prefix
  }

  /** The scheme accepted for the lower-cased text: the first `"://"` must follow `http` or `https`. */
  function SchemeOf(uri: string): Option<Scheme>
  {
    var authorityOffset := IndexOf(uri, "://");
    if authorityOffset == 4 && Substring(uri, 0, 4) == "http" then Some(Http)
    else if authorityOffset == 5 && Substring(uri, 0, 5) == "https" then Some(Https)
    else None
  }

  /** Where the authority starts, just after `"://"`. */
  function AuthorityStart(s: Scheme): nat
  {
    |SchemeName(s)| + 3
  }

  /** `uri.substring(start, pathOffset)` with `pathOffset = uri.indexOf("/", start)`. */
  function Authority(uri: string, start: nat): string
  {
    Substring(uri, start, Unsigned(IndexOfFrom(uri, "/", start)))
  }

  /** `uri.substring(pathOffset, uri.length())`. */
  function PathPart(uri: string, start: nat): string
  {
    Substring(uri, Unsigned(IndexOfFrom(uri, "/", start)), |uri|)
  }

  /** The source takes an explicit port when `authority.indexOf(":") > 0`. */
  predicate ExplicitPort(authority: string)
  {
    IndexOf(authority, ":") > 0
  }

  /** `authority.substring(0, portOffset)` with an explicit port, else the whole authority. */
  function DomainOf(authority: string): string
  {
    var portOffset := IndexOf(authority, ":");
    if portOffset > 0 then Substring(authority, 0, portOffset) else authority
  }

  /** `authority.substring(portOffset + 1, authority.length())`, the text after the port separator. */
  function PortText(authority: string): string
    requires ExplicitPort(authority)
  {
    Substring(authority, IndexOf(authority, ":") + 1, |authority|)
  }

  /** `toInt()` of the port text with an explicit port, else the scheme's default. */
  function PortOf(authority: string, scheme: Scheme): int
  {
    if ExplicitPort(authority) then Atol(PortText(authority)) else DefaultPort(scheme)
  }

  /** The fields `parse` fills in once the scheme is accepted. */
  function Components(uri: string, scheme: Scheme): Uri
  {
    var start := AuthorityStart(scheme);
    var authority := Authority(uri, start);
    Uri(scheme, DomainOf(authority), PathPart(uri, start), PortOf(authority, scheme))
  }

  /** `UriParser::parse`: `None` where the source returns false. */
  function Parse(text: string): Option<Uri>
  {
    var uri := ToLower(text);
    match SchemeOf(uri)
    case None => None
    case Some(scheme) => Some(Components(uri, scheme))
  }

  // ---------------------------------------------------------------------------
  // The scheme

  lemma SchemeNameNoColon(s: Scheme)
    ensures NoChar(SchemeName(s), ':')
  {
  }

  /** The scheme is accepted exactly when the text starts with `http://` or `https://`. */
  lemma SchemeOfPrefix(uri: string, s: Scheme)
    ensures SchemeOf(uri) == Some(s) <==> HasPrefix(uri, SchemeName(s) + "://")
  {
    var name := SchemeName(s);
    var offset := IndexOf(uri, "://");
    if HasPrefix(uri, name + "://") {
      assert OccursAt(uri, "://", |name|) by {
        assert uri[|name|..|name| + 3] == (name + "://")[|name|..];
      }
      forall j | 0 <= j < |name|
        ensures !OccursAt(uri, "://", j)
      {
        assert uri[j] == (name + "://")[j] == name[j];
        NotOccursAt(uri, "://", j);
      }
      IndexOfFromFirst(uri, "://", 0, |name|);
      assert uri[..|name|] == (name + "://")[..|name|];
    }
    if SchemeOf(uri) == Some(s) {
      assert 0 <= offset && OccursAt(uri, "://", offset);
      assert uri[..|name|] == name;
      assert uri[|name|..|name| + 3] == "://";
      assert uri[..|name| + 3] == uri[..|name|] + uri[|name|..|name| + 3];
    }
  }

  /** `parse` succeeds exactly when the scheme of the lower-cased text is accepted, and keeps that scheme. */
  lemma ParseScheme(text: string)
    ensures Parse(text).Some? <==> SchemeOf(ToLower(text)).Some?
    ensures Parse(text).Some? ==> Parse(text).value.scheme == SchemeOf(ToLower(text)).value
  {
  }

  /** The accepted schemes, read off the lower-cased text. */
  lemma SchemeAccepted(lower: string)
    ensures SchemeOf(lower).Some? <==> HasPrefix(lower, "http://") || HasPrefix(lower, "https://")
    ensures SchemeOf(lower).Some? ==> SchemeOf(lower).value == if HasPrefix(lower, "http://") then Http else Https
  {
    SchemeOfPrefix(lower, Http);
    SchemeOfPrefix(lower, Https);
  }

  /**
   * `parse` fails unless the lower-cased text starts with `http://` or
   * `https://`, and the scheme it reports is the one the text starts with.
   */
  lemma ParseAcceptsScheme(text: string)
    ensures Parse(text).Some? <==>
      HasPrefix(ToLower(text), "http://") || HasPrefix(ToLower(text), "https://")
    ensures Parse(text).Some? ==>
      Parse(text).value.scheme == if HasPrefix(ToLower(text), "http://") then Http else Https
  {
    ParseScheme(text);
    SchemeAccepted(ToLower(text));
  }

  /** Upper and lower case are the same to the parser. */
  lemma ParseIgnoresCase(text: string)
    ensures Parse(ToLower(text)) == Parse(text)
  {
    ToLowerHasNoUpper(text);
    ToLowerOfLower(ToLower(text));
  }

  // ---------------------------------------------------------------------------
  // Authority, path and port

  /** The authority runs up to the first `'/'` from `start` on, and the path is the rest. */
  lemma SplitAtPath(uri: string, start: nat)
    requires start <= |uri| < Uint32Modulus
    ensures uri[start..] == Authority(uri, start) + PathPart(uri, start)
    ensures NoChar(Authority(uri, start), '/')
    ensures PathPart(uri, start) == [] || PathPart(uri, start)[0] == '/'
    ensures PathPart(uri, start) == [] <==> NoChar(uri[start..], '/')
  {
    var p := IndexOfFrom(uri, "/", start);
    IndexOfCharFrom(uri, '/', start);
    if p == -1 {
      assert Authority(uri, start) == uri[start..];
      assert PathPart(uri, start) == [];
    } else {
      assert Authority(uri, start) == uri[start..p];
      assert PathPart(uri, start) == uri[p..];
      assert uri[start..] == uri[start..p] + uri[p..];
      assert uri[p..][0] == '/';
    }
  }

  /**
   * An explicit port is taken exactly when the authority is not empty, does not
   * start with `':'` and holds a `':'`; then the authority is the domain, the
   * `':'` and the port text, and the domain holds no `':'`.
   */
  lemma PortSplit(authority: string)
    ensures ExplicitPort(authority) <==>
      |authority| > 0 && authority[0] != ':' && !NoChar(authority, ':')
    ensures ExplicitPort(authority) ==>
      var k := IndexOf(authority, ":");
      && authority == Substring(authority, 0, k) + ":" + Substring(authority, k + 1, |authority|)
      && |Substring(authority, 0, k)| > 0
      && NoChar(Substring(authority, 0, k), ':')
  {
    IndexOfCharFrom(authority, ':', 0);
    var k := IndexOf(authority, ":");
    if ExplicitPort(authority) {
      assert Substring(authority, 0, k) == authority[..k];
      assert Substring(authority, k + 1, |authority|) == authority[k + 1..];
      assert authority == authority[..k] + [authority[k]] + authority[k + 1..];
    }
  }

  /**
   * What `parse` returns, described from the text: the lower-cased text is the
   * scheme, `"://"`, an authority without `'/'` and the path; the path is empty
   * or starts with `'/'`; and domain and port come from the authority, with the
   * scheme's default port when there is no explicit one.
   */
  lemma ParseStructure(text: string)
    requires |text| < Uint32Modulus
    requires Parse(text).Some?
    ensures var u := Parse(text).value;
      var lower := ToLower(text);
      var authority := Authority(lower, AuthorityStart(u.scheme));
      && lower == SchemeName(u.scheme) + "://" + authority + u.path
      && NoChar(authority, '/')
      && (u.path == [] || u.path[0] == '/')
      && (u.path == [] <==> NoChar(lower[AuthorityStart(u.scheme)..], '/'))
      && (if ExplicitPort(authority) then
            && authority == u.domain + ":" + PortText(authority)
            && |u.domain| > 0 && NoChar(u.domain, ':')
            && u.port == Atol(PortText(authority))
          else
            u.domain == authority && u.port == DefaultPort(u.scheme))
  {
    var u := Parse(text).value;
    ParseIsComponents(text);
    ComponentsStructure(ToLower(text), u.scheme);
    PortStructure(Authority(ToLower(text), AuthorityStart(u.scheme)), u.scheme);
  }

  /** A successful `parse` is `Components` of the lower-cased text, which starts with the scheme and `"://"`. */
  lemma ParseIsComponents(text: string)
    requires Parse(text).Some?
    ensures var s := Parse(text).value.scheme;
      Parse(text).value == Components(ToLower(text), s) && HasPrefix(ToLower(text), SchemeName(s) + "://")
  {
    SchemeOfPrefix(ToLower(text), Parse(text).value.scheme);
  }

  /** The text is the scheme, `"://"`, the authority and the path. */
  lemma ComponentsStructure(lower: string, s: Scheme)
    requires HasPrefix(lower, SchemeName(s) + "://") && |lower| < Uint32Modulus
    ensures var u := Components(lower, s);
      var authority := Authority(lower, AuthorityStart(s));
      && lower == SchemeName(s) + "://" + authority + u.path
      && NoChar(authority, '/')
      && (u.path == [] || u.path[0] == '/')
      && (u.path == [] <==> NoChar(lower[AuthorityStart(s)..], '/'))
  {
    var start := AuthorityStart(s);
    SplitAtPath(lower, start);
    assert lower == lower[..start] + lower[start..];
  }

  /** Domain and port as the authority gives them. */
  lemma PortStructure(authority: string, s: Scheme)
    ensures if ExplicitPort(authority) then
              && authority == DomainOf(authority) + ":" + PortText(authority)
              && |DomainOf(authority)| > 0 && NoChar(DomainOf(authority), ':')
              && PortOf(authority, s) == Atol(PortText(authority))
            else
              DomainOf(authority) == authority && PortOf(authority, s) == DefaultPort(s)
  {
    PortSplit(authority);
  }

  /** The domain and the path never hold an upper-case letter. */
  lemma ParseLowercase(text: string)
    requires Parse(text).Some?
    ensures NoUpper(Parse(text).value.domain) && NoUpper(Parse(text).value.path)
  {
    var lower := ToLower(text);
    ToLowerHasNoUpper(text);
    var u := Parse(text).value;
    var start := AuthorityStart(u.scheme);
    var authority := Authority(lower, start);
    SubstringNoUpper(lower, start, Unsigned(IndexOfFrom(lower, "/", start)));
    SubstringNoUpper(lower, Unsigned(IndexOfFrom(lower, "/", start)), |lower|);
    if ExplicitPort(authority) {
      SubstringNoUpper(authority, 0, IndexOf(authority, ":"));
    }
  }

  lemma SubstringNoUpper(s: string, left: nat, right: nat)
    requires NoUpper(s)
    ensures NoUpper(Substring(s, left, right))
  {
  }

  // ---------------------------------------------------------------------------
  // Printing a URI and parsing it back

  /** A URI that the parser gives back unchanged from its printed form. */
  predicate WellFormed(u: Uri)
  {
    && |u.domain| > 0 && NoUpper(u.domain) && NoChar(u.domain, '/') && NoChar(u.domain, ':')
    && NoUpper(u.path) && (u.path == [] || u.path[0] == '/')
    && u.port >= 0
  }

  /** `scheme://domain:port/path`. */
  function Format(u: Uri): string
    requires u.port >= 0
  {
    SchemeName(u.scheme) + "://" + u.domain + ":" + Decimal(u.port) + u.path
  }

  /** `scheme://domain/path`, leaving the port to the scheme. */
  function FormatDefaultPort(u: Uri): string
  {
    SchemeName(u.scheme) + "://" + u.domain + u.path
  }

  /** Text after `"://"` made of an authority without `'/'` and a path splits back into the two. */
  lemma AuthorityAndPath(uri: string, start: nat, authority: string, path: string)
    requires start <= |uri| < Uint32Modulus && uri[start..] == authority + path
    requires NoChar(authority, '/') && (path == [] || path[0] == '/')
    ensures Authority(uri, start) == authority && PathPart(uri, start) == path
  {
    IndexOfCharFrom(uri, '/', start);
    if path == [] {
      AuthorityOnly(uri, start, authority);
    } else {
      AuthorityThenPath(uri, start, authority, path);
    }
  }

  lemma AuthorityOnly(uri: string, start: nat, authority: string)
    requires start <= |uri| < Uint32Modulus && uri[start..] == authority && NoChar(authority, '/')
    ensures Authority(uri, start) == authority && PathPart(uri, start) == []
  {
    IndexOfCharFrom(uri, '/', start);
    assert forall j :: start <= j < |uri| ==> uri[j] == authority[j - start];
    assert IndexOfFrom(uri, "/", start) == -1;
  }

  lemma AuthorityThenPath(uri: string, start: nat, authority: string, path: string)
    requires start <= |uri| < Uint32Modulus && uri[start..] == authority + path
    requires NoChar(authority, '/') && path != [] && path[0] == '/'
    ensures Authority(uri, start) == authority && PathPart(uri, start) == path
  {
    IndexOfCharFrom(uri, '/', start);
    var p := start + |authority|;
    assert uri[p] == path[0];
    assert forall j :: start <= j < p ==> uri[j] == authority[j - start];
    assert IndexOfFrom(uri, "/", start) == p;
    assert uri[start..p] == authority;
    assert uri[p..] == path;
  }

  /** The fields of a URI whose text after `"://"` is an authority without `'/'` and a path. */
  lemma ComponentsOfParts(uri: string, s: Scheme, authority: string, path: string)
    requires AuthorityStart(s) <= |uri| < Uint32Modulus && uri[AuthorityStart(s)..] == authority + path
    requires NoChar(authority, '/') && (path == [] || path[0] == '/')
    ensures Components(uri, s) == Uri(s, DomainOf(authority), path, PortOf(authority, s))
  {
    AuthorityAndPath(uri, AuthorityStart(s), authority, path);
  }

  /** `parse` of a lower-case text whose scheme is accepted. */
  lemma ParseOfLower(text: string, s: Scheme)
    requires ToLower(text) == text && SchemeOf(text) == Some(s)
    ensures Parse(text) == Some(Components(text, s))
  {
  }

  /** A text that starts with a scheme and `"://"`. */
  lemma SchemeLayout(text: string, s: Scheme, rest: string)
    requires text == SchemeName(s) + "://" + rest
    ensures HasPrefix(text, SchemeName(s) + "://") && text[AuthorityStart(s)..] == rest
  {
    assert text[..|SchemeName(s) + "://"|] == SchemeName(s) + "://";
  }

  /** `parse` of lower-case text laid out as scheme, `"://"`, authority and path. */
  lemma ParseHead(text: string, s: Scheme, authority: string, path: string)
    requires text == SchemeName(s) + "://" + authority + path
    requires NoUpper(text) && NoChar(authority, '/') && (path == [] || path[0] == '/')
    requires |text| < Uint32Modulus
    ensures Parse(text) == Some(Uri(s, DomainOf(authority), path, PortOf(authority, s)))
  {
    ToLowerOfLower(text);
    SchemeLayout(text, s, authority + path);
    SchemeOfPrefix(text, s);
    ParseOfLower(text, s);
    ComponentsOfParts(text, s, authority, path);
  }

  /** An authority `domain:text` with a colon-free, nonempty domain splits at that colon. */
  lemma SplitPortText(domain: string, text: string)
    requires |domain| > 0 && NoChar(domain, ':')
    ensures ExplicitPort(domain + ":" + text)
    ensures DomainOf(domain + ":" + text) == domain
    ensures PortText(domain + ":" + text) == text
  {
    var authority := domain + ":" + text;
    IndexOfCharFrom(authority, ':', 0);
    assert authority[|domain|] == ':';
    assert forall j :: 0 <= j < |domain| ==> authority[j] == domain[j];
    assert IndexOf(authority, ":") == |domain|;
    assert authority[..|domain|] == domain;
    assert authority[|domain| + 1..] == text;
  }

  /** Printing a well-formed URI with its port and parsing it back gives the URI. */
  lemma ParseFormat(u: Uri)
    requires WellFormed(u) && |Format(u)| < Uint32Modulus
    ensures Parse(Format(u)) == Some(u)
  {
    var text := Format(u);
    var authority := u.domain + ":" + Decimal(u.port);
    DigitsHaveNoUpper(Decimal(u.port));
    assert text == SchemeName(u.scheme) + "://" + authority + u.path;
    assert NoChar(authority, '/') by {
      assert forall j :: |u.domain| < j < |authority| ==> authority[j] == Decimal(u.port)[j - |u.domain| - 1];
    }
    ParseHead(text, u.scheme, authority, u.path);
    SplitPortText(u.domain, Decimal(u.port));
    AtolOfDecimal(u.port, []);
    assert Decimal(u.port) + [] == Decimal(u.port);
  }

  /** Without a port in the text, the scheme's default port is used. */
  lemma ParseFormatDefaultPort(u: Uri)
    requires WellFormed(u) && |FormatDefaultPort(u)| < Uint32Modulus
    ensures Parse(FormatDefaultPort(u)) == Some(u.(port := DefaultPort(u.scheme)))
  {
    var text := FormatDefaultPort(u);
    ParseHead(text, u.scheme, u.domain, u.path);
    IndexOfCharFrom(u.domain, ':', 0);
  }

  // ---------------------------------------------------------------------------
  // Consequences of the code as written

  /** A `':'` at the very start of the authority is not a port separator: it stays in the domain. */
  lemma LeadingColonStaysInDomain()
    ensures Parse("http://:8080/x") == Some(Uri(Http, ":8080", "/x", 80))
  {
    var text := "http://:8080/x";
    ParseHead(text, Http, ":8080", "/x");
    IndexOfCharFrom(":8080", ':', 0);
  }

  /** An empty port text reads as port 0. */
  lemma EmptyPortIsZero()
    ensures Parse("https://host:") == Some(Uri(Https, "host", "", 0))
  {
    SplitPortText("host", "");
    assert "host" + ":" + "" == "host:";
    assert Atol("") == 0;
    ParseHead("https://host:", Https, "host:", "");
  }
}
