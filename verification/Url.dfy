/** The URL splitter: the constructor of `Request`. */
module Url {
  import opened Text

  datatype Url = Url(scheme: string, domain: string, port: string, path: string)

  const SEPARATOR := "://"

  /** The scheme, and the text behind it. */
  function SplitScheme(url: string): (string, string) {
    match Find(url, SEPARATOR)
    case Some(i) => (url[..i], url[i + 3..])
    case None => ("http", url)
  }

  /** The text before the first `c`, and the text from there on. */
  function CutAt(s: string, c: char): (string, string) {
    match FindChar(s, c)
    case Some(i) => (s[..i], s[i..])
    case None => (s, "")
  }

  function ParseUrl(url: string): Url {
    var (scheme, rest) := SplitScheme(url);
    var (authority, path) := CutAt(CutAt(rest, '#').0, '/');
    var (domain, port) := CutAt(authority, ':');
    Url(scheme, domain, if port == "" then "80" else port[1..], if path == "" then "/" else path)
  }

  /** The constructor: the members are assigned and cut in place. */
  class Request {
    var scheme: string
    var domain: string
    var port: string
    var path: string

    ghost function View(): Url
      reads this
    {
      Url(scheme, domain, port, path)
    }

    constructor (url: string)
      ensures View() == ParseUrl(url)
    {
      scheme, domain, port, path := "http", "", "", url;
      new;
      hide CutAt, Find;
      var schemeEndPosition := Find(url, SEPARATOR);
      if schemeEndPosition.Some? {
        scheme := url[..schemeEndPosition.value];
        path := url[schemeEndPosition.value + 3..];
      }
      assert (scheme, path) == SplitScheme(url);
      CutPath();
      CutPort();
    }

    /** Removing the fragment, and separating the domain, still with its port, from the path. */
    method CutPath()
      modifies `path, `domain
      ensures var (authority, rest) := CutAt(CutAt(old(path), '#').0, '/');
              domain == authority && path == if rest == "" then "/" else rest
    {
      var fragmentPosition := FindChar(path, '#');
      if fragmentPosition.Some? {
        path := path[..fragmentPosition.value];
      }
      var pathPosition := FindChar(path, '/');
      if pathPosition.None? {
        domain := path;
        path := "/";
      } else {
        domain := path[..pathPosition.value];
        path := path[pathPosition.value..];
      }
    }

    method CutPort()
      modifies `port, `domain
      ensures var (name, rest) := CutAt(old(domain), ':');
              domain == name && port == if rest == "" then "80" else rest[1..]
    {
      var portPosition := FindChar(domain, ':');
      if portPosition.Some? {
        port := domain[portPosition.value + 1..];
        domain := domain[..portPosition.value];
      } else {
        port := "80";
      }
    }
  }

  function Print(u: Url): string {
    u.scheme + SEPARATOR + (u.domain + ":" + u.port + u.path)
  }

  /** Components that no separator breaks up. */
  predicate Canonical(u: Url) {
    && Find(u.scheme + SEPARATOR, SEPARATOR) == Some(|u.scheme|)
    && '/' !in u.domain && ':' !in u.domain && '#' !in u.domain
    && '/' !in u.port && '#' !in u.port
    && u.path != "" && u.path[0] == '/' && '#' !in u.path
  }

  lemma SchemeFound(url: string, i: nat)
    requires Find(url, SEPARATOR) == Some(i)
    ensures Find(url[..i] + SEPARATOR, SEPARATOR) == Some(i)
  {
    var front := url[..i] + SEPARATOR;
    assert url[i..i + 3] == SEPARATOR;
    assert At(front, SEPARATOR, i) by {
      assert front[i..i + 3] == SEPARATOR;
    }
    forall j | 0 <= j < i ensures !At(front, SEPARATOR, j) {
      assert !At(url, SEPARATOR, j);
      assert front == url[..i + 3];
      assert front[j..j + 3] == url[j..j + 3];
    }
  }

  lemma DefaultScheme()
    ensures Find("http" + SEPARATOR, SEPARATOR) == Some(4)
  {
    var s := "http" + SEPARATOR;
    assert At(s, SEPARATOR, 4);
    forall j | 0 <= j < 4 ensures !At(s, SEPARATOR, j) {
      StartsOtherwise(s, SEPARATOR, j);
    }
  }

  lemma SchemeIsFirst(url: string)
    ensures Find(SplitScheme(url).0 + SEPARATOR, SEPARATOR) == Some(|SplitScheme(url).0|)
  {
    match Find(url, SEPARATOR)
    case Some(i) => SchemeFound(url, i);
    case None => DefaultScheme();
  }

  lemma CutAtParts(s: string, c: char)
    ensures var (a, b) := CutAt(s, c); a + b == s && c !in a && (b != "" ==> b[0] == c)
  {
  }

  /** No character comes from nowhere. */
  lemma CutAtAvoids(s: string, c: char, avoided: char)
    requires avoided !in s
    ensures avoided !in CutAt(s, c).0 && avoided !in CutAt(s, c).1
  {
  }

  /** Every string splits into canonical components. */
  lemma ParseIsCanonical(url: string)
    ensures Canonical(ParseUrl(url))
  {
    SchemeIsFirst(url);
    var rest := SplitScheme(url).1;
    var front := CutAt(rest, '#').0;
    var (authority, path) := CutAt(front, '/');
    CutAtParts(rest, '#');
    CutAtParts(front, '/');
    CutAtAvoids(front, '/', '#');
    CutAtParts(authority, ':');
    CutAtAvoids(authority, ':', '#');
    CutAtAvoids(authority, ':', '/');
  }

  lemma CutAtSeparator(a: string, c: char, b: string)
    requires c !in a && b != "" && b[0] == c
    ensures CutAt(a + b, c) == (a, b)
  {
    assert a + b == a + [c] + b[1..];
    FindCharAfter(a, c, b[1..]);
  }

  lemma CutAtNothing(s: string, c: char)
    requires c !in s
    ensures CutAt(s, c) == (s, "")
  {
  }

  lemma PrintedScheme(scheme: string, rest: string)
    requires Find(scheme + SEPARATOR, SEPARATOR) == Some(|scheme|)
    ensures SplitScheme(scheme + SEPARATOR + rest) == (scheme, rest)
  {
    FindExtend(scheme + SEPARATOR, rest, SEPARATOR);
    var url := scheme + SEPARATOR + rest;
    assert url[..|scheme|] == scheme && url[|scheme| + 3..] == rest;
  }

  /** Canonical components survive printing and splitting. */
  lemma PrintParse(u: Url)
    requires Canonical(u)
    ensures ParseUrl(Print(u)) == u
  {
    var port := ":" + u.port;
    var authority := u.domain + port;
    assert u.domain + ":" + u.port == authority;
    PrintedScheme(u.scheme, authority + u.path);
    CutAtNothing(authority + u.path, '#');
    CutAtSeparator(authority, '/', u.path);
    CutAtSeparator(u.domain, ':', port);
    assert port[1..] == u.port;
  }

  /** Splitting is a fixpoint: the printed components of any string split into themselves. */
  lemma Fixpoint(url: string)
    ensures ParseUrl(Print(ParseUrl(url))) == ParseUrl(url)
  {
    ParseIsCanonical(url);
    PrintParse(ParseUrl(url));
  }

  /** The results of the splitter are exactly the canonical components. */
  lemma Image(u: Url)
    ensures (exists url :: ParseUrl(url) == u) <==> Canonical(u)
  {
    if Canonical(u) {
      PrintParse(u);
    }
    forall url | ParseUrl(url) == u ensures Canonical(u) {
      ParseIsCanonical(url);
    }
  }

  // URLs with parts left out

  function Or(part: Option<string>, default: string): string {
    match part
    case Some(text) => text
    case None => default
  }

  function Optional(before: string, part: Option<string>): string {
    match part
    case Some(text) => before + text
    case None => ""
  }

  lemma CutAtOptional(a: string, c: char, part: Option<string>)
    requires c !in a
    ensures CutAt(a + Optional([c], part), c) == (a, Optional([c], part))
  {
    match part
    case Some(text) => CutAtSeparator(a, c, [c] + text);
    case None => assert a + "" == a; CutAtNothing(a, c);
  }

  lemma RestParses(domain: string, port: Option<string>, path: string, fragment: Option<string>)
    requires ':' !in domain && '/' !in domain && '#' !in domain
    requires port.Some? ==> '/' !in port.value && '#' !in port.value
    requires '#' !in path && (path != "" ==> path[0] == '/')
    ensures var rest := domain + Optional(":", port) + path + Optional("#", fragment);
            CutAt(CutAt(rest, '#').0, '/') == (domain + Optional(":", port), path)
    ensures CutAt(domain + Optional(":", port), ':') == (domain, Optional(":", port))
  {
    hide CutAt, FindChar;
    var authority := domain + Optional(":", port);
    CutAtOptional(authority + path, '#', fragment);
    CutAtOptional(domain, ':', port);
    if path == "" {
      assert authority + path == authority;
      CutAtNothing(authority, '/');
    } else {
      CutAtSeparator(authority, '/', path);
    }
  }

  /** A URL written from its parts, those in brackets optional: [scheme://]domain[:port][/path][#fragment].
      Without a scheme it is http, without a port 80, without a path /, and the fragment is dropped. */
  lemma PartsParse(scheme: Option<string>, domain: string, port: Option<string>, path: string, fragment: Option<string>)
    requires ':' !in domain && '/' !in domain && '#' !in domain
    requires port.Some? ==> '/' !in port.value && '#' !in port.value
    requires '#' !in path && (path != "" ==> path[0] == '/')
    requires var rest := domain + Optional(":", port) + path + Optional("#", fragment);
             if scheme.Some? then Find(scheme.value + "://", "://") == Some(|scheme.value|) else !Contains(rest, "://")
    ensures var rest := domain + Optional(":", port) + path + Optional("#", fragment);
            var url := match scheme { case Some(text) => text + "://" + rest case None => rest };
            ParseUrl(url) == Url(Or(scheme, "http"), domain, Or(port, "80"), if path == "" then "/" else path)
  {
    hide CutAt, Find, Contains;
    var rest := domain + Optional(":", port) + path + Optional("#", fragment);
    RestParses(domain, port, path, fragment);
    if scheme.Some? {
      PrintedScheme(scheme.value, rest);
    }
    match port
    case Some(text) => assert (":" + text)[1..] == text;
    case None =>
  }
}
