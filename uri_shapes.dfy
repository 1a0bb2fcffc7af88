/**
  What `Endpoint.from_uri` returns for the URI shapes that occur in
  practice (and in the unit tests): a full URI with every component, a
  scheme and a host, a host and a port, and a host and a path, each with
  or without a scheme. Each lemma holds for all component texts that do
  not contain the separators of the components after them.
*/
module UriShapes {
  import opened Results
  import opened Strings
  import opened Endpoints
  import opened UriParser

  /** A host that is written as it is: non-empty, no separator, no ':' and no leading '['. */
  predicate PlainHost(host: string) {
    host != [] && Avoids(host, {'/', '?', '#', '@', ':'}) && host[0] != '['
  }

  /** Port text that cannot run into the path, the query or the fragment. */
  predicate PlainPortText(portText: string) {
    Avoids(portText, {'/', '?', '#', '@'})
  }

  // Authorities

  lemma HostAuthority(host: string)
    requires PlainHost(host)
    ensures Avoids(host, AuthorityEnd) && host[|host| - 1] != ':'
    ensures SplitAuthority(host) == Success((None, Some(Lower(host)), None))
  {
    assert !NeedsBrackets(host);
    assert JoinAuthority(None, host, None) == host;
    SplitJoinAuthority(None, host, None);
  }

  lemma HostPortAuthority(host: string, portText: string)
    requires PlainHost(host) && PlainPortText(portText)
    ensures Avoids(host + ":" + portText, AuthorityEnd)
    ensures SplitAuthority(host + ":" + portText)
         == (var p :- PortFromText(portText); Success((None, Some(Lower(host)), p)))
  {
    AvoidsConcat(host, ":", AuthorityEnd);
    AvoidsConcat(host + ":", portText, AuthorityEnd);
    assert !NeedsBrackets(host);
    assert JoinAuthority(None, host, Some(portText)) == host + ":" + portText;
    SplitJoinAuthority(None, host, Some(portText));
  }

  lemma UserHostPortAuthority(user: string, host: string, portText: string)
    requires Avoids(user, AuthorityEnd)
    requires Avoids(host, {'/', '?', '#', '@', ':'}) && (host == [] || host[0] != '[')
    requires PlainPortText(portText)
    ensures Avoids(user + "@" + host + ":" + portText, AuthorityEnd)
    ensures SplitAuthority(user + "@" + host + ":" + portText)
         == (var p :- PortFromText(portText);
             Success((NonEmpty(Truncate(user, UserinfoLimit)), NonEmpty(Lower(host)), p)))
  {
    AvoidsConcat(user, "@", AuthorityEnd);
    AvoidsConcat(user + "@", host, AuthorityEnd);
    AvoidsConcat(user + "@" + host, ":", AuthorityEnd);
    AvoidsConcat(user + "@" + host + ":", portText, AuthorityEnd);
    assert ':' !in host && '@' !in host && '@' !in portText;
    assert !NeedsBrackets(host);
    assert JoinHostPort(host, Some(portText)) == host + (":" + portText);
    assert user + "@" + host + ":" + portText == (user + "@") + (host + (":" + portText));
    assert user + "@" + host + ":" + portText == JoinAuthority(Some(user), host, Some(portText));
    SplitJoinAuthority(Some(user), host, Some(portText));
  }

  // Tails

  /** A path after the authority: one '/' is dropped and the rest percent-decoded. */
  lemma PathTail(path: string)
    requires Avoids(path, {'?', '#'})
    ensures SplitTail("/" + path) == ("/" + path, "", "")
    ensures NormalizePath("/" + path) == NonEmpty(Truncate(PercentDecode(path), PathLimit))
  {
    AvoidsConcat("/", path, {'?', '#'});
    assert JoinTail("/" + path, None, None) == "/" + path;
    SplitJoinTail("/" + path, None, None);
    assert ("/" + path)[1..] == path;
  }

  lemma PathQueryFragmentTail(path: string, query: string, fragment: string)
    requires Avoids(path, {'?', '#', '%'}) && Avoids(query, {'#'})
    ensures var (p, q, f) := SplitTail("/" + path + "?" + query + "#" + fragment);
      NormalizePath(p) == NonEmpty(Truncate(path, PathLimit)) && q == query && f == fragment
  {
    AvoidsConcat("/", path, {'?', '#'});
    assert "/" + path + "?" + query + "#" + fragment == JoinTail("/" + path, Some(query), Some(fragment));
    SplitJoinTail("/" + path, Some(query), Some(fragment));
    assert ("/" + path)[1..] == path;
    DecodeWithoutPercent(path);
  }

  lemma EveryPartRegroup(scheme: string, user: string, host: string, portText: string,
                         path: string, query: string, fragment: string)
    ensures scheme + "://" + user + "@" + host + ":" + portText + "/" + path + "?" + query + "#" + fragment
         == scheme + "://" + (user + "@" + host + ":" + portText) + ("/" + path + "?" + query + "#" + fragment)
  {
  }

  // Whole URIs

  /**
    `scheme://user@host:port/path?query#fragment`: every component is
    read back; the path, query and fragment are cut to their limits, and
    port text that is not an integer is a parse error.
  */
  lemma EveryPart(scheme: string, user: string, host: string, portText: string,
                  path: string, query: string, fragment: string)
    requires IsScheme(scheme) && Avoids(user, AuthorityEnd)
    requires Avoids(host, {'/', '?', '#', '@', ':'}) && (host == [] || host[0] != '[')
    requires PlainPortText(portText)
    requires Avoids(path, {'?', '#', '%'}) && Avoids(query, {'#'})
    ensures FromUri(scheme + "://" + user + "@" + host + ":" + portText + "/" + path + "?" + query + "#" + fragment)
         == (var p :- PortFromText(portText);
             Success(Endpoint(Some(scheme), NonEmpty(Truncate(user, UserinfoLimit)), NonEmpty(Lower(host)),
                              if p.Some? then p else InferPort(Some(scheme)),
                              NonEmpty(Truncate(path, PathLimit)), NonEmpty(Truncate(query, QueryLimit)),
                              NonEmpty(Truncate(fragment, FragmentLimit)), None)))
  {
    var a := user + "@" + host + ":" + portText;
    var t := "/" + path + "?" + query + "#" + fragment;
    EveryPartRegroup(scheme, user, host, portText, path, query, fragment);
    UserHostPortAuthority(user, host, portText);
    PathQueryFragmentTail(path, query, fragment);
    assert t[0] in AuthorityEnd;
    FromUriWithScheme(scheme, a, t);
  }

  /**
    `scheme://user@host:port/path?query#fragment` with an integer port and
    every component present: each is read back as written, cut to its limit.
  */
  lemma FullUri(scheme: string, user: string, host: string, port: int,
                path: string, query: string, fragment: string)
    requires IsScheme(scheme) && user != [] && Avoids(user, AuthorityEnd) && PlainHost(host)
    requires path != [] && Avoids(path, {'?', '#', '%'}) && query != [] && Avoids(query, {'#'}) && fragment != []
    ensures FromUri(scheme + "://" + user + "@" + host + ":" + IntToText(port) + "/" + path + "?" + query + "#" + fragment)
         == Success(Endpoint(Some(scheme), Some(Truncate(user, UserinfoLimit)), Some(Lower(host)), Some(port),
                             Some(Truncate(path, PathLimit)), Some(Truncate(query, QueryLimit)),
                             Some(Truncate(fragment, FragmentLimit)), None))
  {
    var portText := IntToText(port);
    assert PortFromText(portText) == Success(Some(port));
    assert Lower(host) != [];
    EveryPart(scheme, user, host, portText, path, query, fragment);
  }

  /** `scheme://host` and `scheme://host/`: no path, and the port the scheme implies, if any. */
  lemma SchemeHost(scheme: string, host: string, tail: string)
    requires IsScheme(scheme) && PlainHost(host) && (tail == "" || tail == "/")
    ensures FromUri(scheme + "://" + host + tail)
         == Success(Endpoint(Some(scheme), None, Some(Lower(host)), InferPort(Some(scheme)), None, None, None, None))
  {
    HostAuthority(host);
    FromUriWithScheme(scheme, host, tail);
    if tail == "/" {
      PathTail("");
    }
  }

  /** `scheme://host:port` and `scheme://host:port/`: the written port, which must be an integer. */
  lemma SchemeHostPort(scheme: string, host: string, portText: string, tail: string)
    requires IsScheme(scheme) && PlainHost(host) && PlainPortText(portText) && (tail == "" || tail == "/")
    ensures FromUri(scheme + "://" + (host + ":" + portText) + tail)
         == (var p :- PortFromText(portText);
             Success(Endpoint(Some(scheme), None, Some(Lower(host)), if p.Some? then p else InferPort(Some(scheme)),
                              None, None, None, None)))
  {
    HostPortAuthority(host, portText);
    FromUriWithScheme(scheme, host + ":" + portText, tail);
    if tail == "/" {
      PathTail("");
    }
  }

  /** `//host:port`: no scheme, so no userinfo and no port inference. */
  lemma SlashesHostPort(host: string, portText: string)
    requires PlainHost(host) && PlainPortText(portText)
    ensures FromUri("//" + (host + ":" + portText))
         == (var p :- PortFromText(portText);
             Success(Endpoint(None, None, Some(Lower(host)), p, None, None, None, None)))
  {
    HostPortAuthority(host, portText);
    assert "//" + (host + ":" + portText) == "//" + (host + ":" + portText) + "";
    FromUriAfterSlashes(host + ":" + portText, "");
  }

  /** `scheme://host/path`: the path is stored percent-decoded, without its '/'. */
  lemma SchemeHostPath(scheme: string, host: string, path: string)
    requires IsScheme(scheme) && PlainHost(host) && Avoids(path, {'?', '#'})
    ensures FromUri(scheme + "://" + host + ("/" + path))
         == Success(Endpoint(Some(scheme), None, Some(Lower(host)), InferPort(Some(scheme)),
                             NonEmpty(Truncate(PercentDecode(path), PathLimit)), None, None, None))
  {
    HostAuthority(host);
    PathTail(path);
    FromUriWithScheme(scheme, host, "/" + path);
  }

  /** `//host/path`: the same path, with no scheme and no port. */
  lemma SlashesHostPath(host: string, path: string)
    requires PlainHost(host) && Avoids(path, {'?', '#'})
    ensures FromUri("//" + host + ("/" + path))
         == Success(Endpoint(None, None, Some(Lower(host)), None,
                             NonEmpty(Truncate(PercentDecode(path), PathLimit)), None, None, None))
  {
    HostAuthority(host);
    PathTail(path);
    FromUriAfterSlashes(host, "/" + path);
  }
}
