/**
  `str(Endpoint)`: renders an endpoint as a URI, re-encoding its path
  (section 2.1 of RFC 3986), and the properties tying it to the parser and
  to endpoint equality.
*/
module Formatter {
  import opened Results
  import opened Strings
  import opened Endpoints
  import opened UriParser

  /** The port the text shows: a port the scheme already implies is left out. */
  function ShownPort(e: Endpoint): (p: Option<int>)
    ensures p.Some? ==> e.port == p && p != InferPort(e.protocol)
    ensures p.None? ==> e.port.None? || e.port == InferPort(e.protocol)
  {
    if e.port.Some? && e.port != InferPort(e.protocol) then e.port else None
  }

  /**
    The port is written exactly when leaving it out would change the
    endpoint, and the port written means the same endpoint.
  */
  lemma ShownPortOnlyWhenNeeded(e: Endpoint)
    ensures ShownPort(e).None? <==> SameEndpoint(e.(port := None), e)
    ensures SameEndpoint(e.(port := ShownPort(e)), e)
  {
  }

  function PortText(e: Endpoint): Option<string> {
    var p := ShownPort(e);
    if p.Some? then Some(IntToText(p.value)) else None
  }

  /** `/` and the re-encoded path; an empty path is dropped. */
  function PathText(e: Endpoint): string {
    if e.path.Some? && e.path.value != [] then "/" + PercentEncode(e.path.value) else ""
  }

  function HostText(e: Endpoint): string {
    if e.host.Some? then Lower(e.host.value) else ""
  }

  function AuthorityText(e: Endpoint): string {
    JoinAuthority(e.userinfo, HostText(e), PortText(e))
  }

  function TailText(e: Endpoint): string {
    JoinTail(PathText(e), e.query, e.fragment)
  }

  /**
    `str(Endpoint)`: the scheme in lower case followed by `://` only when
    there is one, then `userinfo@`, the lower-case host, `:port` unless the
    scheme implies it, `/path`, `?query` and `#fragment`.
  */
  function ToString(e: Endpoint): string {
    (if e.protocol.Some? then Lower(e.protocol.value) + "://" else "") + AuthorityText(e) + TailText(e)
  }

  // Formatting then parsing

  lemma LowerKeepsScheme(s: string)
    requires IsScheme(s)
    ensures IsScheme(Lower(s))
  {
  }

  lemma JoinHostPortAvoids(host: string, port: Option<string>, xs: set<char>)
    requires Avoids(host, xs) && (port.Some? ==> Avoids(port.value, xs))
    requires '[' !in xs && ']' !in xs && ':' !in xs
    ensures Avoids(JoinHostPort(host, port), xs)
  {
    var h := if NeedsBrackets(host) then "[" + host + "]" else host;
    AvoidsConcat("[", host, xs);
    AvoidsConcat("[" + host, "]", xs);
    if port.Some? {
      AvoidsConcat(":", port.value, xs);
      AvoidsConcat(h, ":" + port.value, xs);
    }
  }

  /** A host and a written port join into text free of separators that does not end in ':'. */
  lemma HostPortShape(host: string, port: Option<string>)
    requires host != [] && Avoids(host, {'/', '?', '#', '@'})
    requires port.Some? ==> port.value != [] && Avoids(port.value, {'/', '?', '#', '@'}) && port.value[|port.value| - 1] != ':'
    ensures var hp := JoinHostPort(host, port);
      hp != [] && Avoids(hp, {'/', '?', '#', '@'}) && hp[|hp| - 1] != ':'
  {
    var xs := {'/', '?', '#', '@'};
    JoinHostPortAvoids(host, port, xs);
  }

  /** The authority a canonical endpoint is written with: free of '/', '?' and '#', and not ending in ':'. */
  lemma AuthorityTextShape(e: Endpoint)
    requires Canonical(e) && e.host.Some?
    ensures var a := AuthorityText(e);
      a != [] && Avoids(a, AuthorityEnd) && a[|a| - 1] != ':'
    ensures Avoids(JoinHostPort(HostText(e), PortText(e)), {'@'})
  {
    var h := HostText(e);
    assert h == e.host.value;
    var port := PortText(e);
    HostPortShape(h, port);
    var hp := JoinHostPort(h, port);
    if e.userinfo.Some? {
      AvoidsConcat(e.userinfo.value, "@", AuthorityEnd);
      AvoidsConcat(e.userinfo.value + "@", hp, AuthorityEnd);
    }
  }

  lemma TailTextShape(e: Endpoint)
    ensures var t := TailText(e); t == [] || t[0] in AuthorityEnd
  {
  }

  /** The scheme is read back case-folded, and the rest splits at the end of the authority. */
  lemma SchemeReadBack(e: Endpoint)
    requires Canonical(e) && e.host.Some?
    ensures FromUri(ToString(e)) == FromParts(LowerOpt(e.protocol), AuthorityText(e), TailText(e))
  {
    AuthorityTextShape(e);
    TailTextShape(e);
    if e.protocol.Some? {
      LowerKeepsScheme(e.protocol.value);
      WrittenScheme(e);
      FromUriWithScheme(Lower(e.protocol.value), AuthorityText(e), TailText(e));
    } else {
      WithoutSchemeText(e);
      FromUriBare(AuthorityText(e), TailText(e));
    }
  }

  /** `ToString` with a scheme: the lower-case scheme, `://`, the authority and the tail. */
  lemma WrittenScheme(e: Endpoint)
    requires e.protocol.Some?
    ensures ToString(e) == Lower(e.protocol.value) + "://" + AuthorityText(e) + TailText(e)
  {
  }

  /** `ToString` without a scheme: the authority and the tail alone. */
  lemma WithoutSchemeText(e: Endpoint)
    requires e.protocol.None?
    ensures ToString(e) == AuthorityText(e) + TailText(e)
  {
    assert ToString(e) == "" + AuthorityText(e) + TailText(e);
    assert "" + AuthorityText(e) == AuthorityText(e);
  }

  /** The authority is read back as the userinfo, the host and the port the text shows. */
  lemma AuthorityReadBack(e: Endpoint)
    requires Canonical(e) && e.host.Some?
    ensures SplitAuthority(AuthorityText(e)) == Success((e.userinfo, e.host, ShownPort(e)))
  {
    AuthorityTextShape(e);
    var h := HostText(e);
    assert h == e.host.value;
    SplitJoinAuthority(e.userinfo, h, PortText(e));
    assert PortFromText(PortText(e).GetOr("")) == Success(ShownPort(e));
    assert NonEmpty(Lower(h)) == e.host;
    assert NonEmpty(Truncate(e.userinfo.GetOr(""), UserinfoLimit)) == e.userinfo;
  }

  /** The re-encoded path has no '?' or '#' and is decoded back to the stored path. */
  lemma PathReadBack(e: Endpoint)
    requires Canonical(e)
    ensures Avoids(PathText(e), {'?', '#'})
    ensures NormalizePath(PathText(e)) == e.path
  {
    if e.path.Some? {
      var encoded := PercentEncode(e.path.value);
      EncodeAvoids(e.path.value);
      AvoidsConcat("/", encoded, {'?', '#'});
      assert PathText(e)[1..] == encoded;
      DecodeEncode(e.path.value);
    }
  }

  /** The tail is read back as the path, the query and the fragment. */
  lemma TailReadBack(e: Endpoint)
    requires Canonical(e)
    ensures var (path, query, fragment) := SplitTail(TailText(e));
      && NormalizePath(path) == e.path
      && NonEmpty(Truncate(query, QueryLimit)) == e.query
      && NonEmpty(Truncate(fragment, FragmentLimit)) == e.fragment
  {
    PathReadBack(e);
    SplitJoinTail(PathText(e), e.query, e.fragment);
  }

  /**
    Formatting a canonical endpoint with a host and parsing the text gives
    the endpoint back, with only its scheme case-folded.
  */
  lemma {:induction false} FormatParseRoundTrip(e: Endpoint)
    requires Canonical(e) && e.host.Some?
    ensures FromUri(ToString(e)) == Success(e.(protocol := LowerOpt(e.protocol)))
  {
    SchemeReadBack(e);
    AuthorityReadBack(e);
    TailReadBack(e);
    // A port the text leaves out is inferred again from the scheme.
    InferPortIgnoresCase(e.protocol);
  }

  /**
    Normalise-then-format is stable: for every URI whose parse has a host,
    parsing its formatted text gives an equal endpoint that formats to the
    same text.
  */
  lemma ReparseIsStable(uri: string)
    requires FromUri(uri).Success? && FromUri(uri).value.host.Some?
    ensures var e := FromUri(uri).value;
      && FromUri(ToString(e)).Success?
      && FromUri(ToString(e)).value == e.(protocol := LowerOpt(e.protocol))
      && SameEndpoint(FromUri(ToString(e)).value, e)
      && ToString(FromUri(ToString(e)).value) == ToString(e)
  {
    var e := FromUri(uri).value;
    ParsedIsCanonical(uri);
    FormatParseRoundTrip(e);
    var e' := e.(protocol := LowerOpt(e.protocol));
    if e.protocol.Some? {
      LowerIdempotent(e.protocol.value);
    }
    InferPortIgnoresCase(e.protocol);
    assert IdentityOf(e') == IdentityOf(e);
    SameEndpointSameText(e', e);
  }

  // Formatting and equality

  /** Equal endpoints format to the same text. */
  lemma SameEndpointSameText(a: Endpoint, b: Endpoint)
    requires SameEndpoint(a, b)
    ensures ToString(a) == ToString(b)
  {
    InferPortIgnoresCase(a.protocol);
    InferPortIgnoresCase(b.protocol);
    assert InferPort(a.protocol) == InferPort(b.protocol);
    assert ShownPort(a) == ShownPort(b);
    assert HostText(a) == HostText(b);
  }
}
