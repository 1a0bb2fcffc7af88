/**
  `Endpoint.from_uri`: splits a URI into the components of section 3 of
  RFC 3986 and normalises them into an Endpoint.
*/
module UriParser {
  import opened Results
  import opened Strings
  import opened Endpoints

  /** Why a string is not a URI (the source raises a ValidationError). */
  datatype ParseError =
    | UnclosedBracket        // '[' opens an IPv6 literal that no ']' closes
    | TextAfterBracket       // an IPv6 literal followed by something other than ':port'
    | NonNumericPort(text: string)

  /** Characters that end the authority (section 3.2 of RFC 3986). */
  const AuthorityEnd: set<char> := {'/', '?', '#'}

  predicate IsSchemeChar(c: char) {
    IsAlpha(c) || IsDigit(c) || c == '+' || c == '-' || c == '.'
  }

  /** A scheme name: a letter followed by letters, digits, '+', '-' or '.' (section 3.1 of RFC 3986). */
  predicate IsScheme(t: string) {
    |t| > 0 && IsAlpha(t[0]) && forall i :: 0 <= i < |t| ==> IsSchemeChar(t[i])
  }

  /** `uri` opens with a scheme name and `://`. */
  predicate HasScheme(uri: string) {
    var c := IndexOfAny(uri, {':'});
    0 < c && IsScheme(uri[..c]) && c + 3 <= |uri| && uri[c + 1] == '/' && uri[c + 2] == '/'
  }

  /**
    Separates `scheme://` from the rest. Without a scheme, a leading `//`
    is dropped, and anything else is read as a bare `host[:port][/path]`.
  */
  function SplitScheme(uri: string): (r: (Option<string>, string))
    ensures r.0.Some? ==> IsScheme(r.0.value) && uri == r.0.value + "://" + r.1
    ensures r.0.None? ==> r.1 == uri || uri == "//" + r.1
  {
    if HasScheme(uri) then
      var c := IndexOfAny(uri, {':'});
      assert uri == uri[..c] + "://" + uri[c + 3..];
      (Some(uri[..c]), uri[c + 3..])
    else if |uri| >= 2 && uri[0] == '/' && uri[1] == '/' then
      assert uri == "//" + uri[2..];
      (None, uri[2..])
    else (None, uri)
  }

  /** The text after ':' in the authority: empty means no port, otherwise it must be an integer. */
  function PortFromText(t: string): (r: Result<Option<int>, ParseError>)
    ensures r.Success? && r.value.Some? ==> ParseInt(t) == Some(r.value.value)
    ensures r.Success? && r.value.None? <==> t == []
    ensures r.Failure? <==> t != [] && ParseInt(t).None?
  {
    if t == [] then Success(None)
    else match ParseInt(t)
      case Some(n) => Success(Some(n))
      case None => Failure(NonNumericPort(t))
  }

  /** The decimal text of any integer is read back as that port, and no text means no port. */
  lemma PortTextRoundTrip(n: int)
    ensures PortFromText(IntToText(n)) == Success(Some(n))
    ensures PortFromText("") == Success(None)
  {
  }

  /** Splits `host[:port]`, where the host may be an IPv6 literal in brackets (section 3.2.2 of RFC 3986). */
  function SplitHostPort(hp: string): Result<(string, Option<int>), ParseError> {
    if |hp| > 0 && hp[0] == '[' then
      var close := IndexOfAny(hp, {']'});
      if close == |hp| then Failure(UnclosedBracket)
      else if close + 1 == |hp| then Success((hp[1..close], None))
      else if hp[close + 1] == ':' then
        var port :- PortFromText(hp[close + 2..]);
        Success((hp[1..close], port))
      else Failure(TextAfterBracket)
    else
      var colon := IndexOfAny(hp, {':'});
      if colon == |hp| then Success((hp, None))
      else
        var port :- PortFromText(hp[colon + 1..]);
        Success((hp[..colon], port))
  }

  /**
    Splits `[userinfo@]host[:port]` (sections 3.2.1 and 3.2.3 of RFC 3986).
    The host cannot contain '@', so the last '@' ends the userinfo.
  */
  function SplitAuthority(a: string): Result<(Option<string>, Option<string>, Option<int>), ParseError> {
    var at := LastIndexOf(a, '@');
    var userinfo := if at.Some? then a[..at.value] else "";
    var hostPort := if at.Some? then a[at.value + 1..] else a;
    var hp :- SplitHostPort(hostPort);
    Success((NonEmpty(Truncate(userinfo, UserinfoLimit)), NonEmpty(Lower(hp.0)), hp.1))
  }

  /** Splits what follows the authority into raw path, query and fragment text. */
  function SplitTail(t: string): (r: (string, string, string))
    ensures Avoids(r.0, {'?', '#'}) && Avoids(r.1, {'#'})
  {
    var q := IndexOfAny(t, {'?', '#'});
    var (query, fragment) := QueryAndFragment(t[q..]);
    (t[..q], query, fragment)
  }

  /** Splits `?query#fragment`, either part possibly absent, into the query and the fragment text. */
  function QueryAndFragment(rest: string): (r: (string, string))
    ensures Avoids(r.0, {'#'})
  {
    var h := IndexOfAny(rest, {'#'});
    var query := if h > 0 then rest[1..h] else "";
    var fragment := if h < |rest| then rest[h + 1..] else "";
    (query, fragment)
  }

  /** Drops one leading '/', percent-decodes, truncates, and maps an empty path to unset. */
  function NormalizePath(raw: string): Option<string> {
    var rootless := if |raw| > 0 && raw[0] == '/' then raw[1..] else raw;
    NonEmpty(Truncate(PercentDecode(rootless), PathLimit))
  }

  /** Builds the endpoint from the scheme, the authority text and the text after it. */
  function FromParts(protocol: Option<string>, authority: string, tail: string): Result<Endpoint, ParseError> {
    var auth :- SplitAuthority(authority);
    var (path, query, fragment) := SplitTail(tail);
    Success(Endpoint(
      protocol,
      auth.0,
      auth.1,
      if auth.2.Some? then auth.2 else InferPort(protocol),
      NormalizePath(path),
      NonEmpty(Truncate(query, QueryLimit)),
      NonEmpty(Truncate(fragment, FragmentLimit)),
      None))
  }

  /** `Endpoint.from_uri`: a parse error for malformed authority text, the normalised endpoint otherwise. */
  function FromUri(uri: string): Result<Endpoint, ParseError> {
    var (protocol, rest) := SplitScheme(uri);
    var k := IndexOfAny(rest, AuthorityEnd);
    FromParts(protocol, rest[..k], rest[k..])
  }

  // The inverse shapes: how components are written so that the splitters above read them back.

  /** A host is written in brackets when it holds ':' (an IPv6 literal) or opens with '['. */
  predicate NeedsBrackets(host: string) {
    ':' in host || (|host| > 0 && host[0] == '[')
  }

  function JoinHostPort(host: string, port: Option<string>): string {
    (if NeedsBrackets(host) then "[" + host + "]" else host) + (if port.Some? then ":" + port.value else "")
  }

  function JoinAuthority(userinfo: Option<string>, host: string, port: Option<string>): string {
    (if userinfo.Some? then userinfo.value + "@" else "") + JoinHostPort(host, port)
  }

  /** `?query#fragment`, as `JoinTail` writes it after the path. */
  function QueryFragmentText(query: Option<string>, fragment: Option<string>): string {
    (if query.Some? then "?" + query.value else "") + (if fragment.Some? then "#" + fragment.value else "")
  }

  function JoinTail(path: string, query: Option<string>, fragment: Option<string>): string {
    path + QueryFragmentText(query, fragment)
  }

  lemma SplitHostPortPlain(host: string, port: Option<string>)
    requires Avoids(host, {':'}) && (host == [] || host[0] != '[')
    ensures SplitHostPort(host + (if port.Some? then ":" + port.value else ""))
         == (var p :- PortFromText(port.GetOr("")); Success((host, p)))
  {
    if port.Some? {
      SplitHostPortPlainWithPort(host, port.value);
    } else {
      assert host + "" == host;
      IndexOfAnyAt(host, "", {':'});
    }
  }

  lemma SplitHostPortPlainWithPort(host: string, port: string)
    requires Avoids(host, {':'}) && (host == [] || host[0] != '[')
    ensures SplitHostPort(host + (":" + port))
         == (var p :- PortFromText(port); Success((host, p)))
  {
    var hp := host + (":" + port);
    assert hp[0] != '[';
    IndexOfAnyAt(host, ":" + port, {':'});
    assert hp[..|host|] == host;
    assert hp[|host| + 1..] == port;
  }

  lemma SplitHostPortBracketed(host: string, port: Option<string>)
    requires Avoids(host, {']'})
    ensures SplitHostPort("[" + host + "]" + (if port.Some? then ":" + port.value else ""))
         == (var p :- PortFromText(port.GetOr("")); Success((host, p)))
  {
    var portPart := if port.Some? then ":" + port.value else "";
    var hp := "[" + host + "]" + portPart;
    assert hp[1..] == host + ("]" + portPart);
    IndexOfAnyAt(host, "]" + portPart, {']'});
    assert IndexOfAny(hp, {']'}) == 1 + |host|;
    assert hp[1..1 + |host|] == host;
    if port.Some? {
      assert hp[|host| + 3..] == port.value;
    }
  }

  /** `SplitHostPort` reads back the host and the port text that `JoinHostPort` wrote. */
  lemma SplitJoinHostPort(host: string, port: Option<string>)
    requires NeedsBrackets(host) ==> ']' !in host
    ensures SplitHostPort(JoinHostPort(host, port))
         == (var p :- PortFromText(port.GetOr("")); Success((host, p)))
  {
    if NeedsBrackets(host) {
      assert Avoids(host, {']'});
      SplitHostPortBracketed(host, port);
    } else {
      assert Avoids(host, {':'});
      SplitHostPortPlain(host, port);
    }
  }

  /** With a '@', the userinfo is everything before the last one. */
  lemma SplitAuthorityWithUser(userinfo: string, hp: string)
    requires '@' !in hp
    ensures SplitAuthority(userinfo + "@" + hp)
         == (var r :- SplitHostPort(hp); Success((NonEmpty(Truncate(userinfo, UserinfoLimit)), NonEmpty(Lower(r.0)), r.1)))
  {
    var a := userinfo + "@" + hp;
    assert a == userinfo + ['@'] + hp;
    LastIndexOfAt(userinfo, '@', hp);
    assert a[..|userinfo|] == userinfo;
    assert a[|userinfo| + 1..] == hp;
  }

  /** Without a '@', there is no userinfo. */
  lemma SplitAuthorityWithoutUser(hp: string)
    requires '@' !in hp
    ensures SplitAuthority(hp)
         == (var r :- SplitHostPort(hp); Success((None, NonEmpty(Lower(r.0)), r.1)))
  {
    LastIndexOfAbsent(hp, '@');
  }

  lemma JoinHostPortWithoutAt(host: string, port: Option<string>)
    requires '@' !in host && (port.Some? ==> '@' !in port.value)
    ensures '@' !in JoinHostPort(host, port)
  {
  }

  /** `SplitAuthority` reads back what `JoinAuthority` wrote, with the host case-folded. */
  lemma SplitJoinAuthority(userinfo: Option<string>, host: string, port: Option<string>)
    requires '@' !in host && (port.Some? ==> '@' !in port.value)
    requires NeedsBrackets(host) ==> ']' !in host
    ensures SplitAuthority(JoinAuthority(userinfo, host, port))
         == (var p :- PortFromText(port.GetOr(""));
             Success((NonEmpty(Truncate(userinfo.GetOr(""), UserinfoLimit)), NonEmpty(Lower(host)), p)))
  {
    var hp := JoinHostPort(host, port);
    JoinHostPortWithoutAt(host, port);
    SplitJoinHostPort(host, port);
    if userinfo.Some? {
      assert JoinAuthority(userinfo, host, port) == userinfo.value + "@" + hp;
      SplitAuthorityWithUser(userinfo.value, hp);
    } else {
      assert JoinAuthority(userinfo, host, port) == hp;
      SplitAuthorityWithoutUser(hp);
    }
  }

  /** The query and the fragment are read back from the text after the path. */
  lemma SplitQueryFragment(query: Option<string>, fragment: Option<string>)
    requires query.Some? ==> '#' !in query.value
    ensures var rest := QueryFragmentText(query, fragment);
      && (rest == [] || rest[0] in {'?', '#'})
      && QueryAndFragment(rest) == (query.GetOr(""), fragment.GetOr(""))
  {
    var qPart := if query.Some? then "?" + query.value else "";
    var fPart := if fragment.Some? then "#" + fragment.value else "";
    var rest := qPart + fPart;
    IndexOfAnyAt(qPart, fPart, {'#'});
    if query.Some? {
      assert rest[1..|qPart|] == query.value;
    }
    if fragment.Some? {
      assert rest[|qPart| + 1..] == fragment.value;
    }
  }

  /** `SplitTail` reads back the path, query and fragment that `JoinTail` wrote. */
  lemma SplitJoinTail(path: string, query: Option<string>, fragment: Option<string>)
    requires Avoids(path, {'?', '#'})
    requires query.Some? ==> '#' !in query.value
    ensures SplitTail(JoinTail(path, query, fragment)) == (path, query.GetOr(""), fragment.GetOr(""))
  {
    var rest := QueryFragmentText(query, fragment);
    var t := JoinTail(path, query, fragment);
    assert t == path + rest;
    SplitQueryFragment(query, fragment);
    IndexOfAnyAt(path, rest, {'?', '#'});
    assert t[..|path|] == path;
    assert t[|path|..] == rest;
  }

  /** Once the scheme is split off, the authority runs up to the first '/', '?' or '#'. */
  lemma FromUriOfSplit(uri: string, protocol: Option<string>, authority: string, tail: string)
    requires SplitScheme(uri) == (protocol, authority + tail)
    requires Avoids(authority, AuthorityEnd) && (tail == [] || tail[0] in AuthorityEnd)
    ensures FromUri(uri) == FromParts(protocol, authority, tail)
  {
    var rest := authority + tail;
    IndexOfAnyAt(authority, tail, AuthorityEnd);
    assert rest[..|authority|] == authority && rest[|authority|..] == tail;
  }

  lemma SplitSchemeWith(scheme: string, rest: string)
    requires IsScheme(scheme)
    ensures SplitScheme(scheme + "://" + rest) == (Some(scheme), rest)
  {
    var uri := scheme + "://" + rest;
    assert uri == scheme + (":" + "//" + rest);
    IndexOfAnyAt(scheme, ":" + "//" + rest, {':'});
    assert uri[..|scheme|] == scheme;
    assert HasScheme(uri);
    assert uri[|scheme| + 3..] == rest;
  }

  lemma SplitSchemeAfterSlashes(rest: string)
    ensures SplitScheme("//" + rest) == (None, rest)
  {
    var uri := "//" + rest;
    assert !HasScheme(uri) by {
      var c := IndexOfAny(uri, {':'});
      if 0 < c && c <= |uri| {
        assert uri[..c][0] == '/';
      }
    }
    assert uri[2..] == rest;
  }

  lemma SplitSchemeBare(authority: string, tail: string)
    requires authority != [] && Avoids(authority, AuthorityEnd) && authority[|authority| - 1] != ':'
    requires tail == [] || tail[0] in AuthorityEnd
    ensures SplitScheme(authority + tail) == (None, authority + tail)
  {
    var uri := authority + tail;
    assert uri[0] == authority[0];
    assert !HasScheme(uri) by {
      assert forall i :: 0 <= i < |authority| ==> uri[i] == authority[i];
      assert |authority| < |uri| ==> uri[|authority|] == tail[0];
    }
  }

  /** A URI with a scheme parses as its authority and tail. */
  lemma FromUriWithScheme(scheme: string, authority: string, tail: string)
    requires IsScheme(scheme) && Avoids(authority, AuthorityEnd)
    requires tail == [] || tail[0] in AuthorityEnd
    ensures FromUri(scheme + "://" + authority + tail) == FromParts(Some(scheme), authority, tail)
  {
    assert scheme + "://" + authority + tail == scheme + "://" + (authority + tail);
    SplitSchemeWith(scheme, authority + tail);
    FromUriOfSplit(scheme + "://" + authority + tail, Some(scheme), authority, tail);
  }

  /** A URI opening with `//` parses as its authority and tail, with no scheme. */
  lemma FromUriAfterSlashes(authority: string, tail: string)
    requires Avoids(authority, AuthorityEnd)
    requires tail == [] || tail[0] in AuthorityEnd
    ensures FromUri("//" + authority + tail) == FromParts(None, authority, tail)
  {
    assert "//" + authority + tail == "//" + (authority + tail);
    SplitSchemeAfterSlashes(authority + tail);
    FromUriOfSplit("//" + authority + tail, None, authority, tail);
  }

  /** A bare `host[:port]...` (no scheme, no `//`) whose authority does not end in ':' parses as itself. */
  lemma FromUriBare(authority: string, tail: string)
    requires authority != [] && Avoids(authority, AuthorityEnd) && authority[|authority| - 1] != ':'
    requires tail == [] || tail[0] in AuthorityEnd
    ensures FromUri(authority + tail) == FromParts(None, authority, tail)
  {
    SplitSchemeBare(authority, tail);
    FromUriOfSplit(authority + tail, None, authority, tail);
  }

  // What the parser produces

  /** The shape of every endpoint `FromUri` returns (`ParsedIsCanonical`). */
  predicate Canonical(e: Endpoint) {
    && e.product.None?
    && (e.protocol.Some? ==> IsScheme(e.protocol.value))
    && (e.port.None? ==> InferPort(e.protocol).None?)
    && (e.userinfo.Some? ==>
          var u := e.userinfo.value;
          u != [] && |u| <= UserinfoLimit && Avoids(u, AuthorityEnd))
    && (e.host.Some? ==>
          var h := e.host.value;
          h != [] && Lower(h) == h && Avoids(h, {'/', '?', '#', '@'})
          && (NeedsBrackets(h) ==> Avoids(h, {']'})))
    && (e.path.Some? ==> e.path.value != [] && |e.path.value| <= PathLimit)
    && (e.query.Some? ==>
          e.query.value != [] && |e.query.value| <= QueryLimit && Avoids(e.query.value, {'#'}))
    && (e.fragment.Some? ==> e.fragment.value != [] && |e.fragment.value| <= FragmentLimit)
  }

  /** Case folding keeps whether a host needs brackets, and keeps ']' out of it. */
  lemma LowerKeepsBrackets(h: string)
    ensures NeedsBrackets(Lower(h)) == NeedsBrackets(h)
    ensures Avoids(h, {']'}) ==> Avoids(Lower(h), {']'})
  {
    if ':' in Lower(h) {
      var i :| 0 <= i < |h| && Lower(h)[i] == ':';
      assert h[i] == ':';
    }
    if ':' in h {
      var i :| 0 <= i < |h| && h[i] == ':';
      assert Lower(h)[i] == ':';
    }
    if Avoids(h, {']'}) {
      LowerAvoids(h, {']'});
    }
  }

  /** The host `SplitHostPort` returns avoids what its input avoids, and brackets it needs are safe. */
  lemma HostOfSplit(hp: string, xs: set<char>)
    requires SplitHostPort(hp).Success? && Avoids(hp, xs)
    ensures var h := SplitHostPort(hp).value.0;
      Avoids(h, xs) && (NeedsBrackets(h) ==> Avoids(h, {']'}))
  {
    var h := SplitHostPort(hp).value.0;
    if |hp| > 0 && hp[0] == '[' {
      var close := IndexOfAny(hp, {']'});
      assert h == hp[1..close];
    } else {
      var colon := IndexOfAny(hp, {':'});
      assert h == hp[..colon];
      assert ':' !in h;
      assert h != [] ==> h[0] == hp[0];
    }
  }

  /** The text after the last '@' of an authority holds no '@' and no end-of-authority character. */
  lemma HostPortOfSplit(a: string)
    requires Avoids(a, AuthorityEnd)
    ensures var at := LastIndexOf(a, '@');
      Avoids(if at.Some? then a[at.value + 1..] else a, {'/', '?', '#', '@'})
  {
  }

  lemma UserinfoOfSplit(a: string)
    requires Avoids(a, AuthorityEnd)
    ensures var r := SplitAuthority(a);
      r.Success? && r.value.0.Some? ==>
        r.value.0.value != [] && |r.value.0.value| <= UserinfoLimit && Avoids(r.value.0.value, AuthorityEnd)
  {
    var at := LastIndexOf(a, '@');
    var userinfo := if at.Some? then a[..at.value] else "";
    assert Avoids(Truncate(userinfo, UserinfoLimit), AuthorityEnd);
  }

  lemma AuthorityOfSplit(a: string)
    requires SplitAuthority(a).Success? && Avoids(a, AuthorityEnd)
    ensures var r := SplitAuthority(a).value;
      && (r.0.Some? ==> r.0.value != [] && |r.0.value| <= UserinfoLimit && Avoids(r.0.value, AuthorityEnd))
      && (r.1.Some? ==>
            var h := r.1.value;
            h != [] && Lower(h) == h && Avoids(h, {'/', '?', '#', '@'})
            && (NeedsBrackets(h) ==> Avoids(h, {']'})))
  {
    UserinfoOfSplit(a);
    var at := LastIndexOf(a, '@');
    var hostPort := if at.Some? then a[at.value + 1..] else a;
    HostPortOfSplit(a);
    HostOfSplit(hostPort, {'/', '?', '#', '@'});
    var h := SplitHostPort(hostPort).value.0;
    LowerAvoids(h, {'/', '?', '#', '@'});
    LowerKeepsBrackets(h);
    LowerIdempotent(h);
  }

  /** Every endpoint the parser returns is canonical. */
  lemma ParsedIsCanonical(uri: string)
    requires FromUri(uri).Success?
    ensures Canonical(FromUri(uri).value)
  {
    var (protocol, rest) := SplitScheme(uri);
    var k := IndexOfAny(rest, AuthorityEnd);
    assert Avoids(rest[..k], AuthorityEnd);
    AuthorityOfSplit(rest[..k]);
    var (path, query, fragment) := SplitTail(rest[k..]);
    assert Avoids(Truncate(query, QueryLimit), {'#'});
  }
}
