/**
  The behaviour the endpoint unit tests assert, as lemmas about the model.
  URIs are written as the concatenation of their components, which is the
  same text as the test's literal.
*/
module EndpointExamples {
  import opened Results
  import opened Strings
  import opened Endpoints
  import opened UriParser
  import opened UriShapes
  import opened Formatter
  import opened Validator

  // Concrete facts about the schemes and hosts the tests use

  lemma HttpImplies80()
    ensures InferPort(Some("http")) == Some(80)
  {
    assert Lower("http") == "http";
    assert "http" in WellKnownPorts;
    assert WellKnownPorts["http"] == 80;
  }

  lemma HttpsImplies443()
    ensures InferPort(Some("https")) == Some(443)
  {
    assert Lower("https") == "https";
    assert "https" in WellKnownPorts;
    assert WellKnownPorts["https"] == 443;
  }

  /** Every scheme with a well-known port has a name of at most six characters. */
  lemma WellKnownSchemesAreShort()
    ensures forall k :: k in WellKnownPorts ==> |k| <= 6
  {
  }

  /** The unknown scheme of the test is already in lower case. */
  lemma UnknownSchemeIsLower()
    ensures Lower("this-scheme-is-unknown") == "this-scheme-is-unknown"
  {
  }

  lemma UnknownSchemeImpliesNothing()
    ensures IsScheme("this-scheme-is-unknown")
    ensures InferPort(Some("this-scheme-is-unknown")).None?
  {
    UnknownSchemeIsLower();
    WellKnownSchemesAreShort();
    assert |"this-scheme-is-unknown"| > 6;
  }

  lemma ServerHost()
    ensures PlainHost("123_server") && Lower("123_server") == "123_server" && IsHostname("123_server")
  {
  }

  lemma InvalidHostName()
    ensures IsHostname("_invalid._host.com")
  {
    assert IsHostname("_invalid") && IsHostname("_host") && IsHostname("com");
    HostnameJoin("_invalid", "_host");
    HostnameJoin("_invalid" + "." + "_host", "com");
    assert "_invalid" + "." + "_host" + "." + "com" == "_invalid._host.com";
  }

  lemma UnderscoreHosts()
    ensures PlainHost("123_server") && Lower("123_server") == "123_server"
    ensures IsHostname("123_server") && IsHostname("456_desktop") && IsHostname("_invalid._host.com")
  {
    ServerHost();
    InvalidHostName();
  }

  lemma FooBarHost()
    ensures PlainHost("foo.bar") && Lower("foo.bar") == "foo.bar"
  {
  }

  lemma LargePortText()
    ensures IntToText(66666) == "66666"
  {
    assert NatToText(6) == "6";
    assert NatToText(66) == "66";
    assert NatToText(666) == "666";
    assert NatToText(6666) == "6666";
  }

  lemma LoopbackHost()
    ensures PlainHost("127.0.0.1") && Lower("127.0.0.1") == "127.0.0.1" && IsHostSyntax("127.0.0.1")
  {
    assert IsHostname("127.0.0.1");
  }

  /** A new endpoint has every field unset, and is not valid because it has no host. */
  lemma EmptyEndpoint()
    ensures Blank.protocol.None? && Blank.userinfo.None? && Blank.host.None? && Blank.port.None?
    ensures Blank.path.None? && Blank.query.None? && Blank.fragment.None? && Blank.product.None?
    ensures Clean(Blank) == [MissingHost]
  {
  }

  /** The fixed parts of the full URIs the tests use. */
  lemma AliceAtFooBar()
    ensures IsScheme("http") && "alice" != [] && Avoids("alice", AuthorityEnd)
    ensures Truncate("alice", UserinfoLimit) == "alice"
    ensures PlainHost("foo.bar") && Lower("foo.bar") == "foo.bar"
    ensures IntToText(8080) == "8080"
  {
  }

  /** `http://alice@foo.bar:8080/path?query#fragment`, for any path, query and fragment. */
  lemma AliceUri(path: string, query: string, fragment: string)
    requires path != [] && Avoids(path, {'?', '#', '%'}) && query != [] && Avoids(query, {'#'}) && fragment != []
    ensures FromUri("http" + "://" + "alice" + "@" + "foo.bar" + ":" + "8080" + "/" + path + "?" + query + "#" + fragment)
         == Success(Endpoint(Some("http"), Some("alice"), Some("foo.bar"), Some(8080),
                             Some(Truncate(path, PathLimit)), Some(Truncate(query, QueryLimit)),
                             Some(Truncate(fragment, FragmentLimit)), None))
  {
    AliceAtFooBar();
    FullUri("http", "alice", "foo.bar", 8080, path, query, fragment);
  }

  /** Every component of a full URI is read back; the path loses its leading '/'. */
  lemma UrlFull()
    ensures FromUri("http" + "://" + "alice" + "@" + "foo.bar" + ":" + "8080" + "/" + "path1/path2"
                    + "?" + "key1=value&no_value_key" + "#" + "fragment1")
         == Success(Endpoint(Some("http"), Some("alice"), Some("foo.bar"), Some(8080), Some("path1/path2"),
                             Some("key1=value&no_value_key"), Some("fragment1"), None))
  {
    assert Avoids("path1/path2", {'?', '#', '%'}) && Avoids("key1=value&no_value_key", {'#'});
    AliceUri("path1/path2", "key1=value&no_value_key", "fragment1");
  }

  /** Over-long path, query and fragment are cut to 500, 1000 and 500 characters, keeping their start. */
  lemma TruncatesLongComponents(path: string, query: string, fragment: string)
    requires Avoids(path, {'?', '#', '%'}) && Avoids(query, {'#'})
    requires |path| >= PathLimit && |query| >= QueryLimit && |fragment| >= FragmentLimit
    ensures var r := FromUri("http" + "://" + "alice" + "@" + "foo.bar" + ":" + "8080" + "/" + path
                             + "?" + query + "#" + fragment);
      && r.Success?
      && r.value.path == Some(path[..500]) && r.value.query == Some(query[..1000])
      && r.value.fragment == Some(fragment[..500])
      && |r.value.path.value| == 500 && |r.value.query.value| == 1000 && |r.value.fragment.value| == 500
  {
    LongTruncated(path, PathLimit);
    LongTruncated(query, QueryLimit);
    LongTruncated(fragment, FragmentLimit);
    AliceUri(path, query, fragment);
  }

  lemma LongTruncated(s: string, n: nat)
    requires |s| >= n > 0
    ensures s != [] && Truncate(s, n) == s[..n] && |Truncate(s, n)| == n
  {
  }

  /**
    The test's components are `"foo" * 1000`, `"bar" * 1000` and
    `"baz" * 1000`; the same holds for every count from 334 on.
  */
  lemma TruncatesLargeAttributes(n: nat)
    requires n >= 334
    ensures var r := FromUri("http" + "://" + "alice" + "@" + "foo.bar" + ":" + "8080" + "/" + Repeat("foo", n)
                             + "?" + Repeat("bar", n) + "#" + Repeat("baz", n));
      && r.Success? && r.value.path.Some? && r.value.query.Some? && r.value.fragment.Some?
      && |r.value.path.value| == 500 && |r.value.query.value| == 1000 && |r.value.fragment.value| == 500
  {
    var path, query, fragment := Repeat("foo", n), Repeat("bar", n), Repeat("baz", n);
    RepeatAvoids("foo", n, {'?', '#', '%'});
    RepeatAvoids("bar", n, {'#'});
    TruncatesLongComponents(path, query, fragment);
  }

  /** `//localhost:22`: host and port only; no scheme, userinfo, path, query, fragment or product. */
  lemma NoScheme()
    ensures FromUri("//" + ("localhost" + ":" + "22"))
         == Success(Endpoint(None, None, Some("localhost"), Some(22), None, None, None, None))
  {
    assert IntToText(22) == "22";
    assert Lower("localhost") == "localhost";
    SlashesHostPort("localhost", "22");
  }

  /** A URI with no path and one whose path is only '/' both store no path. */
  lemma Paths()
    ensures FromUri("https" + "://" + "foo.bar" + "").Success?
    ensures FromUri("https" + "://" + "foo.bar" + "").value.path.None?
    ensures FromUri("https" + "://" + "foo.bar" + "/").Success?
    ensures FromUri("https" + "://" + "foo.bar" + "/").value.path.None?
  {
    SchemeHost("https", "foo.bar", "");
    SchemeHost("https", "foo.bar", "/");
  }

  /** An IPv4 address is stored as the host. */
  lemma Ip()
    ensures FromUri("http" + "://" + "127.0.0.1" + "/")
         == Success(Endpoint(Some("http"), None, Some("127.0.0.1"), Some(80), None, None, None, None))
  {
    LoopbackHost();
    HttpImplies80();
    SchemeHost("http", "127.0.0.1", "/");
  }

  /** Hosts with underscores parse and pass validation. */
  lemma LessStandardHosts()
    ensures FromUri("http" + "://" + "123_server" + "/").Success?
    ensures IsValid(FromUri("http" + "://" + "123_server" + "/").value)
    ensures IsValid(Blank.(host := Some("456_desktop")))
    ensures IsValid(Blank.(host := Some("_invalid._host.com")))
  {
    UnderscoreHosts();
    HttpImplies80();
    SchemeHost("http", "123_server", "/");
  }

  /** A port that is not an integer is a parse error. */
  lemma NonNumericPortFails()
    ensures FromUri("http" + "://" + ("127.0.0.1" + ":" + "portNo") + "/") == Failure(NonNumericPort("portNo"))
  {
    LoopbackHost();
    assert !IsDigit("portNo"[0]);
    assert ParseInt("portNo").None?;
    SchemeHostPort("http", "127.0.0.1", "portNo", "/");
  }

  /** Port -1 parses and is stored, but validation rejects it. */
  lemma NegativePortDeferred()
    ensures FromUri("http" + "://" + ("127.0.0.1" + ":" + "-1") + "/").Success?
    ensures Clean(FromUri("http" + "://" + ("127.0.0.1" + ":" + "-1") + "/").value) == [PortOutOfRange(-1)]
  {
    LoopbackHost();
    assert IntToText(-1) == "-1";
    SchemeHostPort("http", "127.0.0.1", "-1", "/");
  }

  /** Port 66666 parses and is stored, but validation rejects it. */
  lemma LargePortDeferred()
    ensures FromUri("http" + "://" + ("127.0.0.1" + ":" + "66666") + "/").Success?
    ensures Clean(FromUri("http" + "://" + ("127.0.0.1" + ":" + "66666") + "/").value) == [PortOutOfRange(66666)]
  {
    LoopbackHost();
    LargePortText();
    SchemeHostPort("http", "127.0.0.1", "66666", "/");
  }

  /** Ports -1 and 66666 set directly on an endpoint are rejected by validation too. */
  lemma OutOfRangePortsRejected()
    ensures Clean(Blank.(host := Some("127.0.0.1"), port := Some(-1))) == [PortOutOfRange(-1)]
    ensures Clean(Blank.(host := Some("127.0.0.1"), port := Some(66666))) == [PortOutOfRange(66666)]
  {
    LoopbackHost();
  }

  /** With no port written, `http` implies 80 and an unknown scheme implies none. */
  lemma Ports()
    ensures FromUri("http" + "://" + "foo.bar" + "/").Success?
    ensures FromUri("http" + "://" + "foo.bar" + "/").value.port == Some(80)
    ensures FromUri("this-scheme-is-unknown" + "://" + "foo.bar" + "/").Success?
    ensures FromUri("this-scheme-is-unknown" + "://" + "foo.bar" + "/").value.port.None?
  {
    HttpImplies80();
    SchemeHost("http", "foo.bar", "/");
    UnknownSchemeImpliesNothing();
    SchemeHost("this-scheme-is-unknown", "foo.bar", "/");
  }

  /** `%20` decodes to a space. */
  lemma DecodeSpace(after: string)
    ensures PercentDecode("%20" + after) == " " + PercentDecode(after)
  {
    var s := "%20" + after;
    assert s[0] == '%' && s[1] == '2' && s[2] == '0';
    assert HexValue('2') == 2 && HexValue('0') == 0;
    assert s[3..] == after;
  }

  /** A space is not kept in a path: it encodes to `%20`. */
  lemma EncodeSpace()
    ensures PercentEncode(" ") == "%20"
  {
    assert HexDigit(2) == '2' && HexDigit(0) == '0';
    assert EncodeChar(' ') == "%20";
    assert PercentEncode(" ") == EncodeChar(' ') + PercentEncode([]);
  }

  /** Between kept characters, `%20` decodes to a space. */
  lemma DecodeSpaced(before: string, after: string)
    requires '%' !in before && '%' !in after
    ensures PercentDecode(before + "%20" + after) == before + " " + after
  {
    assert before + "%20" + after == before + ("%20" + after);
    DecodeAppend(before, "%20" + after);
    DecodeSpace(after);
    DecodeWithoutPercent(after);
    assert before + (" " + after) == before + " " + after;
  }

  /** Between kept characters, a space encodes back to `%20`. */
  lemma EncodeSpaced(before: string, after: string)
    requires forall i :: 0 <= i < |before| ==> KeptInPath(before[i])
    requires forall i :: 0 <= i < |after| ==> KeptInPath(after[i])
    ensures PercentEncode(before + " " + after) == before + "%20" + after
  {
    EncodeAppend(before + " ", after);
    EncodeAppend(before, " ");
    EncodeKept(before);
    EncodeKept(after);
    EncodeSpace();
  }

  /** Kept characters include no '%', '?' or '#'. */
  lemma KeptAvoids(s: string)
    requires forall i :: 0 <= i < |s| ==> KeptInPath(s[i])
    ensures Avoids(s, {'%', '?', '#'})
  {
  }

  lemma SpacedAvoids(before: string, after: string)
    requires Avoids(before, {'?', '#'}) && Avoids(after, {'?', '#'})
    ensures Avoids(before + "%20" + after, {'?', '#'})
  {
    assert Avoids("%20", {'?', '#'});
    AvoidsConcat(before, "%20", {'?', '#'});
    AvoidsConcat(before + "%20", after, {'?', '#'});
  }

  /** An endpoint with only a scheme, a plain host and a path is written `scheme://host/path`. */
  lemma HostPathText(e: Endpoint)
    requires e.protocol.Some? && e.userinfo.None? && e.host.Some? && PlainHost(e.host.value) && ShownPort(e).None?
    requires e.path.Some? && e.path.value != [] && e.query.None? && e.fragment.None?
    ensures ToString(e) == Lower(e.protocol.value) + "://" + Lower(e.host.value) + ("/" + PercentEncode(e.path.value))
  {
    var h := e.host.value;
    LowerAvoids(h, {'/', '?', '#', '@', ':'});
    assert !NeedsBrackets(Lower(h));
    assert AuthorityText(e) == Lower(h);
    var t := "/" + PercentEncode(e.path.value);
    assert TailText(e) == t + "" + "";
    assert t + "" + "" == t;
  }

  /** Without a scheme, the same endpoint is written `host/path`. */
  lemma BareHostPathText(e: Endpoint)
    requires e.protocol.None? && e.userinfo.None? && e.host.Some? && PlainHost(e.host.value) && e.port.None?
    requires e.path.Some? && e.path.value != [] && e.query.None? && e.fragment.None?
    ensures ToString(e) == Lower(e.host.value) + ("/" + PercentEncode(e.path.value))
  {
    var h := e.host.value;
    LowerAvoids(h, {'/', '?', '#', '@', ':'});
    assert !NeedsBrackets(Lower(h));
    assert AuthorityText(e) == Lower(h);
    var t := "/" + PercentEncode(e.path.value);
    assert TailText(e) == t + "" + "";
    assert t + "" + "" == t;
    WithoutSchemeText(e);
  }

  /** Everything the parser and the formatter need to know about `before%20after`. */
  lemma SpacedText(before: string, after: string)
    requires forall i :: 0 <= i < |before| ==> KeptInPath(before[i])
    requires forall i :: 0 <= i < |after| ==> KeptInPath(after[i])
    requires |before| + |after| < PathLimit
    ensures Avoids(before + "%20" + after, {'?', '#'})
    ensures NonEmpty(Truncate(PercentDecode(before + "%20" + after), PathLimit)) == Some(before + " " + after)
    ensures PercentEncode(before + " " + after) == before + "%20" + after
  {
    KeptAvoids(before);
    KeptAvoids(after);
    DecodeSpaced(before, after);
    EncodeSpaced(before, after);
    SpacedAvoids(before, after);
  }

  /** `scheme://host/before%20after` stores the path with a space and is written back the same. */
  lemma SpacedPathWithScheme(scheme: string, host: string, before: string, after: string)
    requires IsScheme(scheme) && Lower(scheme) == scheme && PlainHost(host) && Lower(host) == host
    requires forall i :: 0 <= i < |before| ==> KeptInPath(before[i])
    requires forall i :: 0 <= i < |after| ==> KeptInPath(after[i])
    requires |before| + |after| < PathLimit
    ensures var r := FromUri(scheme + "://" + host + ("/" + (before + "%20" + after)));
      && r.Success? && r.value.path == Some(before + " " + after)
      && ToString(r.value) == scheme + "://" + host + ("/" + (before + "%20" + after))
  {
    SpacedText(before, after);
    SchemeHostPath(scheme, host, before + "%20" + after);
    HostPathText(Endpoint(Some(scheme), None, Some(host), InferPort(Some(scheme)), Some(before + " " + after),
                          None, None, None));
  }

  /** `//host/before%20after` does the same without a scheme. */
  lemma SpacedPathWithoutScheme(host: string, before: string, after: string)
    requires PlainHost(host) && Lower(host) == host
    requires forall i :: 0 <= i < |before| ==> KeptInPath(before[i])
    requires forall i :: 0 <= i < |after| ==> KeptInPath(after[i])
    requires |before| + |after| < PathLimit
    ensures var r := FromUri("//" + host + ("/" + (before + "%20" + after)));
      && r.Success? && r.value.path == Some(before + " " + after)
      && ToString(r.value) == host + ("/" + (before + "%20" + after))
  {
    var coded := before + "%20" + after;
    var e := Endpoint(None, None, Some(host), None, Some(before + " " + after), None, None, None);
    SpacedText(before, after);
    SlashesHostPath(host, coded);
    assert FromUri("//" + host + ("/" + coded)) == Success(e);
    BareHostPathText(e);
  }

  /** `http://foo.bar/beforeSpace%20afterSpace` and `//foo.bar/beforeSpace%20afterSpace`. */
  lemma SpacialChar()
    ensures var r := FromUri("http" + "://" + "foo.bar" + ("/" + ("beforeSpace" + "%20" + "afterSpace")));
      && r.Success? && r.value.path == Some("beforeSpace" + " " + "afterSpace")
      && ToString(r.value) == "http" + "://" + "foo.bar" + ("/" + ("beforeSpace" + "%20" + "afterSpace"))
    ensures var r := FromUri("//" + "foo.bar" + ("/" + ("beforeSpace" + "%20" + "afterSpace")));
      && r.Success? && r.value.path == Some("beforeSpace" + " " + "afterSpace")
      && ToString(r.value) == "foo.bar" + ("/" + ("beforeSpace" + "%20" + "afterSpace"))
  {
    assert IsScheme("http") && Lower("http") == "http";
    FooBarHost();
    SpacedPathWithScheme("http", "foo.bar", "beforeSpace", "afterSpace");
    SpacedPathWithoutScheme("foo.bar", "beforeSpace", "afterSpace");
  }

  /** An endpoint with only a scheme and a plain host is written `scheme://host`. */
  lemma SchemeHostText(e: Endpoint)
    requires e.protocol.Some? && e.userinfo.None? && e.host.Some? && PlainHost(e.host.value)
    requires ShownPort(e).None? && e.path.None? && e.query.None? && e.fragment.None?
    ensures ToString(e) == Lower(e.protocol.value) + "://" + Lower(e.host.value)
  {
    var h := e.host.value;
    LowerAvoids(h, {'/', '?', '#', '@', ':'});
    assert !NeedsBrackets(Lower(h));
    assert AuthorityText(e) == Lower(h);
    assert TailText(e) == "" + "" + "";
  }

  lemma UpperCaseHttp()
    ensures IsScheme("HTTP") && Lower("HTTP") == "http" && InferPort(Some("HTTP")) == Some(80)
    ensures IsScheme("HtTp") && Lower("HtTp") == "http" && InferPort(Some("HtTp")) == Some(80)
  {
    HttpImplies80();
    InferPortIgnoresCase(Some("HTTP"));
    InferPortIgnoresCase(Some("HtTp"));
  }

  lemma MixedCaseHosts()
    ensures PlainHost("FOO.BAR") && Lower("FOO.BAR") == "foo.bar"
    ensures PlainHost("foo.BAR") && Lower("foo.BAR") == "foo.bar"
  {
  }

  /** `HTTP://FOO.BAR/` keeps the scheme as written but folds the host to lower case. */
  lemma UpperCaseParse()
    ensures FromUri("HTTP" + "://" + "FOO.BAR" + "/")
         == Success(Endpoint(Some("HTTP"), None, Some("foo.bar"), Some(80), None, None, None, None))
    ensures FromUri("HtTp" + "://" + "foo.BAR" + "/")
         == Success(Endpoint(Some("HtTp"), None, Some("foo.bar"), Some(80), None, None, None, None))
  {
    UpperCaseHttp();
    MixedCaseHosts();
    SchemeHost("HTTP", "FOO.BAR", "/");
    SchemeHost("HtTp", "foo.BAR", "/");
  }

  /**
    `HTTP://FOO.BAR/` is written `http://foo.bar`, and it equals
    `HtTp://foo.BAR/`.
  */
  lemma UrlNormalize()
    ensures var r1 := FromUri("HTTP" + "://" + "FOO.BAR" + "/");
      && r1.Success? && r1.value.protocol == Some("HTTP") && r1.value.host == Some("foo.bar")
      && ToString(r1.value) == "http" + "://" + "foo.bar"
    ensures var r1, r2 := FromUri("HTTP" + "://" + "FOO.BAR" + "/"), FromUri("HtTp" + "://" + "foo.BAR" + "/");
      r1.Success? && r2.Success? && SameEndpoint(r1.value, r2.value)
  {
    UpperCaseParse();
    UpperCaseHttp();
    FooBarHost();
    var e1 := Endpoint(Some("HTTP"), None, Some("foo.bar"), Some(80), None, None, None, None);
    SchemeHostText(e1);
  }
}
