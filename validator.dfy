/**
  `Endpoint.clean`: the field checks deferred from parsing. It collects
  every violation rather than stopping at the first: a missing host, a host
  that is neither a (permissive) host name nor an IPv6 literal, and a port
  outside 0..65535.
*/
module Validator {
  import opened Results
  import opened Strings
  import opened Endpoints

  /** One violation `clean` reports (the source raises a ValidationError listing them). */
  datatype Issue =
    | MissingHost
    | InvalidHost(host: string)
    | PortOutOfRange(port: int)

  const MaxPort := 65535
  const HostLimit := 500

  predicate InPortRange(p: int) {
    0 <= p <= MaxPort
  }

  /** A host-name label character: letters, digits, '-' and, for real-world hosts, '_'. */
  predicate IsLabelChar(c: char) {
    IsAlpha(c) || IsDigit(c) || c == '-' || c == '_'
  }

  predicate IsLabel(l: string) {
    l != [] && forall i :: 0 <= i < |l| ==> IsLabelChar(l[i])
  }

  /**
    Labels joined by single dots: no leading, trailing or doubled '.'.
    Dotted-decimal IPv4 addresses are host names of this grammar.
  */
  predicate IsHostname(h: string) {
    && h != [] && h[0] != '.' && h[|h| - 1] != '.'
    && (forall i :: 0 <= i < |h| ==> IsLabelChar(h[i]) || h[i] == '.')
    && (forall i :: 0 <= i < |h| - 1 ==> h[i] == '.' ==> h[i + 1] != '.')
  }

  /** An IPv6 literal as stored (without brackets): hex digits, ':' and '.', with at least one ':'. */
  predicate IsIPv6Literal(h: string) {
    ':' in h && forall i :: 0 <= i < |h| ==> IsHexDigit(h[i]) || h[i] == ':' || h[i] == '.'
  }

  predicate IsHostSyntax(h: string) {
    |h| <= HostLimit && (IsHostname(h) || IsIPv6Literal(h))
  }

  /** `Endpoint.clean`: every violation of `e`, in field order; no violations means `e` is valid. */
  function Clean(e: Endpoint): (issues: seq<Issue>)
    ensures MissingHost in issues <==> e.host.None? || e.host.value == []
    ensures forall h :: InvalidHost(h) in issues <==> e.host == Some(h) && h != [] && !IsHostSyntax(h)
    ensures forall p :: PortOutOfRange(p) in issues <==> e.port == Some(p) && !InPortRange(p)
    ensures issues == [] <==>
      e.host.Some? && IsHostSyntax(e.host.value) && (e.port.Some? ==> InPortRange(e.port.value))
  {
    var hostIssues :=
      if e.host.None? || e.host.value == [] then [MissingHost]
      else if !IsHostSyntax(e.host.value) then [InvalidHost(e.host.value)]
      else [];
    var portIssues :=
      if e.port.Some? && !InPortRange(e.port.value) then [PortOutOfRange(e.port.value)] else [];
    hostIssues + portIssues
  }

  predicate IsValid(e: Endpoint) {
    Clean(e) == []
  }

  // Building host names

  lemma LabelIsHostname(l: string)
    requires IsLabel(l)
    ensures IsHostname(l)
  {
  }

  /** `a.b` is a host name when `a` and `b` are. */
  lemma HostnameJoin(a: string, b: string)
    requires IsHostname(a) && IsHostname(b)
    ensures IsHostname(a + "." + b)
  {
    var h := a + "." + b;
    assert h[0] == a[0] && h[|h| - 1] == b[|b| - 1];
    assert forall j :: 0 <= j < |a| ==> h[j] == a[j];
    assert h[|a|] == '.';
    assert forall j :: |a| < j < |h| ==> h[j] == b[j - |a| - 1];
  }

  /**
    A host holding a character that is neither a label character, nor '.',
    nor ':' is never accepted.
  */
  lemma ForeignCharRejected(h: string, i: nat)
    requires i < |h| && !IsLabelChar(h[i]) && h[i] != '.' && h[i] != ':'
    ensures !IsHostSyntax(h)
  {
    assert !IsHexDigit(h[i]);
  }

  /** A host holding a space, DEL or a C0 or C1 control character is never accepted. */
  lemma ControlCharRejected(h: string, i: nat)
    requires i < |h| && (h[i] as int <= 32 || 127 <= h[i] as int <= 159)
    ensures !IsHostSyntax(h)
  {
    ForeignCharRejected(h, i);
  }

  // Validation and normalisation

  lemma LowerCharKeepsClass(c: char)
    ensures IsLabelChar(LowerChar(c)) == IsLabelChar(c)
    ensures IsHexDigit(LowerChar(c)) == IsHexDigit(c)
    ensures (LowerChar(c) == '.') == (c == '.')
    ensures (LowerChar(c) == ':') == (c == ':')
  {
  }

  /** Case folding a host, as the parser does, never changes whether its syntax is accepted. */
  lemma LowerKeepsHostSyntax(h: string)
    ensures IsHostSyntax(Lower(h)) == IsHostSyntax(h)
  {
    var l := Lower(h);
    forall i | 0 <= i < |h| ensures l[i] == LowerChar(h[i]) {
    }
    forall i | 0 <= i < |h| {
      LowerCharKeepsClass(h[i]);
    }
    if ':' in l {
      var i :| 0 <= i < |l| && l[i] == ':';
      assert h[i] == ':';
    }
    if ':' in h {
      var i :| 0 <= i < |h| && h[i] == ':';
      assert l[i] == ':';
    }
    assert IsHostname(l) == IsHostname(h);
  }

  /** Every port a scheme implies is in range. */
  lemma WellKnownPortsInRange(protocol: Option<string>)
    ensures InferPort(protocol).Some? ==> InPortRange(InferPort(protocol).value)
  {
  }

  /** Endpoints that are equal (`==`) are either both valid or both invalid. */
  lemma SameEndpointSameVerdict(a: Endpoint, b: Endpoint)
    requires SameEndpoint(a, b)
    ensures IsValid(a) <==> IsValid(b)
  {
    assert LowerOpt(a.host) == LowerOpt(b.host);
    if a.host.Some? {
      LowerKeepsHostSyntax(a.host.value);
      LowerKeepsHostSyntax(b.host.value);
    }
    InferPortIgnoresCase(a.protocol);
    InferPortIgnoresCase(b.protocol);
    WellKnownPortsInRange(a.protocol);
    assert EffectivePort(a) == EffectivePort(b);
  }
}
