/**
  The Endpoint record: a network location owned by a product, with every
  component optional, plus the scheme-to-port table and the identity used
  by `==` and by get-or-create.
*/
module Endpoints {
  import opened Results
  import opened Strings

  /** A stored endpoint; an unset field is `None`, never the empty string. */
  datatype Endpoint = Endpoint(
    protocol: Option<string>,
    userinfo: Option<string>,
    host: Option<string>,
    port: Option<int>,
    path: Option<string>,
    query: Option<string>,
    fragment: Option<string>,
    product: Option<nat>)

  /** A freshly constructed endpoint: every field unset. */
  const Blank := Endpoint(None, None, None, None, None, None, None, None)

  const UserinfoLimit := 500
  const PathLimit := 500
  const QueryLimit := 1000
  const FragmentLimit := 500

  /** Well-known ports of common schemes (IANA service names), keyed by the lower-case scheme. */
  const WellKnownPorts: map<string, int> := map[
    "ftp" := 21, "ssh" := 22, "sftp" := 22, "telnet" := 23, "dns" := 53,
    "gopher" := 70, "http" := 80, "ws" := 80, "pop" := 110, "nntp" := 119,
    "imap" := 143, "ldap" := 389, "https" := 443, "wss" := 443, "smb" := 445,
    "ldaps" := 636, "rsync" := 873, "svn" := 3690, "vnc" := 5900,
    "redis" := 6379, "git" := 9418]

  /** The port a scheme implies when none is written; the scheme is looked up case-insensitively. */
  function InferPort(protocol: Option<string>): (p: Option<int>)
    ensures p.Some? ==> protocol.Some? && Lower(protocol.value) in WellKnownPorts
    ensures p.Some? ==> p.value == WellKnownPorts[Lower(protocol.value)]
    ensures p.None? ==> protocol.None? || Lower(protocol.value) !in WellKnownPorts
  {
    if protocol.Some? && Lower(protocol.value) in WellKnownPorts then
      Some(WellKnownPorts[Lower(protocol.value)])
    else None
  }

  function LowerOpt(s: Option<string>): Option<string> {
    if s.Some? then Some(Lower(s.value)) else None
  }

  lemma InferPortIgnoresCase(protocol: Option<string>)
    ensures InferPort(LowerOpt(protocol)) == InferPort(protocol)
  {
    if protocol.Some? {
      LowerIdempotent(protocol.value);
    }
  }

  /** The port an endpoint means: the written one, else the one its scheme implies. */
  function EffectivePort(e: Endpoint): Option<int> {
    if e.port.Some? then e.port else InferPort(e.protocol)
  }

  /**
    What two endpoints must share to be the same endpoint: the scheme and
    the host compared without case, the port after inference, and every
    other field as stored.
  */
  datatype Identity = Identity(
    protocol: Option<string>,
    userinfo: Option<string>,
    host: Option<string>,
    port: Option<int>,
    path: Option<string>,
    query: Option<string>,
    fragment: Option<string>,
    product: Option<nat>)

  function IdentityOf(e: Endpoint): Identity {
    Identity(LowerOpt(e.protocol), e.userinfo, LowerOpt(e.host), EffectivePort(e),
             e.path, e.query, e.fragment, e.product)
  }

  /** Endpoint equality (`==` on endpoints). */
  predicate SameEndpoint(a: Endpoint, b: Endpoint) {
    IdentityOf(a) == IdentityOf(b)
  }
}
