/**
  The get-or-create sequence of the endpoint unit tests, run against a
  fresh store: which requests create a row and which find one.
*/
module StoreExamples {
  import opened Results
  import opened Strings
  import opened Endpoints
  import opened EndpointStore

  /** `endpoint_get_or_create(protocol=..., host='bar.foo'[, port=...])`. */
  function Request(protocol: string, port: Option<int>): (e: Endpoint)
    ensures e.protocol == Some(protocol) && e.host == Some("bar.foo") && e.port == port
    ensures e.userinfo.None? && e.path.None? && e.query.None? && e.fragment.None? && e.product.None?
  {
    Blank.(protocol := Some(protocol), host := Some("bar.foo"), port := port)
  }

  /** The identity of each request: the scheme and host as compared, and the port after inference. */
  lemma RequestIdentities()
    ensures IdentityOf(Request("http", None)) == Identity(Some("http"), None, Some("bar.foo"), Some(80), None, None, None, None)
    ensures IdentityOf(Request("http", Some(80))) == Identity(Some("http"), None, Some("bar.foo"), Some(80), None, None, None, None)
    ensures IdentityOf(Request("http", Some(8080))) == Identity(Some("http"), None, Some("bar.foo"), Some(8080), None, None, None, None)
    ensures IdentityOf(Request("https", Some(443))) == Identity(Some("https"), None, Some("bar.foo"), Some(443), None, None, None, None)
    ensures IdentityOf(Request("https", None)) == Identity(Some("https"), None, Some("bar.foo"), Some(443), None, None, None, None)
    ensures IdentityOf(Request("https", Some(8443))) == Identity(Some("https"), None, Some("bar.foo"), Some(8443), None, None, None, None)
  {
    assert Lower("http") == "http" && Lower("https") == "https" && Lower("bar.foo") == "bar.foo";
    assert "http" in WellKnownPorts && WellKnownPorts["http"] == 80;
    assert "https" in WellKnownPorts && WellKnownPorts["https"] == 443;
  }

  /** Which of the requests are the same endpoint. */
  lemma RequestsCompared()
    ensures SameEndpoint(Request("http", Some(80)), Request("http", None))
    ensures !SameEndpoint(Request("http", Some(8080)), Request("http", None))
    ensures !SameEndpoint(Request("https", Some(443)), Request("http", None))
    ensures !SameEndpoint(Request("https", Some(443)), Request("http", Some(8080)))
    ensures SameEndpoint(Request("https", None), Request("https", Some(443)))
    ensures !SameEndpoint(Request("https", Some(8443)), Request("http", None))
    ensures !SameEndpoint(Request("https", Some(8443)), Request("http", Some(8080)))
    ensures !SameEndpoint(Request("https", Some(8443)), Request("https", Some(443)))
  {
    RequestIdentities();
  }

  /** The four `http` calls on an empty store: created, found, found with port 80, created with port 8080. */
  method HttpCalls(store: Store) returns (created: seq<bool>)
    requires store.Valid() && store.rows == []
    modifies store
    ensures store.Valid() && store.rows == [Request("http", None), Request("http", Some(8080))]
    ensures created == [true, false, false, true]
  {
    RequestsCompared();
    var http, http8080 := Request("http", None), Request("http", Some(8080));
    var _, c1 := store.GetOrCreate(http);
    assert store.rows == [http];
    assert SameEndpoint(http, store.rows[0]);
    var _, c2 := store.GetOrCreate(http);
    assert store.rows == [http];
    assert SameEndpoint(Request("http", Some(80)), store.rows[0]);
    var _, c3 := store.GetOrCreate(Request("http", Some(80)));
    assert store.rows == [http];
    assert forall j :: 0 <= j < |store.rows| ==> !SameEndpoint(http8080, store.rows[j]);
    var _, c4 := store.GetOrCreate(http8080);
    created := [c1, c2, c3, c4];
  }

  /** The three `https` calls: created with port 443, found without it, created with port 8443. */
  method HttpsCalls(store: Store) returns (created: seq<bool>)
    requires store.Valid() && store.rows == [Request("http", None), Request("http", Some(8080))]
    modifies store
    ensures store.Valid()
    ensures store.rows == [Request("http", None), Request("http", Some(8080)),
                           Request("https", Some(443)), Request("https", Some(8443))]
    ensures created == [true, false, true]
  {
    RequestsCompared();
    var https, https8443 := Request("https", Some(443)), Request("https", Some(8443));
    assert forall j :: 0 <= j < |store.rows| ==> !SameEndpoint(https, store.rows[j]);
    var _, c5 := store.GetOrCreate(https);
    assert store.rows[2] == https;
    assert SameEndpoint(Request("https", None), store.rows[2]);
    var _, c6 := store.GetOrCreate(Request("https", None));
    assert store.rows == [Request("http", None), Request("http", Some(8080)), https];
    assert forall j :: 0 <= j < |store.rows| ==> !SameEndpoint(https8443, store.rows[j]);
    var _, c7 := store.GetOrCreate(https8443);
    created := [c5, c6, c7];
  }

  /**
    The seven calls of the unit test, in order: `http://bar.foo` is
    created, found again with and without port 80, port 8080 is new,
    `https` with port 443 is new and found again without it, and port
    8443 is new.
  */
  method GetOrCreateSequence() returns (created: seq<bool>)
    ensures created == [true, false, false, true, true, false, true]
  {
    var store := new Store();
    var first := HttpCalls(store);
    var second := HttpsCalls(store);
    created := first + second;
  }
}
