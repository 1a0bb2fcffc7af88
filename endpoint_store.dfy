/**
  `endpoint_get_or_create`: a table of stored endpoints, looked up with the
  field-by-field filter of the request and appended to when nothing
  matches. The filter compares scheme and host without case and lets an
  explicit well-known port match an omitted one, which makes it exactly
  endpoint equality (`MatchesIffSameEndpoint`).
*/
module EndpointStore {
  import opened Results
  import opened Strings
  import opened Endpoints

  /**
    The port part of the filter. A request port equal to the scheme's
    well-known port, or an omitted port with a known scheme, matches a row
    with no port or with that port; any other request port must be stored
    as is, and an omitted port with an unknown scheme matches only rows
    without a port.
  */
  predicate PortMatches(req: Endpoint, row: Endpoint) {
    var known := InferPort(req.protocol);
    if req.port.Some? && req.port != known then row.port == req.port
    else if known.Some? then row.port.None? || row.port == known
    else row.port.None?
  }

  /** The filter a stored row must pass to be returned for `req`. */
  predicate Matches(req: Endpoint, row: Endpoint) {
    && LowerOpt(row.protocol) == LowerOpt(req.protocol)
    && row.userinfo == req.userinfo
    && LowerOpt(row.host) == LowerOpt(req.host)
    && PortMatches(req, row)
    && row.path == req.path
    && row.query == req.query
    && row.fragment == req.fragment
    && row.product == req.product
  }

  /** The filter selects exactly the rows equal (`==`) to the request. */
  lemma MatchesIffSameEndpoint(req: Endpoint, row: Endpoint)
    ensures Matches(req, row) <==> SameEndpoint(req, row)
  {
    InferPortIgnoresCase(req.protocol);
    InferPortIgnoresCase(row.protocol);
    if LowerOpt(row.protocol) == LowerOpt(req.protocol) {
      assert InferPort(row.protocol) == InferPort(req.protocol);
    }
  }

  /** No two rows are equal endpoints. */
  ghost predicate Distinct(rows: seq<Endpoint>) {
    forall i, j :: 0 <= i < j < |rows| ==> !SameEndpoint(rows[i], rows[j])
  }

  /** The position of the first row the filter selects, if any. */
  function FirstMatch(rows: seq<Endpoint>, req: Endpoint): (r: Option<nat>)
    ensures r.Some? ==> r.value < |rows| && Matches(req, rows[r.value])
    ensures r.Some? ==> forall j :: 0 <= j < r.value ==> !Matches(req, rows[j])
    ensures r.None? ==> forall j :: 0 <= j < |rows| ==> !Matches(req, rows[j])
  {
    if rows == [] then None
    else if Matches(req, rows[0]) then Some(0)
    else
      var rest := FirstMatch(rows[1..], req);
      if rest.Some? then Some(rest.value + 1) else None
  }

  /** In a table without duplicates, the filter selects at most one row. */
  lemma MatchIsUnique(rows: seq<Endpoint>, req: Endpoint, i: nat, j: nat)
    requires Distinct(rows)
    requires i < |rows| && j < |rows| && Matches(req, rows[i]) && Matches(req, rows[j])
    ensures i == j
  {
    MatchesIffSameEndpoint(req, rows[i]);
    MatchesIffSameEndpoint(req, rows[j]);
    if i < j {
      assert SameEndpoint(rows[i], rows[j]);
    } else if j < i {
      assert SameEndpoint(rows[j], rows[i]);
    }
  }

  /** Appending an endpoint no row matches keeps the table free of duplicates. */
  lemma AppendKeepsDistinct(rows: seq<Endpoint>, req: Endpoint)
    requires Distinct(rows) && FirstMatch(rows, req).None?
    ensures Distinct(rows + [req])
  {
    var rows' := rows + [req];
    forall i, j | 0 <= i < j < |rows'| ensures !SameEndpoint(rows'[i], rows'[j]) {
      if j == |rows| {
        MatchesIffSameEndpoint(req, rows[i]);
      } else {
        assert rows'[i] == rows[i] && rows'[j] == rows[j];
      }
    }
  }

  /** The stored endpoints, in insertion order. */
  class Store {
    var rows: seq<Endpoint>

    ghost predicate Valid()
      reads this
    {
      Distinct(rows)
    }

    constructor ()
      ensures rows == [] && Valid()
    {
      rows := [];
    }

    /** Scans the table in insertion order for the first row the filter selects. */
    method Lookup(req: Endpoint) returns (found: Option<nat>)
      ensures found == FirstMatch(rows, req)
    {
      var i := 0;
      while i < |rows|
        invariant 0 <= i <= |rows|
        invariant forall j :: 0 <= j < i ==> !Matches(req, rows[j])
      {
        if Matches(req, rows[i]) {
          FirstMatchIs(rows, req, i);
          return Some(i);
        }
        i := i + 1;
      }
      FirstMatchAbsent(rows, req);
      return None;
    }

    /**
      `endpoint_get_or_create`: the row equal to `req` with `created` false,
      or `req` appended as a new row with `created` true.
    */
    method GetOrCreate(req: Endpoint) returns (e: Endpoint, created: bool)
      requires Valid()
      modifies this
      ensures Valid()
      ensures created <==> (forall j :: 0 <= j < |old(rows)| ==> !SameEndpoint(req, old(rows)[j]))
      ensures created ==> rows == old(rows) + [req] && e == req
      ensures !created ==> rows == old(rows) && e in rows
      ensures SameEndpoint(e, req)
    {
      var found := Lookup(req);
      forall j | 0 <= j < |rows| {
        MatchesIffSameEndpoint(req, rows[j]);
      }
      if found.Some? {
        e := rows[found.value];
        created := false;
        MatchesIffSameEndpoint(req, e);
      } else {
        AppendKeepsDistinct(rows, req);
        rows := rows + [req];
        e := req;
        created := true;
      }
    }
  }

  lemma FirstMatchIs(rows: seq<Endpoint>, req: Endpoint, i: nat)
    requires i < |rows| && Matches(req, rows[i])
    requires forall j :: 0 <= j < i ==> !Matches(req, rows[j])
    ensures FirstMatch(rows, req) == Some(i)
  {
  }

  lemma FirstMatchAbsent(rows: seq<Endpoint>, req: Endpoint)
    requires forall j :: 0 <= j < |rows| ==> !Matches(req, rows[j])
    ensures FirstMatch(rows, req).None?
  {
  }
}
