# Endpoint model

A Dafny model of the endpoint core of a vulnerability-management
application. An endpoint is a network location that belongs to a product,
such as a host, an IP address or a URL. The model covers five pieces:

- `Endpoint.from_uri`: splits a URI into scheme, userinfo, host, port,
  path, query and fragment, following section 3 of RFC 3986. It stores
  the path root-less and percent-decoded, folds the host to lower case,
  cuts long components to their limits, infers the port of a well-known
  scheme, and fails on port text that is not an integer.
- `Endpoint.clean`: rejects a missing host, a host that is neither a
  permissive host name nor an IPv6 literal, and a port outside 0..65535.
  Ports out of range are accepted by the parser and rejected only here.
- `str(Endpoint)`: writes the scheme in lower case followed by `://` only
  when there is one. It re-encodes the path (section 2.1 of RFC 3986) and
  leaves out a port that the scheme already implies.
- Endpoint equality and `endpoint_get_or_create`. Equality compares the
  scheme and host without case and the port after inference.
  Get-or-create runs over a store of rows (class `EndpointStore.Store`).
- `remove_broken_endpoint_statuses`: runs over a table of endpoint
  statuses and the per-finding and per-endpoint membership collections
  (class `StatusSweep.StatusTables`).

The implementations of these operations are not part of this model.
Each operation here is the behaviour that `unittests/test_endpoint_model.py`
pins down, where that module imports them (lines 4-5 and 9). Each concrete
assertion of those tests is proved as a lemma about the model in
`EndpointExamples`, `StoreExamples` and `SweepExamples`. The general
properties behind those assertions are proved for all inputs:

- for a canonical endpoint with a host, formatting then parsing gives the
  endpoint back, with its scheme case-folded;
- the filter of get-or-create selects exactly the equal endpoints;
- the store never holds two equal rows;
- the sweep deletes exactly the broken statuses and their memberships,
  and every status it keeps keeps all of its memberships.

Files, in dependency order:

- `results.dfy`: `Option` and `Result`.
- `strings.dfy`: searching, truncation, case folding, integer text and
  percent-coding.
- `endpoints.dfy`: the record, the scheme-to-port table and identity.
- `uri_parser.dfy`: the parser and its inverse writers.
- `uri_shapes.dfy`: what the parser returns for common URI shapes.
- `formatter.dfy`: the formatter.
- `validator.dfy`: the validator.
- `endpoint_store.dfy`: the get-or-create store.
- `status_sweep.dfy`: the sweep.
- `endpoint_examples.dfy`, `store_examples.dfy`, `sweep_examples.dfy`:
  the test assertions.

Design decisions, each fixed by the tests:

- `ToString` leaves out a port the scheme implies: `HTTP://FOO.BAR/`
  parses with port 80 (test lines 88-89, 103) and is written
  `http://foo.bar` (line 107).
- `ToString` writes the scheme and the host case-folded (line 107). A
  parsed host is already in lower case, and equal endpoints format to
  the same text.
- `FromUri` infers the port from the scheme when none is written
  (lines 86-92).

## Model

| member | source | states |
|---|---|---|
| Strings.Truncate | unittests/test_endpoint_model.py:35-42 | the result is the input's prefix, of length the limit when the input is longer and the whole input otherwise |
| Strings.NonEmptyGetOr | unittests/test_endpoint_model.py:44-59 | an empty component becomes an unset field, which reads back as the empty string, so nothing else is lost; an empty string is never stored |
| Strings.Repeat | unittests/test_endpoint_model.py:36-38 | `s * n` has length `|s| * n` |
| Strings.RepeatAvoids | unittests/test_endpoint_model.py:36-39 | a repeated text holds no character its unit does not |
| Strings.IntToText | unittests/test_endpoint_model.py:25-30 | the decimal text of a port parses back to it and holds no URI separator |
| Strings.LastIndexOf | unittests/test_endpoint_model.py:25-28 | the position found holds the character and no later position does; none is found only when the character is absent |
| Strings.LastIndexOfAt | unittests/test_endpoint_model.py:25-28 | the userinfo separator is found right after the userinfo when no '@' follows it |
| Strings.IndexOfAny | unittests/test_endpoint_model.py:25-33 | the index is the first stop character, or the end when there is none |
| Strings.IndexOfAnyAt | unittests/test_endpoint_model.py:25-33 | a search stops exactly at the end of a stop-free prefix |
| Strings.AvoidsConcat | unittests/test_endpoint_model.py:25-33 | a concatenation avoids a set of characters iff both parts do |
| Strings.LowerIdempotent | unittests/test_endpoint_model.py:102-108 | case folding twice is case folding once |
| Strings.LowerAvoids | unittests/test_endpoint_model.py:102-108 | case folding does not introduce separators |
| Strings.HexDigit | unittests/test_endpoint_model.py:94-100 | the digit written for a value reads back as that value |
| Strings.DecodeEncode | unittests/test_endpoint_model.py:94-100 | percent-decoding undoes percent-encoding for every path |
| Strings.EncodeAvoids | unittests/test_endpoint_model.py:94-100 | an encoded path holds no '?' or '#' |
| Strings.DecodeWithoutPercent | unittests/test_endpoint_model.py:25-31 | text without '%' decodes to itself |
| Strings.EncodeKept | unittests/test_endpoint_model.py:94-100 | text made of path-safe characters encodes to itself |
| Strings.EncodeAppend | unittests/test_endpoint_model.py:94-100 | encoding distributes over concatenation |
| Strings.DecodeAppend | unittests/test_endpoint_model.py:94-100 | a prefix without '%' decodes to itself whatever follows |
| Endpoints.InferPortIgnoresCase | unittests/test_endpoint_model.py:102-108 | inference does not depend on the case of the scheme |
| UriParser.SplitScheme | unittests/test_endpoint_model.py:44-53 | a scheme found is a scheme name followed by `://`; without one, the rest is the URI or the URI after `//` |
| UriParser.PortTextRoundTrip | unittests/test_endpoint_model.py:75-84 | the decimal text of any integer, negative or out of range included, is read back as that port, and empty port text means no port |
| UriParser.SplitTail | unittests/test_endpoint_model.py:25-33 | the raw path holds no '?' or '#' and the query no '#' |
| UriParser.QueryAndFragment | unittests/test_endpoint_model.py:32-33 | the query text holds no '#' |
| UriParser.SplitJoinHostPort | unittests/test_endpoint_model.py:25-30 | splitting a written `host[:port]` gives back the host and the port text's value |
| UriParser.SplitAuthorityWithUser | unittests/test_endpoint_model.py:25-28 | the userinfo is everything before the last '@' |
| UriParser.SplitAuthorityWithoutUser | unittests/test_endpoint_model.py:44-53 | with no '@' there is no userinfo |
| UriParser.SplitJoinAuthority | unittests/test_endpoint_model.py:25-30 | splitting a written authority gives back the userinfo, the case-folded host and the port |
| UriParser.SplitQueryFragment | unittests/test_endpoint_model.py:32-33 | the query and the fragment are read back from `?query#fragment` |
| UriParser.SplitJoinTail | unittests/test_endpoint_model.py:25-33 | splitting a written tail gives back the path, query and fragment |
| UriParser.FromUriWithScheme | unittests/test_endpoint_model.py:25-33 | a URI with a scheme parses as its authority and tail under that scheme |
| UriParser.FromUriAfterSlashes | unittests/test_endpoint_model.py:44-53 | a URI opening with `//` parses as its authority and tail without a scheme |
| UriParser.FromUriBare | unittests/test_endpoint_model.py:98-100 | a bare `host/path` parses as its authority and tail without a scheme |
| UriParser.LowerKeepsBrackets | unittests/test_endpoint_model.py:102-108 | case folding keeps whether a host needs brackets |
| UriParser.ParsedIsCanonical | unittests/test_endpoint_model.py:25-59 | every parsed endpoint has no empty field, a lower-case host, components within their limits and no product |
| UriShapes.HostAuthority | unittests/test_endpoint_model.py:55-59 | a plain host authority gives only the case-folded host |
| UriShapes.HostPortAuthority | unittests/test_endpoint_model.py:44-49 | `host:port` gives the case-folded host and the port, or the port error |
| UriShapes.UserHostPortAuthority | unittests/test_endpoint_model.py:25-30 | `user@host:port` gives the userinfo cut to its limit, the host and the port |
| UriShapes.PathTail | unittests/test_endpoint_model.py:55-59 | `/path` drops one '/', decodes the rest, and a root-only path is unset |
| UriShapes.PathQueryFragmentTail | unittests/test_endpoint_model.py:25-33 | `/path?query#fragment` gives the root-less path, the query and the fragment |
| UriShapes.EveryPart | unittests/test_endpoint_model.py:25-42 | a URI with every component reads each back, cut to its limit, with the port error for non-integer port text |
| UriShapes.FullUri | unittests/test_endpoint_model.py:25-42 | with an integer port and every component non-empty, each component is read back cut to its limit |
| UriShapes.SchemeHost | unittests/test_endpoint_model.py:55-59 | `scheme://host` and `scheme://host/` have no path and the inferred port |
| UriShapes.SchemeHostPort | unittests/test_endpoint_model.py:75-84 | `scheme://host:port/` has the written port, or fails on non-integer port text |
| UriShapes.SlashesHostPort | unittests/test_endpoint_model.py:44-53 | `//host:port` has no scheme, no userinfo and no inferred port |
| UriShapes.SchemeHostPath | unittests/test_endpoint_model.py:94-97 | `scheme://host/path` stores the decoded, root-less path |
| UriShapes.SlashesHostPath | unittests/test_endpoint_model.py:98-99 | `//host/path` stores the same path with no scheme and no port |
| Formatter.ShownPortOnlyWhenNeeded | unittests/test_endpoint_model.py:102-108 | the port is left out exactly when leaving it out gives an equal endpoint, and what is shown always gives an equal endpoint |
| Formatter.JoinHostPortAvoids | unittests/test_endpoint_model.py:25-30 | writing `host:port` adds no separator the host and the port avoid |
| Formatter.HostPortShape | unittests/test_endpoint_model.py:25-30 | the written `host:port` is non-empty, separator-free and does not end in ':' |
| Formatter.AuthorityTextShape | unittests/test_endpoint_model.py:25-30 | the written authority of a canonical endpoint ends before any '/', '?' or '#' |
| Formatter.WithoutSchemeText | unittests/test_endpoint_model.py:100 | without a scheme, the text is the authority and the tail with no `//` |
| Formatter.SchemeReadBack | unittests/test_endpoint_model.py:94-107 | the written scheme is read back case-folded and the text splits at the end of the authority |
| Formatter.AuthorityReadBack | unittests/test_endpoint_model.py:94-107 | the written authority is read back as the userinfo, the host and the shown port |
| Formatter.PathReadBack | unittests/test_endpoint_model.py:94-100 | the re-encoded path decodes back to the stored path |
| Formatter.TailReadBack | unittests/test_endpoint_model.py:94-100 | the written tail is read back as the path, the query and the fragment |
| Formatter.FormatParseRoundTrip | unittests/test_endpoint_model.py:94-108 | parsing the text of a canonical endpoint with a host gives the endpoint back, with its scheme case-folded |
| Formatter.ReparseIsStable | unittests/test_endpoint_model.py:94-108 | re-parsing a parsed endpoint's text gives an equal endpoint with the same text |
| Formatter.SameEndpointSameText | unittests/test_endpoint_model.py:102-108 | equal endpoints format to the same text |
| Validator.Clean | unittests/test_endpoint_model.py:67-84 | a missing host, a host of bad syntax and a port outside 0..65535 are each reported exactly when they occur, and nothing is reported iff all three checks pass |
| Validator.LabelIsHostname | unittests/test_endpoint_model.py:67-73 | one label is a host name |
| Validator.HostnameJoin | unittests/test_endpoint_model.py:72-73 | two host names joined by '.' are a host name |
| Validator.ControlCharRejected | unittests/test_endpoint_model.py:67-73 | a host holding a space, DEL or any C0 or C1 control character is never accepted |
| Validator.ForeignCharRejected | unittests/test_endpoint_model.py:67-73 | a host holding any character that is neither a label character, '.' nor ':' is never accepted |
| Validator.LowerCharKeepsClass | unittests/test_endpoint_model.py:102-108 | case folding a character keeps its host-syntax class |
| Validator.LowerKeepsHostSyntax | unittests/test_endpoint_model.py:102-108 | case folding a host never changes whether it is accepted |
| Validator.WellKnownPortsInRange | unittests/test_endpoint_model.py:86-92 | every inferred port is in range |
| Validator.SameEndpointSameVerdict | unittests/test_endpoint_model.py:102-108 | equal endpoints are both valid or both invalid |
| EndpointStore.MatchesIffSameEndpoint | unittests/test_endpoint_model.py:110-155 | the get-or-create filter selects a row iff it equals the request |
| EndpointStore.FirstMatch | unittests/test_endpoint_model.py:110-155 | the position found is selected by the filter and no earlier one is; none is found only when no row is selected |
| EndpointStore.MatchIsUnique | unittests/test_endpoint_model.py:110-155 | in a table without equal rows the filter selects at most one row |
| EndpointStore.AppendKeepsDistinct | unittests/test_endpoint_model.py:110-155 | appending a request no row matches keeps the rows pairwise unequal |
| EndpointStore.Store.constructor | unittests/test_endpoint_model.py:110-115 | a new store is empty |
| EndpointStore.Store.Lookup | unittests/test_endpoint_model.py:110-155 | the scan returns the first row the filter selects |
| EndpointStore.Store.GetOrCreate | unittests/test_endpoint_model.py:110-155 | a row is created iff no stored row equals the request; a created row is the request appended, otherwise the rows are unchanged and an equal stored row is returned; rows stay pairwise unequal |
| StoreExamples.RequestIdentities | unittests/test_endpoint_model.py:110-155 | the identity of each request, with port 80 or 443 inferred |
| StoreExamples.RequestsCompared | unittests/test_endpoint_model.py:110-155 | which requests are equal endpoints |
| StoreExamples.HttpCalls | unittests/test_endpoint_model.py:111-135 | the four `http` calls create, find, find and create |
| StoreExamples.HttpsCalls | unittests/test_endpoint_model.py:137-155 | the three `https` calls create, find and create |
| StoreExamples.GetOrCreateSequence | unittests/test_endpoint_model.py:110-155 | the seven calls on a fresh store report created as true, false, false, true, true, false, true |
| StatusSweep.KeepStandard | unittests/test_endpoint_model.py:221-247 | the kept statuses are exactly those with both a finding and an endpoint |
| StatusSweep.BrokenIds | unittests/test_endpoint_model.py:221-247 | an id is broken iff some status with that id lacks its finding or its endpoint |
| StatusSweep.Unlink | unittests/test_endpoint_model.py:221-247 | the kept memberships are exactly those whose status is not removed |
| StatusSweep.MembersOfUnlink | unittests/test_endpoint_model.py:223-247 | unlinking removes exactly the removed statuses from every owner's collection and keeps the order of the rest |
| StatusSweep.MembersAppend | unittests/test_endpoint_model.py:207-219 | for any two link lists, an owner's collection of their concatenation is the two collections in order |
| StatusSweep.WithoutAppend | unittests/test_endpoint_model.py:223-247 | for any two member lists, removing statuses distributes over concatenation |
| StatusSweep.WithoutKeeps | unittests/test_endpoint_model.py:223-247 | a member survives removal exactly when it was a member and its status is not removed |
| StatusSweep.WithoutNothing | unittests/test_endpoint_model.py:223-228 | a collection listing no removed status is unchanged |
| StatusSweep.StandardNotBroken | unittests/test_endpoint_model.py:223-241 | with unique ids, a standard status's id is never removed |
| StatusSweep.SweepIsIdempotent | unittests/test_endpoint_model.py:221 | a second sweep finds nothing broken and changes nothing |
| StatusSweep.KeepStandardOfStandard | unittests/test_endpoint_model.py:221 | a table with no broken status is kept whole |
| StatusSweep.UnlinkNothing | unittests/test_endpoint_model.py:221 | removing no status keeps every membership |
| StatusSweep.AddStatusKeepsLinks | unittests/test_endpoint_model.py:183-205 | adding a status keeps every membership valid |
| StatusSweep.AddStatusKeepsUniqueIds | unittests/test_endpoint_model.py:183-205 | appending a status with a fresh id keeps status ids unique |
| StatusSweep.KeepStandardKeepsUniqueIds | unittests/test_endpoint_model.py:221-247 | keeping the standard statuses of a table with unique ids leaves ids unique |
| StatusSweep.SweepKeepsStandard | unittests/test_endpoint_model.py:221-247 | with unique ids, the kept statuses keep unique ids and none carries the id of a removed status |
| StatusSweep.SweepKeepsLinks | unittests/test_endpoint_model.py:221-247 | after a sweep every surviving membership names an owner and a surviving status |
| StatusSweep.SurvivingLinkKeepsStatus | unittests/test_endpoint_model.py:221-247 | a membership whose status is not removed refers to a kept status |
| StatusSweep.Partition | unittests/test_endpoint_model.py:221 | one pass gives the kept statuses in order and the removed ids |
| StatusSweep.Unlinked | unittests/test_endpoint_model.py:221 | one pass drops exactly the memberships of the removed statuses |
| StatusSweep.StatusTables.constructor | unittests/test_endpoint_model.py:179-182 | the tables start with the given findings and endpoints and no statuses or memberships |
| StatusSweep.StatusTables.AddStatus | unittests/test_endpoint_model.py:183-205 | a status with a fresh id is appended, ids stay unique and nothing else changes |
| StatusSweep.StatusTables.LinkFinding | unittests/test_endpoint_model.py:207-212 | the membership is appended to the finding side |
| StatusSweep.StatusTables.LinkEndpoint | unittests/test_endpoint_model.py:214-219 | the membership is appended to the endpoint side |
| StatusSweep.StatusTables.Sweep | unittests/test_endpoint_model.py:221-247 | the statuses become the standard ones and none of them carries a removed id; each finding's and each endpoint's collection loses exactly the members whose status was removed, so standard statuses keep all of theirs; findings and endpoints are untouched, and the count removed is reported |
| SweepExamples.StatusesSwept | unittests/test_endpoint_model.py:183-205 | of the three statuses only the standard one is kept, and ids 2 and 3 are removed |
| SweepExamples.SecondUnlinked | unittests/test_endpoint_model.py:207-219 | the broken second membership goes and the standard first one stays |
| SweepExamples.LinksSwept | unittests/test_endpoint_model.py:223-247 | each side keeps only the standard membership, listed by owner 1 alone |
| SweepExamples.Populated | unittests/test_endpoint_model.py:179-219 | the tables as the test builds them |
| SweepExamples.BrokenStatusSweep | unittests/test_endpoint_model.py:221-247 | two statuses are removed, finding 1 and endpoint 1 list only the standard status, finding 2 and endpoint 2 list nothing, and all findings and endpoints remain |
| EndpointExamples.HttpImplies80 | unittests/test_endpoint_model.py:88-89 | `http` implies port 80 |
| EndpointExamples.HttpsImplies443 | unittests/test_endpoint_model.py:137-148 | `https` implies port 443 |
| EndpointExamples.UnknownSchemeImpliesNothing | unittests/test_endpoint_model.py:91-92 | `this-scheme-is-unknown` is a scheme name that implies no port |
| EndpointExamples.InvalidHostName | unittests/test_endpoint_model.py:72-73 | `_invalid._host.com` is a host name |
| EndpointExamples.UnderscoreHosts | unittests/test_endpoint_model.py:67-73 | the three underscore hosts are host names |
| EndpointExamples.LargePortText | unittests/test_endpoint_model.py:79 | 66666 is written `66666` |
| EndpointExamples.LoopbackHost | unittests/test_endpoint_model.py:61-65 | `127.0.0.1` is a plain, lower-case, accepted host |
| EndpointExamples.EmptyEndpoint | unittests/test_endpoint_model.py:14-23 | a new endpoint has every field unset, and validation reports only the missing host |
| EndpointExamples.AliceUri | unittests/test_endpoint_model.py:25-42 | `http://alice@foo.bar:8080/path?query#fragment` reads back every component, cut to its limit |
| EndpointExamples.UrlFull | unittests/test_endpoint_model.py:25-33 | the full URI gives scheme `http`, userinfo `alice`, host `foo.bar`, port 8080, path `path1/path2`, its query and its fragment |
| EndpointExamples.TruncatesLongComponents | unittests/test_endpoint_model.py:35-42 | long path, query and fragment are cut to their first 500, 1000 and 500 characters |
| EndpointExamples.TruncatesLargeAttributes | unittests/test_endpoint_model.py:35-42 | `foo`, `bar` and `baz` repeated 334 times or more give lengths 500, 1000 and 500 |
| EndpointExamples.NoScheme | unittests/test_endpoint_model.py:44-53 | `//localhost:22` gives host `localhost`, port 22 and every other field unset |
| EndpointExamples.Paths | unittests/test_endpoint_model.py:55-59 | `https://foo.bar` and `https://foo.bar/` store no path |
| EndpointExamples.Ip | unittests/test_endpoint_model.py:61-63 | `http://127.0.0.1/` stores host `127.0.0.1` |
| EndpointExamples.LessStandardHosts | unittests/test_endpoint_model.py:67-73 | `http://123_server/`, host `456_desktop` and host `_invalid._host.com` pass validation |
| EndpointExamples.NonNumericPortFails | unittests/test_endpoint_model.py:76 | `http://127.0.0.1:portNo/` is a parse error |
| EndpointExamples.NegativePortDeferred | unittests/test_endpoint_model.py:77-78 | `http://127.0.0.1:-1/` parses and validation rejects port -1 |
| EndpointExamples.LargePortDeferred | unittests/test_endpoint_model.py:79-80 | `http://127.0.0.1:66666/` parses and validation rejects port 66666 |
| EndpointExamples.OutOfRangePortsRejected | unittests/test_endpoint_model.py:81-84 | ports -1 and 66666 set directly are rejected |
| EndpointExamples.Ports | unittests/test_endpoint_model.py:86-92 | `http://foo.bar/` gets port 80 and an unknown scheme gets none |
| EndpointExamples.DecodeSpace | unittests/test_endpoint_model.py:95-96 | `%20` decodes to a space |
| EndpointExamples.EncodeSpace | unittests/test_endpoint_model.py:97 | a space encodes to `%20` |
| EndpointExamples.DecodeSpaced | unittests/test_endpoint_model.py:95-96 | `before%20after` decodes to `before after` |
| EndpointExamples.EncodeSpaced | unittests/test_endpoint_model.py:97 | `before after` encodes to `before%20after` |
| EndpointExamples.KeptAvoids | unittests/test_endpoint_model.py:94-100 | path-safe text holds no '%', '?' or '#' |
| EndpointExamples.SpacedAvoids | unittests/test_endpoint_model.py:94-100 | `before%20after` holds no '?' or '#' |
| EndpointExamples.HostPathText | unittests/test_endpoint_model.py:97 | a scheme, a host and a path are written `scheme://host/path` |
| EndpointExamples.BareHostPathText | unittests/test_endpoint_model.py:100 | a host and a path without a scheme are written `host/path` |
| EndpointExamples.SpacedText | unittests/test_endpoint_model.py:94-100 | `before%20after` is stored as `before after` and written back the same |
| EndpointExamples.SpacedPathWithScheme | unittests/test_endpoint_model.py:95-97 | `scheme://host/before%20after` stores the space and is written back as it was |
| EndpointExamples.SpacedPathWithoutScheme | unittests/test_endpoint_model.py:98-100 | `//host/before%20after` stores the space and is written `host/before%20after` |
| EndpointExamples.SpacialChar | unittests/test_endpoint_model.py:94-100 | both URIs of the test store `beforeSpace afterSpace` and are written as the test expects |
| EndpointExamples.SchemeHostText | unittests/test_endpoint_model.py:107 | a scheme and a plain host are written `scheme://host` |
| EndpointExamples.UpperCaseHttp | unittests/test_endpoint_model.py:103-104 | `HTTP` and `HtTp` are schemes that fold to `http` and imply port 80 |
| EndpointExamples.UpperCaseParse | unittests/test_endpoint_model.py:103-106 | the scheme is kept as written and the host folded |
| EndpointExamples.UrlNormalize | unittests/test_endpoint_model.py:102-108 | `HTTP://FOO.BAR/` keeps scheme `HTTP`, stores host `foo.bar`, is written `http://foo.bar` and equals `HtTp://foo.BAR/` |

## Left out

- The relational store is not modelled: `objects.create`, `get` and `filter`, primary keys and `apps`. The endpoint store is a sequence of rows, and the status tables are a sequence of statuses plus two sequences of memberships.
- The fixture records of the broken-status test are not modelled: product type, product, engagement, test, user and `test_type_id`. They do not affect the outcome.
- The `date`, `last_modified` and `mitigated` fields of a status are not modelled. The sweep never reads them.
- `EndpointStore.Store.GetOrCreate`: not safe under concurrent callers. Two callers could both miss and both insert. The model is sequential.
- The full grammar of RFC 3986 is not modelled. Nor is the URL library behind `from_uri`, full IPv4 or IPv6 address validation, or DNS. Hosts are checked by a permissive label grammar or an IPv6 character set.
- Strings.PercentDecode: maps `%XY` to the single character U+00XY and does not decode UTF-8 byte sequences, so `%C3%A9` becomes `Ã©` rather than `é`.
- Strings.EncodeChar: writes a character from U+0080 to U+00FF as one Latin-1 byte, so `é` becomes `%E9` rather than `%C3%A9`; characters from U+0100 up are kept as they are rather than encoded as UTF-8 bytes.
- Strings.Lower: folds ASCII letters only. No other Unicode case mapping is modelled.
- EndpointStore.Store.GetOrCreate: stores the request as given, so a row created for `http` with no port keeps its port unset rather than 80. Rows are compared after inference, so this does not change which row is found.
- The scheme-to-port table holds 21 common IANA service names. The exact table of the library in use is not part of this model. Every scheme in it has a name of at most six characters.
- `Strings.ParseInt` accepts an optional '-' followed by decimal digits. A '+' sign, spaces and non-ASCII digits are not accepted.
- Formatter.FormatParseRoundTrip: covers endpoints with a host only. The text of an endpoint without a host is not claimed to parse back.
- An endpoint built from fields is not normalised by a constructor. Field values are taken as given, as `Endpoint(host='127.0.0.1')` does.
