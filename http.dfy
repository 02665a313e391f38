/**
 * The HTTP vocabulary the storage client works with: header names (lower case, as
 * `http::HeaderName` keeps them), request methods, status codes, the header list a request
 * builder accumulates, and the header map a response carries.
 */
module Http {
  import opened Wrappers
  import opened Errors

  const LAST_MODIFIED: string := "last-modified"
  const ETAG: string := "etag"
  const LEASE_ID: string := "x-ms-lease-id"
  const LEASE_ACTION: string := "x-ms-lease-action"
  const LEASE_STATUS: string := "x-ms-lease-status"
  const LEASE_STATE: string := "x-ms-lease-state"
  const LEASE_DURATION: string := "x-ms-lease-duration"
  const CLIENT_REQUEST_ID: string := "x-ms-client-request-id"
  const BLOB_PUBLIC_ACCESS: string := "x-ms-blob-public-access"
  const HAS_IMMUTABILITY_POLICY: string := "x-ms-has-immutability-policy"
  const HAS_LEGAL_HOLD: string := "x-ms-has-legal-hold"
  /** Every user-defined metadata header starts with this. */
  const META_PREFIX: string := "x-ms-meta-"

  datatype Method = Get | Put | Post | Delete | Head

  type StatusCode = c: int | 100 <= c < 1000 witness 200

  const OK: StatusCode := 200

  /** One header line written into an outgoing request. */
  datatype Header = Header(name: string, value: string)

  /** The values written under `name`, in the order they were written. */
  function HeaderValues(headers: seq<Header>, name: string): (values: seq<string>)
    ensures |values| <= |headers|
  {
    if headers == [] then []
    else
      var rest := HeaderValues(headers[1..], name);
      if headers[0].name == name then [headers[0].value] + rest else rest
  }

  lemma HeaderValuesCons(h: Header, rest: seq<Header>, name: string)
    ensures HeaderValues([h] + rest, name) == (if h.name == name then [h.value] else []) + HeaderValues(rest, name)
  {
    assert ([h] + rest)[1..] == rest;
  }

  /** An outgoing request under construction (`http::request::Builder`): it only ever appends headers. */
  class RequestBuilder {
    var headers: seq<Header>

    constructor ()
      ensures headers == []
    {
      headers := [];
    }

    /** `Builder::header`: appends one header line. */
    method AddHeader(name: string, value: string)
      modifies this
      ensures headers == old(headers) + [Header(name, value)]
    {
      headers := headers + [Header(name, value)];
    }
  }

  /**
   * A response's `http::HeaderMap`: each header name carries the values received for it,
   * in arrival order.
   */
  datatype HeaderMap = HeaderMap(entries: map<string, seq<string>>)

  /** A header map never holds a name without a value. */
  predicate ValidHeaderMap(h: HeaderMap) {
    forall name :: name in h.entries ==> |h.entries[name]| > 0
  }

  /** `HeaderMap::get`: the first value received under `name`. */
  function GetHeader(h: HeaderMap, name: string): (r: Option<string>)
    ensures ValidHeaderMap(h) ==> (r.Some? <==> name in h.entries)
    ensures r.Some? ==> name in h.entries && |h.entries[name]| > 0 && r.value == h.entries[name][0]
  {
    if name in h.entries && |h.entries[name]| > 0 then Some(h.entries[name][0]) else None
  }

  /** The header map a receiver of `headers` would see. */
  function ReceivedHeaders(headers: seq<Header>): (h: HeaderMap)
    ensures ValidHeaderMap(h)
  {
    var m := map i | 0 <= i < |headers| :: headers[i].name := HeaderValues(headers, headers[i].name);
    assert forall i :: 0 <= i < |headers| ==> |HeaderValues(headers, headers[i].name)| > 0 by {
      forall i | 0 <= i < |headers| ensures |HeaderValues(headers, headers[i].name)| > 0 {
        HeaderValuesContains(headers, i);
      }
    }
    HeaderMap(m)
  }

  lemma {:induction false} HeaderValuesContains(headers: seq<Header>, i: nat)
    requires i < |headers|
    ensures headers[i].value in HeaderValues(headers, headers[i].name)
  {
    if i > 0 {
      HeaderValuesContains(headers[1..], i - 1);
    }
  }

  /** `HeaderValue` bytes that `to_str` accepts: visible ASCII and horizontal tab. */
  predicate IsVisibleAscii(c: char) {
    c == '\t' || (' ' <= c <= '~')
  }

  predicate AllVisibleAscii(v: string) {
    forall i :: 0 <= i < |v| ==> IsVisibleAscii(v[i])
  }

  /** `HeaderValue::to_str`. */
  function ToStr(v: string): (r: Result<string>)
    ensures r.Ok? <==> AllVisibleAscii(v)
    ensures r.Ok? ==> r.value == v
    ensures r.Err? ==> r.error == HeaderToStrError
  {
    if AllVisibleAscii(v) then Ok(v) else Err(HeaderToStrError)
  }
}
