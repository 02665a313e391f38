/**
 * The "release blob lease" request builder.
 *
 * The builder holds three mandatory slots (container name, blob name, lease id) and two
 * optional ones (timeout, client request id). Three markers record which mandatory slots
 * have been given a value; in the client they are type parameters, so that `finalize` only
 * exists once all three are set. Here they are fields, `Valid` is the invariant tying each
 * marker to its slot, and `Finalize` requires all three markers.
 */
module ReleaseBlobLease {
  import opened Wrappers
  import opened Http
  import opened Text
  import opened Lease
  import opened StorageClient
  import opened Blob

  /** Rust's `u64`. */
  type U64 = t: int | 0 <= t < 0x1_0000_0000_0000_0000

  datatype ReleaseBlobLeaseBuilder = ReleaseBlobLeaseBuilder(
    client: Client,
    containerNameSet: bool,
    blobNameSet: bool,
    leaseIdSet: bool,
    containerName: Option<string>,
    blobName: Option<string>,
    leaseId: Option<LeaseId>,
    timeout: Option<U64>,
    clientRequestId: Option<string>)

  /** A marker is set exactly when its slot holds a value. */
  predicate Valid(b: ReleaseBlobLeaseBuilder) {
    && (b.containerNameSet <==> b.containerName.Some?)
    && (b.blobNameSet <==> b.blobName.Some?)
    && (b.leaseIdSet <==> b.leaseId.Some?)
  }

  /** The `<Yes, Yes, Yes>` state, the only one offering `finalize`. */
  predicate Finalizable(b: ReleaseBlobLeaseBuilder) {
    b.containerNameSet && b.blobNameSet && b.leaseIdSet
  }

  /** `new`: a builder in the `<No, No, No>` state with every slot empty. */
  function New(client: Client): (b: ReleaseBlobLeaseBuilder)
    ensures Valid(b) && b.client == client
    ensures !b.containerNameSet && !b.blobNameSet && !b.leaseIdSet
    ensures b.containerName == None && b.blobName == None && b.leaseId == None
    ensures b.timeout == None && b.clientRequestId == None
  {
    ReleaseBlobLeaseBuilder(client, false, false, false, None, None, None, None, None)
  }

  // The *Required accessors: available once the marker is set, and never on an empty slot.

  function RequiredContainerName(b: ReleaseBlobLeaseBuilder): (name: string)
    requires Valid(b) && b.containerNameSet
    ensures b.containerName == Some(name)
  {
    b.containerName.value
  }

  function RequiredBlobName(b: ReleaseBlobLeaseBuilder): (name: string)
    requires Valid(b) && b.blobNameSet
    ensures b.blobName == Some(name)
  {
    b.blobName.value
  }

  function RequiredLeaseId(b: ReleaseBlobLeaseBuilder): (id: LeaseId)
    requires Valid(b) && b.leaseIdSet
    ensures b.leaseId == Some(id)
  {
    b.leaseId.value
  }

  // The *Support mutators: each returns a new builder that differs from the old one only in
  // its own slot (and, for a mandatory slot, its marker).

  function WithContainerName(b: ReleaseBlobLeaseBuilder, name: string): (r: ReleaseBlobLeaseBuilder)
    ensures r.containerNameSet && r.containerName == Some(name)
    ensures r.client == b.client
    ensures r.blobNameSet == b.blobNameSet && r.blobName == b.blobName
    ensures r.leaseIdSet == b.leaseIdSet && r.leaseId == b.leaseId
    ensures r.timeout == b.timeout && r.clientRequestId == b.clientRequestId
    ensures Valid(b) ==> Valid(r)
  {
    b.(containerNameSet := true, containerName := Some(name))
  }

  function WithBlobName(b: ReleaseBlobLeaseBuilder, name: string): (r: ReleaseBlobLeaseBuilder)
    ensures r.blobNameSet && r.blobName == Some(name)
    ensures r.client == b.client
    ensures r.containerNameSet == b.containerNameSet && r.containerName == b.containerName
    ensures r.leaseIdSet == b.leaseIdSet && r.leaseId == b.leaseId
    ensures r.timeout == b.timeout && r.clientRequestId == b.clientRequestId
    ensures Valid(b) ==> Valid(r)
  {
    b.(blobNameSet := true, blobName := Some(name))
  }

  function WithLeaseId(b: ReleaseBlobLeaseBuilder, id: LeaseId): (r: ReleaseBlobLeaseBuilder)
    ensures r.leaseIdSet && r.leaseId == Some(id)
    ensures r.client == b.client
    ensures r.containerNameSet == b.containerNameSet && r.containerName == b.containerName
    ensures r.blobNameSet == b.blobNameSet && r.blobName == b.blobName
    ensures r.timeout == b.timeout && r.clientRequestId == b.clientRequestId
    ensures Valid(b) ==> Valid(r)
  {
    b.(leaseIdSet := true, leaseId := Some(id))
  }

  function WithTimeout(b: ReleaseBlobLeaseBuilder, timeout: U64): (r: ReleaseBlobLeaseBuilder)
    ensures r.timeout == Some(timeout)
    ensures r.client == b.client
    ensures r.containerNameSet == b.containerNameSet && r.containerName == b.containerName
    ensures r.blobNameSet == b.blobNameSet && r.blobName == b.blobName
    ensures r.leaseIdSet == b.leaseIdSet && r.leaseId == b.leaseId
    ensures r.clientRequestId == b.clientRequestId
    ensures Valid(b) ==> Valid(r)
  {
    b.(timeout := Some(timeout))
  }

  function WithClientRequestId(b: ReleaseBlobLeaseBuilder, id: string): (r: ReleaseBlobLeaseBuilder)
    ensures r.clientRequestId == Some(id)
    ensures r.client == b.client
    ensures r.containerNameSet == b.containerNameSet && r.containerName == b.containerName
    ensures r.blobNameSet == b.blobNameSet && r.blobName == b.blobName
    ensures r.leaseIdSet == b.leaseIdSet && r.leaseId == b.leaseId
    ensures r.timeout == b.timeout
    ensures Valid(b) ==> Valid(r)
  {
    b.(clientRequestId := Some(id))
  }

  /** A setter a caller may chain: one `with_*` call with its argument. */
  datatype Call =
    | SetContainerName(name: string)
    | SetBlobName(name: string)
    | SetLeaseId(id: LeaseId)
    | SetTimeout(timeout: U64)
    | SetClientRequestId(requestId: string)

  /** The slot a setter writes. */
  function Slot(c: Call): nat {
    match c
    case SetContainerName(_) => 0
    case SetBlobName(_) => 1
    case SetLeaseId(_) => 2
    case SetTimeout(_) => 3
    case SetClientRequestId(_) => 4
  }

  function Step(b: ReleaseBlobLeaseBuilder, c: Call): ReleaseBlobLeaseBuilder {
    match c
    case SetContainerName(name) => WithContainerName(b, name)
    case SetBlobName(name) => WithBlobName(b, name)
    case SetLeaseId(id) => WithLeaseId(b, id)
    case SetTimeout(t) => WithTimeout(b, t)
    case SetClientRequestId(id) => WithClientRequestId(b, id)
  }

  /** The builder a chain of setters produces, applied left to right. */
  function Apply(b: ReleaseBlobLeaseBuilder, calls: seq<Call>): ReleaseBlobLeaseBuilder
    decreases |calls|
  {
    if calls == [] then b else Apply(Step(b, calls[0]), calls[1..])
  }

  predicate Writes(calls: seq<Call>, slot: nat) {
    exists i :: 0 <= i < |calls| && Slot(calls[i]) == slot
  }

  /** A chain sets a marker exactly when the marker was already set or the chain writes its slot. */
  lemma {:induction false} ApplyMarkers(b: ReleaseBlobLeaseBuilder, calls: seq<Call>)
    ensures Apply(b, calls).client == b.client
    ensures Apply(b, calls).containerNameSet == (b.containerNameSet || Writes(calls, 0))
    ensures Apply(b, calls).blobNameSet == (b.blobNameSet || Writes(calls, 1))
    ensures Apply(b, calls).leaseIdSet == (b.leaseIdSet || Writes(calls, 2))
    ensures Valid(b) ==> Valid(Apply(b, calls))
    decreases |calls|
  {
    if calls != [] {
      ApplyMarkers(Step(b, calls[0]), calls[1..]);
      forall slot: nat ensures Writes(calls, slot) == (Slot(calls[0]) == slot || Writes(calls[1..], slot)) {
        if Writes(calls, slot) && Slot(calls[0]) != slot {
          var i :| 0 <= i < |calls| && Slot(calls[i]) == slot;
          assert calls[1..][i - 1] == calls[i];
        }
        if Writes(calls[1..], slot) {
          var i :| 0 <= i < |calls[1..]| && Slot(calls[1..][i]) == slot;
          assert calls[i + 1] == calls[1..][i];
        }
      }
    }
  }

  /**
   * The typestate guarantee: a chain of setters started from `new` reaches the state offering
   * `finalize` exactly when it sets the container name, the blob name and the lease id, in
   * any order and among any other setters; and every builder so reached keeps the invariant.
   */
  lemma FinalizableIff(client: Client, calls: seq<Call>)
    ensures Valid(Apply(New(client), calls))
    ensures Finalizable(Apply(New(client), calls)) <==> Writes(calls, 0) && Writes(calls, 1) && Writes(calls, 2)
  {
    ApplyMarkers(New(client), calls);
  }

  lemma {:induction false} ApplyConcat(b: ReleaseBlobLeaseBuilder, xs: seq<Call>, ys: seq<Call>)
    ensures Apply(b, xs + ys) == Apply(Apply(b, xs), ys)
    decreases |xs|
  {
    if xs == [] {
      assert xs + ys == ys;
    } else {
      ApplyConcat(Step(b, xs[0]), xs[1..], ys);
      assert (xs + ys)[1..] == xs[1..] + ys;
    }
  }

  lemma ApplyPair(b: ReleaseBlobLeaseBuilder, c1: Call, c2: Call)
    ensures Apply(b, [c1, c2]) == Step(Step(b, c1), c2)
  {
    assert [c1, c2][1..] == [c2];
    assert [c2][1..] == [];
    assert Apply(b, [c1, c2]) == Apply(Step(b, c1), [c2]);
    assert Apply(Step(b, c1), [c2]) == Apply(Step(Step(b, c1), c2), []);
  }

  /**
   * Order independence: swapping two neighbouring setters of different slots anywhere in a
   * chain yields the same builder.
   */
  lemma ApplySwap(b: ReleaseBlobLeaseBuilder, xs: seq<Call>, c1: Call, c2: Call, ys: seq<Call>)
    requires Slot(c1) != Slot(c2)
    ensures Apply(b, xs + [c1, c2] + ys) == Apply(b, xs + [c2, c1] + ys)
  {
    ApplyConcat(b, xs + [c1, c2], ys);
    ApplyConcat(b, xs + [c2, c1], ys);
    ApplyConcat(b, xs, [c1, c2]);
    ApplyConcat(b, xs, [c2, c1]);
    var m := Apply(b, xs);
    ApplyPair(m, c1, c2);
    ApplyPair(m, c2, c1);
  }

  /** Last write wins: a setter called twice for the same slot leaves only the second value. */
  lemma ApplyOverwrite(b: ReleaseBlobLeaseBuilder, xs: seq<Call>, c1: Call, c2: Call, ys: seq<Call>)
    requires Slot(c1) == Slot(c2)
    ensures Apply(b, xs + [c1, c2] + ys) == Apply(b, xs + [c2] + ys)
  {
    ApplyConcat(b, xs + [c1, c2], ys);
    ApplyConcat(b, xs + [c2], ys);
    ApplyConcat(b, xs, [c1, c2]);
    ApplyConcat(b, xs, [c2]);
    var m := Apply(b, xs);
    ApplyPair(m, c1, c2);
    assert [c2][1..] == [];
  }

  /** What `finalize` hands to the transport: the request to send and the status that means success. */
  datatype ReleaseRequest = ReleaseRequest(uri: string, verb: Method, headers: seq<Header>, expectedStatus: StatusCode)

  /** `TimeoutOption::to_uri_parameter`. */
  function TimeoutUriParameter(timeout: Option<U64>): (p: Option<string>)
    ensures p.Some? <==> timeout.Some?
    ensures p.Some? ==> |p.value| > 8 && p.value[..8] == "timeout=" && '&' !in p.value
                        && ParseDecimal(p.value[8..]) == Some(timeout.value)
  {
    match timeout
    case Some(t) =>
      var digits := NatToString(t);
      ParseNatToString(t);
      assert ("timeout=" + digits)[8..] == digits;
      assert '&' !in "timeout=" + digits by {
        forall i | 0 <= i < |"timeout=" + digits| ensures ("timeout=" + digits)[i] != '&' {
          if i >= 8 { assert ("timeout=" + digits)[i] == digits[i - 8]; }
        }
      }
      Some("timeout=" + digits)
    case None => None
  }

  /** The headers the request's header writer adds, in order. */
  function ReleaseHeaders(id: LeaseId, clientRequestId: Option<string>): seq<Header> {
    [Header(LEASE_ID, id.hyphenated), Header(LEASE_ACTION, "release")]
      + match clientRequestId
        case Some(requestId) => [Header(CLIENT_REQUEST_ID, requestId)]
        case None => []
  }

  lemma ReleaseHeadersValues(id: LeaseId, clientRequestId: Option<string>)
    ensures HeaderValues(ReleaseHeaders(id, clientRequestId), LEASE_ID) == [id.hyphenated]
    ensures HeaderValues(ReleaseHeaders(id, clientRequestId), LEASE_ACTION) == ["release"]
    ensures HeaderValues(ReleaseHeaders(id, clientRequestId), CLIENT_REQUEST_ID)
            == if clientRequestId.Some? then [clientRequestId.value] else []
    ensures |ReleaseHeaders(id, clientRequestId)| == if clientRequestId.Some? then 3 else 2
  {
    assert LEASE_ID != LEASE_ACTION && LEASE_ID != CLIENT_REQUEST_ID && LEASE_ACTION != CLIENT_REQUEST_ID by {
      assert |LEASE_ID| == 13 && |LEASE_ACTION| == 17 && |CLIENT_REQUEST_ID| == 22;
    }
    var tail := if clientRequestId.Some? then [Header(CLIENT_REQUEST_ID, clientRequestId.value)] else [];
    assert ReleaseHeaders(id, clientRequestId) == [Header(LEASE_ID, id.hyphenated)] + ([Header(LEASE_ACTION, "release")] + tail);
    forall name ensures HeaderValues(ReleaseHeaders(id, clientRequestId), name)
      == (if LEASE_ID == name then [id.hyphenated] else [])
         + (if LEASE_ACTION == name then ["release"] else [])
         + HeaderValues(tail, name)
    {
      HeaderValuesCons(Header(LEASE_ID, id.hyphenated), [Header(LEASE_ACTION, "release")] + tail, name);
      HeaderValuesCons(Header(LEASE_ACTION, "release"), tail, name);
    }
    if clientRequestId.Some? {
      forall name ensures HeaderValues(tail, name) == if CLIENT_REQUEST_ID == name then [clientRequestId.value] else [] {
        HeaderValuesCons(tail[0], [], name);
        assert tail == [tail[0]] + [];
      }
    }
  }

  /**
   * `finalize`: a `PUT` to the blob's URI with `comp=lease` (and the timeout when one was
   * given), carrying the lease id, the `release` action and the client request id when
   * one was given; `200 OK` is the only success.
   */
  function Finalize(b: ReleaseBlobLeaseBuilder): (req: ReleaseRequest)
    requires Valid(b) && Finalizable(b)
    ensures req.verb == Put && req.expectedStatus == OK
    ensures HeaderValues(req.headers, LEASE_ID) == [RequiredLeaseId(b).hyphenated]
    ensures HeaderValues(req.headers, LEASE_ACTION) == ["release"]
    ensures HeaderValues(req.headers, CLIENT_REQUEST_ID) == if b.clientRequestId.Some? then [b.clientRequestId.value] else []
    ensures |req.headers| == if b.clientRequestId.Some? then 3 else 2
  {
    var uri := BlobUri(b.client.account, RequiredContainerName(b), RequiredBlobName(b), Some(LeaseQuery(b.timeout)));
    ReleaseHeadersValues(RequiredLeaseId(b), b.clientRequestId);
    ReleaseRequest(uri, Put, ReleaseHeaders(RequiredLeaseId(b), b.clientRequestId), OK)
  }

  /** The query `finalize` appends to the blob URI: `comp=lease`, then the timeout parameter if any. */
  function LeaseQuery(timeout: Option<U64>): string {
    match TimeoutUriParameter(timeout)
    case Some(parameter) => "comp=lease" + "&" + parameter
    case None => "comp=lease"
  }

  /** The lease query splits at `&` into `comp=lease` and, with a timeout, one `timeout=` parameter. */
  lemma LeaseQueryPieces(timeout: Option<U64>)
    ensures var pieces := SplitOn(LeaseQuery(timeout), '&');
            && pieces[0] == "comp=lease"
            && (timeout.None? ==> pieces == ["comp=lease"])
            && (timeout.Some? ==> |pieces| == 2 && |pieces[1]| > 8 && pieces[1][..8] == "timeout="
                                  && ParseDecimal(pieces[1][8..]) == Some(timeout.value))
  {
    assert '&' !in "comp=lease";
    if timeout.Some? {
      var parameter := TimeoutUriParameter(timeout).value;
      SplitOnAt("comp=lease", '&', parameter);
      SplitOnNoSep(parameter, '&');
    } else {
      SplitOnNoSep("comp=lease", '&');
    }
  }

  /**
   * The URI `finalize` builds addresses the blob, and its query is `comp=lease` followed,
   * exactly when a timeout was given, by one `timeout=` parameter from which the timeout
   * reads back.
   */
  lemma FinalizeUri(b: ReleaseBlobLeaseBuilder)
    requires Valid(b) && Finalizable(b)
    requires '?' !in b.client.account
    ensures var parts := SplitQuery(Finalize(b).uri);
            && parts.0 == SplitQuery(BlobUri(b.client.account, RequiredContainerName(b), RequiredBlobName(b), None)).0
            && parts.1.Some?
            && var pieces := SplitOn(parts.1.value, '&');
               && pieces[0] == "comp=lease"
               && (b.timeout.None? ==> pieces == ["comp=lease"])
               && (b.timeout.Some? ==> |pieces| == 2 && |pieces[1]| > 8 && pieces[1][..8] == "timeout="
                                       && ParseDecimal(pieces[1][8..]) == Some(b.timeout.value))
  {
    var account, cn, bn := b.client.account, RequiredContainerName(b), RequiredBlobName(b);
    var query := LeaseQuery(b.timeout);
    BlobUriParts(account, cn, bn, Some(query));
    BlobUriParts(account, cn, bn, None);
    assert Finalize(b).uri == BlobUri(account, cn, bn, Some(query));
    LeaseQueryPieces(b.timeout);
  }
}
