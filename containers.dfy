/**
 * The container entity of the blob service and the ways the client obtains it: decoding the
 * headers of a container response, decoding one `<Container>` element of a listing, and the
 * container's resource URI. Also the public-access level and its request header.
 */
module Containers {
  import opened Wrappers
  import opened Errors
  import opened Http
  import opened Text
  import opened Lease
  import opened Xml
  import opened StorageClient
  import PercentEncoding

  /** Who may read the container's data without authorisation. */
  datatype PublicAccess = None | Container | Blob

  function PublicAccessName(pa: PublicAccess): string {
    match pa
    case None => "none"
    case Container => "container"
    case Blob => "blob"
  }

  function PublicAccessFromStr(text: string): (r: Option<PublicAccess>)
    ensures r.Some? ==> PublicAccessName(r.value) == text
    ensures forall pa :: PublicAccessName(pa) == text ==> r == Some(pa)
  {
    if text == "none" then Some(PublicAccess.None)
    else if text == "container" then Some(PublicAccess.Container)
    else if text == "blob" then Some(PublicAccess.Blob)
    else Option.None
  }

  /** A UTC instant, as the RFC 2822 date parser produces it. */
  datatype DateTime = DateTime(unixSeconds: int)

  datatype Container = Container(
    name: string,
    lastModified: DateTime,
    eTag: string,
    leaseStatus: LeaseStatus,
    leaseState: LeaseState,
    leaseDuration: Option<LeaseDuration>,
    publicAccess: PublicAccess,
    hasImmutabilityPolicy: bool,
    hasLegalHold: bool,
    metadata: map<string, string>)

  /** Turns the result of a `from_str` on `text` into a decoding result. */
  function Parsed<T>(text: string, parsed: Option<T>): (r: Result<T>)
    ensures r.Ok? <==> parsed.Some?
  {
    match parsed
    case Some(v) => Ok(v)
    case None => Err(ParseError(text))
  }

  // ---------------------------------------------------------------------------------------
  // The public-access header

  /** `public_access_from_header`: an absent header means no public access. */
  function PublicAccessFromHeader(h: HeaderMap): (r: Result<PublicAccess>)
    ensures GetHeader(h, BLOB_PUBLIC_ACCESS).None? ==> r == Ok(PublicAccess.None)
    ensures r.Ok? && GetHeader(h, BLOB_PUBLIC_ACCESS).Some? ==> GetHeader(h, BLOB_PUBLIC_ACCESS) == Some(PublicAccessName(r.value))
    ensures GetHeader(h, BLOB_PUBLIC_ACCESS).Some? && r.Err? ==> r.error == HeaderToStrError || r.error == ParseError(GetHeader(h, BLOB_PUBLIC_ACCESS).value)
    ensures forall pa :: GetHeader(h, BLOB_PUBLIC_ACCESS) == Some(PublicAccessName(pa)) ==> r == Ok(pa)
    ensures GetHeader(h, BLOB_PUBLIC_ACCESS).Some? && !AllVisibleAscii(GetHeader(h, BLOB_PUBLIC_ACCESS).value)
            ==> r == Err(HeaderToStrError)
    ensures GetHeader(h, BLOB_PUBLIC_ACCESS).Some? && AllVisibleAscii(GetHeader(h, BLOB_PUBLIC_ACCESS).value)
            && PublicAccessFromStr(GetHeader(h, BLOB_PUBLIC_ACCESS).value).None?
            ==> r == Err(ParseError(GetHeader(h, BLOB_PUBLIC_ACCESS).value))
  {
    match GetHeader(h, BLOB_PUBLIC_ACCESS)
    case Some(v) =>
      var text :- ToStr(v);
      Parsed(text, PublicAccessFromStr(text))
    case None => Ok(PublicAccess.None)
  }

  /** The headers `PublicAccessRequired::add_header` writes for `pa`. */
  function PublicAccessHeaders(pa: PublicAccess): seq<Header> {
    if pa != PublicAccess.None then [Header(BLOB_PUBLIC_ACCESS, PublicAccessName(pa))] else []
  }

  /** `PublicAccessRequired::add_header`. */
  method AddPublicAccessHeader(pa: PublicAccess, builder: RequestBuilder)
    modifies builder
    ensures builder.headers == old(builder.headers) + PublicAccessHeaders(pa)
  {
    if pa != PublicAccess.None {
      builder.AddHeader(BLOB_PUBLIC_ACCESS, PublicAccessName(pa));
    }
  }

  /**
   * The public-access header is written exactly when access is not `None`, and a service
   * that reads it back with `public_access_from_header` recovers the level, `None` included.
   */
  lemma PublicAccessHeaderRoundTrip(pa: PublicAccess)
    ensures |HeaderValues(PublicAccessHeaders(pa), BLOB_PUBLIC_ACCESS)| == 1 <==> pa != PublicAccess.None
    ensures PublicAccessFromHeader(ReceivedHeaders(PublicAccessHeaders(pa))) == Ok(pa)
  {
    var hs := PublicAccessHeaders(pa);
    if pa != PublicAccess.None {
      HeaderValuesCons(hs[0], [], BLOB_PUBLIC_ACCESS);
      assert hs == [hs[0]] + [];
      var received := ReceivedHeaders(hs);
      assert BLOB_PUBLIC_ACCESS == hs[0].name;
      assert received.entries[BLOB_PUBLIC_ACCESS] == [PublicAccessName(pa)];
      assert AllVisibleAscii(PublicAccessName(pa));
    } else {
      assert ReceivedHeaders(hs).entries == map[];
    }
  }

  // ---------------------------------------------------------------------------------------
  // Decoding the headers of a container response (`Container::from_response`)

  /** The text of a header that must be present. */
  function RequiredHeaderText(h: HeaderMap, name: string): (r: Result<string>)
    ensures r.Err? && r.error.MissingHeaderError? ==> GetHeader(h, name).None? && r.error.header == name
    ensures GetHeader(h, name).None? ==> r == Err(MissingHeaderError(name))
    ensures r.Ok? ==> GetHeader(h, name) == Some(r.value)
    ensures GetHeader(h, name).Some?
            ==> r == if AllVisibleAscii(GetHeader(h, name).value) then Ok(GetHeader(h, name).value) else Err(HeaderToStrError)
  {
    match GetHeader(h, name)
    case Some(v) => ToStr(v)
    case None => Err(MissingHeaderError(name))
  }

  function DecodeLastModified(h: HeaderMap, parseDate: string -> Option<DateTime>): Result<DateTime> {
    var text :- RequiredHeaderText(h, LAST_MODIFIED);
    match parseDate(text)
    case Some(d) => Ok(d)
    case None => Err(DateTimeParseError(text))
  }

  function DecodeETag(h: HeaderMap): Result<string> {
    RequiredHeaderText(h, ETAG)
  }

  function DecodeLeaseStatus(h: HeaderMap): Result<LeaseStatus> {
    var text :- RequiredHeaderText(h, LEASE_STATUS);
    Parsed(text, LeaseStatusFromStr(text))
  }

  function DecodeLeaseState(h: HeaderMap): Result<LeaseState> {
    var text :- RequiredHeaderText(h, LEASE_STATE);
    Parsed(text, LeaseStateFromStr(text))
  }

  function DecodeLeaseDuration(h: HeaderMap): Result<Option<LeaseDuration>> {
    match GetHeader(h, LEASE_DURATION)
    case Some(v) =>
      var text :- ToStr(v);
      var d :- Parsed(text, LeaseDurationFromStr(text));
      Ok(Some(d))
    case None => Ok(Option.None)
  }

  /** A mandatory `true`/`false` header. */
  function DecodeFlag(h: HeaderMap, name: string): Result<bool> {
    var text :- RequiredHeaderText(h, name);
    Parsed(text, ParseBool(text))
  }

  predicate IsMetadataHeader(name: string) {
    META_PREFIX <= name
  }

  function Last(values: seq<string>): string
    requires |values| > 0
  {
    values[|values| - 1]
  }

  /**
   * The metadata of a container response: every header whose name starts with the metadata
   * prefix, keyed by its full name, with the last value received under that name; an error if
   * any such value is not visible ASCII.
   */
  function MetadataFromHeaders(h: HeaderMap): Result<map<string, string>>
    requires ValidHeaderMap(h)
  {
    if forall name, i :: name in h.entries && IsMetadataHeader(name) && 0 <= i < |h.entries[name]| ==> AllVisibleAscii(h.entries[name][i])
    then Ok(map name | name in h.entries && IsMetadataHeader(name) :: Last(h.entries[name]))
    else Err(HeaderToStrError)
  }

  /** The decoding `from_response` performs, as one expression. */
  function ContainerFromHeaders(name: string, h: HeaderMap, parseDate: string -> Option<DateTime>): Result<Container>
    requires ValidHeaderMap(h)
  {
    var lastModified :- DecodeLastModified(h, parseDate);
    var eTag :- DecodeETag(h);
    var leaseStatus :- DecodeLeaseStatus(h);
    var leaseState :- DecodeLeaseState(h);
    var leaseDuration :- DecodeLeaseDuration(h);
    var publicAccess :- PublicAccessFromHeader(h);
    var hasImmutabilityPolicy :- DecodeFlag(h, HAS_IMMUTABILITY_POLICY);
    var hasLegalHold :- DecodeFlag(h, HAS_LEGAL_HOLD);
    var metadata :- MetadataFromHeaders(h);
    Ok(Container.Container(name, lastModified, eTag, leaseStatus, leaseState, leaseDuration,
                 publicAccess, hasImmutabilityPolicy, hasLegalHold, metadata))
  }

  /**
   * The metadata loop of `from_response`: visits the header names in whatever order the map
   * yields them and, under each, every value in arrival order.
   */
  method CollectMetadata(h: HeaderMap) returns (r: Result<map<string, string>>)
    requires ValidHeaderMap(h)
    ensures r == MetadataFromHeaders(h)
  {
    var metadata: map<string, string> := map[];
    var pending := h.entries.Keys;
    while pending != {}
      invariant pending <= h.entries.Keys
      invariant forall name, i :: name in h.entries && name !in pending && IsMetadataHeader(name) && 0 <= i < |h.entries[name]|
                  ==> AllVisibleAscii(h.entries[name][i])
      invariant metadata == map name | name in h.entries && name !in pending && IsMetadataHeader(name) :: Last(h.entries[name])
      decreases pending
    {
      var key :| key in pending;
      if IsMetadataHeader(key) {
        var values := h.entries[key];
        ghost var before := metadata;
        var j := 0;
        while j < |values|
          invariant 0 <= j <= |values|
          invariant forall i :: 0 <= i < j ==> AllVisibleAscii(values[i])
          invariant metadata == if j == 0 then before else before[key := values[j - 1]]
        {
          var text := ToStr(values[j]);
          if text.Err? {
            assert !(forall name, i :: name in h.entries && IsMetadataHeader(name) && 0 <= i < |h.entries[name]|
                       ==> AllVisibleAscii(h.entries[name][i]));
            r := Err(text.error);
            return;
          }
          metadata := metadata[key := text.value];
          j := j + 1;
        }
      }
      pending := pending - {key};
    }
    assert metadata == map name | name in h.entries && IsMetadataHeader(name) :: Last(h.entries[name]);
    r := Ok(metadata);
  }

  /**
   * `Container::from_response`. The decoding chain itself is `ContainerFromHeaders`; the
   * method runs it step by step so that the metadata comes from the loop in `CollectMetadata`.
   */
  method FromResponse(name: string, h: HeaderMap, parseDate: string -> Option<DateTime>) returns (r: Result<Container>)
    requires ValidHeaderMap(h)
    ensures r == ContainerFromHeaders(name, h, parseDate)
  {
    var lastModified :- DecodeLastModified(h, parseDate);
    var eTag :- DecodeETag(h);
    var leaseStatus :- DecodeLeaseStatus(h);
    var leaseState :- DecodeLeaseState(h);
    var leaseDuration :- DecodeLeaseDuration(h);
    var publicAccess :- PublicAccessFromHeader(h);
    var hasImmutabilityPolicy :- DecodeFlag(h, HAS_IMMUTABILITY_POLICY);
    var hasLegalHold :- DecodeFlag(h, HAS_LEGAL_HOLD);
    var metadata :- CollectMetadata(h);
    r := Ok(Container.Container(name, lastModified, eTag, leaseStatus, leaseState, leaseDuration,
                      publicAccess, hasImmutabilityPolicy, hasLegalHold, metadata));
  }

  /** The mandatory headers of a container response, in the order `from_response` checks them. */
  const MandatoryHeaders: seq<string> :=
    [LAST_MODIFIED, ETAG, LEASE_STATUS, LEASE_STATE, HAS_IMMUTABILITY_POLICY, HAS_LEGAL_HOLD]

  /** Every field `from_response` reads before it looks for the `i`-th mandatory header decodes. */
  predicate DecodesBefore(h: HeaderMap, parseDate: string -> Option<DateTime>, i: nat) {
    && (i > 0 ==> DecodeLastModified(h, parseDate).Ok?)
    && (i > 1 ==> DecodeETag(h).Ok?)
    && (i > 2 ==> DecodeLeaseStatus(h).Ok?)
    && (i > 3 ==> DecodeLeaseState(h).Ok? && DecodeLeaseDuration(h).Ok? && PublicAccessFromHeader(h).Ok?)
    && (i > 4 ==> DecodeFlag(h, HAS_IMMUTABILITY_POLICY).Ok?)
    && (i > 5 ==> DecodeFlag(h, HAS_LEGAL_HOLD).Ok?)
  }

  /**
   * A missing mandatory header is reported by name, provided everything read before it
   * decoded: the first missing one in check order is the one named.
   */
  lemma MissingHeaderReported(name: string, h: HeaderMap, parseDate: string -> Option<DateTime>, i: nat)
    requires ValidHeaderMap(h) && i < |MandatoryHeaders|
    requires DecodesBefore(h, parseDate, i)
    requires GetHeader(h, MandatoryHeaders[i]).None?
    ensures ContainerFromHeaders(name, h, parseDate) == Err(MissingHeaderError(MandatoryHeaders[i]))
  {
  }

  /**
   * Conversely, `MissingHeaderError` names only a mandatory header that is absent and that
   * was reached: everything read before it decoded.
   */
  lemma MissingHeaderIsAbsent(name: string, h: HeaderMap, parseDate: string -> Option<DateTime>, header: string)
    requires ValidHeaderMap(h)
    requires ContainerFromHeaders(name, h, parseDate) == Err(MissingHeaderError(header))
    ensures exists i :: 0 <= i < |MandatoryHeaders| && MandatoryHeaders[i] == header
                        && GetHeader(h, header).None? && DecodesBefore(h, parseDate, i)
  {
    if DecodeLastModified(h, parseDate).Err? {
      assert MandatoryHeaders[0] == header;
    } else if DecodeETag(h).Err? {
      assert MandatoryHeaders[1] == header;
    } else if DecodeLeaseStatus(h).Err? {
      assert MandatoryHeaders[2] == header;
    } else if DecodeLeaseState(h).Err? {
      assert MandatoryHeaders[3] == header;
    } else if DecodeLeaseDuration(h).Err? || PublicAccessFromHeader(h).Err? {
      assert false;
    } else if DecodeFlag(h, HAS_IMMUTABILITY_POLICY).Err? {
      assert MandatoryHeaders[4] == header;
    } else if DecodeFlag(h, HAS_LEGAL_HOLD).Err? {
      assert MandatoryHeaders[5] == header;
    } else {
      assert false;
    }
  }

  /**
   * `from_response` succeeds exactly when every field decodes, and the container it returns
   * carries the given name and the header texts verbatim or decoded.
   */
  lemma FromResponseFields(name: string, h: HeaderMap, parseDate: string -> Option<DateTime>)
    requires ValidHeaderMap(h)
    ensures var r := ContainerFromHeaders(name, h, parseDate);
            r.Ok? <==> DecodesBefore(h, parseDate, |MandatoryHeaders|) && MetadataFromHeaders(h).Ok?
    ensures var r := ContainerFromHeaders(name, h, parseDate);
            r.Ok? ==>
              && r.value.name == name
              && GetHeader(h, LAST_MODIFIED).Some? && parseDate(GetHeader(h, LAST_MODIFIED).value) == Some(r.value.lastModified)
              && GetHeader(h, ETAG) == Some(r.value.eTag)
              && GetHeader(h, LEASE_STATUS) == Some(LeaseStatusName(r.value.leaseStatus))
              && GetHeader(h, LEASE_STATE) == Some(LeaseStateName(r.value.leaseState))
              && (r.value.leaseDuration.None? <==> GetHeader(h, LEASE_DURATION).None?)
              && (r.value.leaseDuration.Some? ==> GetHeader(h, LEASE_DURATION) == Some(LeaseDurationName(r.value.leaseDuration.value)))
              && (GetHeader(h, BLOB_PUBLIC_ACCESS).None? ==> r.value.publicAccess == PublicAccess.None)
              && (GetHeader(h, BLOB_PUBLIC_ACCESS).Some? ==> GetHeader(h, BLOB_PUBLIC_ACCESS) == Some(PublicAccessName(r.value.publicAccess)))
              && GetHeader(h, HAS_IMMUTABILITY_POLICY) == Some(if r.value.hasImmutabilityPolicy then "true" else "false")
              && GetHeader(h, HAS_LEGAL_HOLD) == Some(if r.value.hasLegalHold then "true" else "false")
  {
  }

  /**
   * The metadata `from_response` returns holds exactly the headers whose name starts with
   * the metadata prefix, keyed by the full header name, each with its last value.
   */
  lemma FromResponseMetadata(name: string, h: HeaderMap, parseDate: string -> Option<DateTime>)
    requires ValidHeaderMap(h)
    requires ContainerFromHeaders(name, h, parseDate).Ok?
    ensures var metadata := ContainerFromHeaders(name, h, parseDate).value.metadata;
            && (forall key :: key in metadata <==> key in h.entries && IsMetadataHeader(key))
            && (forall key :: key in metadata ==> metadata[key] == Last(h.entries[key]))
  {
  }

  // ---------------------------------------------------------------------------------------
  // Decoding a `<Container>` element of a listing (`Container::parse`)

  /** Text read as a `String` is taken as it is. */
  function TextAsIs(text: string): Option<string> {
    Some(text)
  }

  const NOT_ELEMENT_MESSAGE: string := "Metadata should contain an ElementNode"
  const EMPTY_MESSAGE: string := "Metadata node should not be empty"
  const NOT_TEXT_MESSAGE: string := "Metadata node should contain a CharacterNode with metadata value"

  /** A well-formed metadata entry: an element whose first child is text. */
  predicate IsMetadataEntry(x: Node) {
    x.ElementNode? && |x.element.children| > 0 && x.element.children[0].CharacterNode?
  }

  /** The key a metadata entry contributes: its element name. */
  function EntryKey(x: Node): string {
    if x.ElementNode? then x.element.name else ""
  }

  /** The value a metadata entry contributes: the text of its first child. */
  function EntryText(x: Node): string {
    if IsMetadataEntry(x) then x.element.children[0].text else ""
  }

  /** The key and value one child of a `<Metadata>` element contributes, or why it cannot. */
  function MetadataEntry(x: Node): (r: Result<(string, string)>)
    ensures r.Ok? <==> IsMetadataEntry(x)
    ensures r.Ok? ==> r.value == (EntryKey(x), EntryText(x))
  {
    match x
    case ElementNode(e) =>
      if |e.children| == 0 then Err(UnexpectedXMLError(EMPTY_MESSAGE))
      else if e.children[0].CharacterNode? then Ok((e.name, e.children[0].text))
      else Err(UnexpectedXMLError(NOT_TEXT_MESSAGE))
    case _ => Err(UnexpectedXMLError(NOT_ELEMENT_MESSAGE))
  }

  /** The three ways a metadata child is refused, each with its own message. */
  lemma MetadataEntryErrors(x: Node)
    ensures !x.ElementNode? ==> MetadataEntry(x) == Err(UnexpectedXMLError(NOT_ELEMENT_MESSAGE))
    ensures x.ElementNode? && x.element.children == [] ==> MetadataEntry(x) == Err(UnexpectedXMLError(EMPTY_MESSAGE))
    ensures x.ElementNode? && x.element.children != [] && !x.element.children[0].CharacterNode?
            ==> MetadataEntry(x) == Err(UnexpectedXMLError(NOT_TEXT_MESSAGE))
  {
  }

  /** Inserts the entries in order into `acc`, stopping at the first refused one. */
  function MetadataFromXml(entries: seq<Node>, acc: map<string, string>): Result<map<string, string>>
    decreases |entries|
  {
    if entries == [] then Ok(acc)
    else
      var entry :- MetadataEntry(entries[0]);
      MetadataFromXml(entries[1..], acc[entry.0 := entry.1])
  }

  /** The children of all `<Metadata>` elements, in document order. */
  function MetadataChildren(metadataNodes: seq<Element>): seq<Node> {
    if metadataNodes == [] then [] else metadataNodes[0].children + MetadataChildren(metadataNodes[1..])
  }

  /** No later entry carries the same key as entry `i`. */
  predicate IsLastWithKey(entries: seq<Node>, i: nat)
    requires i < |entries|
  {
    forall j :: i < j < |entries| ==> EntryKey(entries[j]) != EntryKey(entries[i])
  }

  /** The metadata fold succeeds exactly when every entry is well formed. */
  lemma {:induction false} XmlMetadataSucceedsIff(entries: seq<Node>, acc: map<string, string>)
    ensures MetadataFromXml(entries, acc).Ok? <==> forall k :: 0 <= k < |entries| ==> IsMetadataEntry(entries[k])
    decreases |entries|
  {
    if entries != [] {
      if IsMetadataEntry(entries[0]) {
        var entry := MetadataEntry(entries[0]).value;
        XmlMetadataSucceedsIff(entries[1..], acc[entry.0 := entry.1]);
        assert forall k :: 0 < k < |entries| ==> entries[k] == entries[1..][k - 1];
      }
    }
  }

  /** A refused entry is reported with its own message when every entry before it is well formed. */
  lemma {:induction false} XmlMetadataFirstError(entries: seq<Node>, acc: map<string, string>, i: nat)
    requires i < |entries| && !IsMetadataEntry(entries[i])
    requires forall k :: 0 <= k < i ==> IsMetadataEntry(entries[k])
    ensures MetadataFromXml(entries, acc) == Err(MetadataEntry(entries[i]).error)
    decreases i
  {
    if i > 0 {
      var entry := MetadataEntry(entries[0]).value;
      assert entries[1..][i - 1] == entries[i];
      XmlMetadataFirstError(entries[1..], acc[entry.0 := entry.1], i - 1);
    }
  }

  /** The keys the entries carry. */
  function EntryKeys(entries: seq<Node>): (keys: set<string>)
    ensures forall k :: 0 <= k < |entries| ==> EntryKey(entries[k]) in keys
    ensures forall key :: key in keys ==> exists k :: 0 <= k < |entries| && EntryKey(entries[k]) == key
  {
    set k | 0 <= k < |entries| :: EntryKey(entries[k])
  }

  /** The keys of a non-empty run of entries: the first one's and the rest's. */
  lemma EntryKeysCons(entries: seq<Node>)
    requires entries != []
    ensures EntryKeys(entries) == {EntryKey(entries[0])} + EntryKeys(entries[1..])
  {
    forall key | key in EntryKeys(entries) ensures key in {EntryKey(entries[0])} + EntryKeys(entries[1..]) {
      var k :| 0 <= k < |entries| && EntryKey(entries[k]) == key;
      if k > 0 { assert entries[1..][k - 1] == entries[k]; }
    }
    forall key | key in EntryKeys(entries[1..]) ensures key in EntryKeys(entries) {
      var k :| 0 <= k < |entries[1..]| && EntryKey(entries[1..][k]) == key;
      assert entries[k + 1] == entries[1..][k];
    }
  }

  /** One well-formed entry is inserted, and the fold goes on with the rest. */
  lemma XmlMetadataStep(entries: seq<Node>, acc: map<string, string>)
    requires entries != [] && IsMetadataEntry(entries[0])
    ensures MetadataFromXml(entries, acc)
            == MetadataFromXml(entries[1..], acc[EntryKey(entries[0]) := EntryText(entries[0])])
  {
  }

  /** When every entry is well formed, the result holds the keys of `acc` and of the entries. */
  lemma {:induction false} XmlMetadataKeys(entries: seq<Node>, acc: map<string, string>)
    requires forall k :: 0 <= k < |entries| ==> IsMetadataEntry(entries[k])
    ensures MetadataFromXml(entries, acc).Ok?
    ensures MetadataFromXml(entries, acc).value.Keys == acc.Keys + EntryKeys(entries)
    decreases |entries|
  {
    if entries != [] {
      var rest := entries[1..];
      assert forall k :: 0 <= k < |rest| ==> rest[k] == entries[k + 1];
      XmlMetadataStep(entries, acc);
      XmlMetadataKeys(rest, acc[EntryKey(entries[0]) := EntryText(entries[0])]);
      EntryKeysCons(entries);
    }
  }

  /** A key no entry carries keeps its value from `acc`. */
  lemma {:induction false} XmlMetadataKeepsAcc(entries: seq<Node>, acc: map<string, string>, key: string)
    requires forall k :: 0 <= k < |entries| ==> IsMetadataEntry(entries[k])
    requires key in acc && key !in EntryKeys(entries)
    ensures MetadataFromXml(entries, acc).Ok?
    ensures key in MetadataFromXml(entries, acc).value && MetadataFromXml(entries, acc).value[key] == acc[key]
    decreases |entries|
  {
    if entries != [] {
      var rest := entries[1..];
      assert forall k :: 0 <= k < |rest| ==> rest[k] == entries[k + 1];
      XmlMetadataStep(entries, acc);
      EntryKeysCons(entries);
      XmlMetadataKeepsAcc(rest, acc[EntryKey(entries[0]) := EntryText(entries[0])], key);
    }
  }

  /** When every entry is well formed, each entry's key maps to the text of the last entry with that key. */
  lemma {:induction false} XmlMetadataLastWins(entries: seq<Node>, acc: map<string, string>, i: nat)
    requires forall k :: 0 <= k < |entries| ==> IsMetadataEntry(entries[k])
    requires i < |entries| && IsLastWithKey(entries, i)
    ensures MetadataFromXml(entries, acc).Ok?
    ensures EntryKey(entries[i]) in MetadataFromXml(entries, acc).value
    ensures MetadataFromXml(entries, acc).value[EntryKey(entries[i])] == EntryText(entries[i])
    decreases |entries|
  {
    var rest := entries[1..];
    assert forall k :: 0 <= k < |rest| ==> rest[k] == entries[k + 1];
    XmlMetadataStep(entries, acc);
    var acc' := acc[EntryKey(entries[0]) := EntryText(entries[0])];
    if i == 0 {
      assert EntryKey(entries[0]) !in EntryKeys(rest);
      XmlMetadataKeepsAcc(rest, acc', EntryKey(entries[0]));
    } else {
      assert IsLastWithKey(rest, i - 1);
      XmlMetadataLastWins(rest, acc', i - 1);
    }
  }

  /**
   * The container `parse` builds from what its nine casts read, the first failed cast
   * deciding the error; a missing public-access level defaults to `None`.
   */
  function AssembleFields(name: Result<string>, lastModified: Result<DateTime>, eTag: Result<string>,
                          leaseState: Result<LeaseState>, leaseDuration: Result<Option<LeaseDuration>>,
                          leaseStatus: Result<LeaseStatus>, publicAccess: Result<Option<PublicAccess>>,
                          hasImmutabilityPolicy: Result<bool>, hasLegalHold: Result<bool>): Result<Container> {
    var name :- name;
    var lastModified :- lastModified;
    var eTag :- eTag;
    var leaseState :- leaseState;
    var leaseDuration :- leaseDuration;
    var leaseStatus :- leaseStatus;
    var publicAccess :- publicAccess;
    var hasImmutabilityPolicy :- hasImmutabilityPolicy;
    var hasLegalHold :- hasLegalHold;
    Ok(Container.Container(name, lastModified, eTag, leaseStatus, leaseState, leaseDuration,
                           publicAccess.GetOr(PublicAccess.None), hasImmutabilityPolicy, hasLegalHold, map[]))
  }

  /** The fields `parse` reads from `<Name>` and `<Properties>`, with no metadata yet. */
  function FieldsFromXml(elem: Element, parseDate: string -> Option<DateTime>): Result<Container> {
    AssembleFields(
      CastMust(elem, ["Name"], TextAsIs),
      CastMust(elem, ["Properties", "Last-Modified"], parseDate),
      CastMust(elem, ["Properties", "Etag"], TextAsIs),
      CastMust(elem, ["Properties", "LeaseState"], LeaseStateFromStr),
      CastOptional(elem, ["Properties", "LeaseDuration"], LeaseDurationFromStr),
      CastMust(elem, ["Properties", "LeaseStatus"], LeaseStatusFromStr),
      CastOptional(elem, ["Properties", "PublicAccess"], PublicAccessFromStr),
      CastMust(elem, ["Properties", "HasImmutabilityPolicy"], ParseBool),
      CastMust(elem, ["Properties", "HasLegalHold"], ParseBool))
  }

  /** The fields, completed with the metadata read from the `<Metadata>` elements found. */
  function WithMetadata(fields: Result<Container>, metadataNodes: Result<seq<Element>>): Result<Container> {
    var fields :- fields;
    var metadataNodes :- metadataNodes;
    var metadata :- MetadataFromXml(MetadataChildren(metadataNodes), map[]);
    Ok(fields.(metadata := metadata))
  }

  /** The decoding `parse` performs: the fields, then the metadata. */
  function ContainerFromXml(elem: Element, parseDate: string -> Option<DateTime>): Result<Container> {
    WithMetadata(FieldsFromXml(elem, parseDate), Traverse(elem, ["Metadata"], true))
  }

  /** The metadata loop of `parse`: every child of every `<Metadata>` element, in order. */
  method ParseMetadata(metadataNodes: seq<Element>) returns (r: Result<map<string, string>>)
    ensures r == MetadataFromXml(MetadataChildren(metadataNodes), map[])
  {
    var hm: map<string, string> := map[];
    for k := 0 to |metadataNodes|
      invariant MetadataFromXml(MetadataChildren(metadataNodes), map[]) == MetadataFromXml(MetadataChildren(metadataNodes[k..]), hm)
    {
      var m := metadataNodes[k];
      assert metadataNodes[k..][1..] == metadataNodes[k + 1..];
      for j := 0 to |m.children|
        invariant MetadataFromXml(MetadataChildren(metadataNodes), map[])
                  == MetadataFromXml(m.children[j..] + MetadataChildren(metadataNodes[k + 1..]), hm)
      {
        ghost var remaining := m.children[j..] + MetadataChildren(metadataNodes[k + 1..]);
        assert remaining[0] == m.children[j];
        assert remaining[1..] == m.children[j + 1..] + MetadataChildren(metadataNodes[k + 1..]);
        var key := m.children[j];
        if !key.ElementNode? {
          r := Err(UnexpectedXMLError(NOT_ELEMENT_MESSAGE));
          return;
        }
        var elem := key.element;
        if |elem.children| == 0 {
          r := Err(UnexpectedXMLError(EMPTY_MESSAGE));
          return;
        }
        if !elem.children[0].CharacterNode? {
          r := Err(UnexpectedXMLError(NOT_TEXT_MESSAGE));
          return;
        }
        hm := hm[elem.name := elem.children[0].text];
      }
      assert m.children[|m.children|..] + MetadataChildren(metadataNodes[k + 1..]) == MetadataChildren(metadataNodes[k + 1..]);
    }
    r := Ok(hm);
  }

  /**
   * `Container::parse`. The decoding chain itself is `ContainerFromXml`; the method runs it
   * step by step so that the metadata comes from the loops in `ParseMetadata`.
   */
  method Parse(elem: Element, parseDate: string -> Option<DateTime>) returns (r: Result<Container>)
    ensures r == ContainerFromXml(elem, parseDate)
  {
    var name :- CastMust(elem, ["Name"], TextAsIs);
    var lastModified :- CastMust(elem, ["Properties", "Last-Modified"], parseDate);
    var eTag :- CastMust(elem, ["Properties", "Etag"], TextAsIs);
    var leaseState :- CastMust(elem, ["Properties", "LeaseState"], LeaseStateFromStr);
    var leaseDuration :- CastOptional(elem, ["Properties", "LeaseDuration"], LeaseDurationFromStr);
    var leaseStatus :- CastMust(elem, ["Properties", "LeaseStatus"], LeaseStatusFromStr);
    var publicAccess :- CastOptional(elem, ["Properties", "PublicAccess"], PublicAccessFromStr);
    var hasImmutabilityPolicy :- CastMust(elem, ["Properties", "HasImmutabilityPolicy"], ParseBool);
    var hasLegalHold :- CastMust(elem, ["Properties", "HasLegalHold"], ParseBool);
    var metadataNodes :- Traverse(elem, ["Metadata"], true);
    var metadata :- ParseMetadata(metadataNodes);
    r := Ok(Container.Container(name, lastModified, eTag, leaseStatus, leaseState, leaseDuration,
                                publicAccess.GetOr(PublicAccess.None), hasImmutabilityPolicy, hasLegalHold, metadata));
  }

  /**
   * The fields assemble exactly when every cast succeeded, and then each field is what its
   * cast read; otherwise the first failed cast decides the error.
   */
  lemma AssembleFieldsOutcome(name: Result<string>, lastModified: Result<DateTime>, eTag: Result<string>,
                              leaseState: Result<LeaseState>, leaseDuration: Result<Option<LeaseDuration>>,
                              leaseStatus: Result<LeaseStatus>, publicAccess: Result<Option<PublicAccess>>,
                              hasImmutabilityPolicy: Result<bool>, hasLegalHold: Result<bool>)
    ensures var r := AssembleFields(name, lastModified, eTag, leaseState, leaseDuration, leaseStatus,
                                    publicAccess, hasImmutabilityPolicy, hasLegalHold);
            && (r.Ok? <==> name.Ok? && lastModified.Ok? && eTag.Ok? && leaseState.Ok? && leaseDuration.Ok?
                           && leaseStatus.Ok? && publicAccess.Ok? && hasImmutabilityPolicy.Ok? && hasLegalHold.Ok?)
            && (r.Ok? ==> r.value == Container.Container(name.value, lastModified.value, eTag.value, leaseStatus.value,
                                                         leaseState.value, leaseDuration.value,
                                                         publicAccess.value.GetOr(PublicAccess.None),
                                                         hasImmutabilityPolicy.value, hasLegalHold.value, map[]))
            && (name.Err? ==> r == Err(name.error))
            && (name.Ok? && lastModified.Err? ==> r == Err(lastModified.error))
            && (name.Ok? && lastModified.Ok? && eTag.Err? ==> r == Err(eTag.error))
            && (name.Ok? && lastModified.Ok? && eTag.Ok? && leaseState.Err? ==> r == Err(leaseState.error))
            && (name.Ok? && lastModified.Ok? && eTag.Ok? && leaseState.Ok? && leaseDuration.Err?
                ==> r == Err(leaseDuration.error))
            && (name.Ok? && lastModified.Ok? && eTag.Ok? && leaseState.Ok? && leaseDuration.Ok? && leaseStatus.Err?
                ==> r == Err(leaseStatus.error))
            && (name.Ok? && lastModified.Ok? && eTag.Ok? && leaseState.Ok? && leaseDuration.Ok? && leaseStatus.Ok?
                && publicAccess.Err?
                ==> r == Err(publicAccess.error))
            && (name.Ok? && lastModified.Ok? && eTag.Ok? && leaseState.Ok? && leaseDuration.Ok? && leaseStatus.Ok?
                && publicAccess.Ok? && hasImmutabilityPolicy.Err?
                ==> r == Err(hasImmutabilityPolicy.error))
            && (name.Ok? && lastModified.Ok? && eTag.Ok? && leaseState.Ok? && leaseDuration.Ok? && leaseStatus.Ok?
                && publicAccess.Ok? && hasImmutabilityPolicy.Ok? && hasLegalHold.Err?
                ==> r == Err(hasLegalHold.error))
  {
  }

  /**
   * Completing the fields succeeds exactly when the fields and the `<Metadata>` lookup did and
   * the metadata decodes; it changes the metadata and nothing else.
   */
  lemma WithMetadataOutcome(fields: Result<Container>, metadataNodes: Result<seq<Element>>)
    ensures var r := WithMetadata(fields, metadataNodes);
            && (r.Ok? <==> fields.Ok? && metadataNodes.Ok? && MetadataFromXml(MetadataChildren(metadataNodes.value), map[]).Ok?)
            && (r.Ok? ==> r.value == fields.value.(metadata := MetadataFromXml(MetadataChildren(metadataNodes.value), map[]).value))
            && (fields.Err? ==> r == Err(fields.error))
            && (fields.Ok? && metadataNodes.Ok? && MetadataFromXml(MetadataChildren(metadataNodes.value), map[]).Err?
                ==> r == Err(MetadataFromXml(MetadataChildren(metadataNodes.value), map[]).error))
  {
  }

  /** The two optional fields `parse` decodes are what their own casts read. */
  lemma FieldsFromXmlOptional(elem: Element, parseDate: string -> Option<DateTime>)
    requires FieldsFromXml(elem, parseDate).Ok?
    ensures CastOptional(elem, ["Properties", "LeaseDuration"], LeaseDurationFromStr).Ok?
    ensures CastOptional(elem, ["Properties", "PublicAccess"], PublicAccessFromStr).Ok?
    ensures FieldsFromXml(elem, parseDate).value.leaseDuration
            == CastOptional(elem, ["Properties", "LeaseDuration"], LeaseDurationFromStr).value
    ensures FieldsFromXml(elem, parseDate).value.publicAccess
            == CastOptional(elem, ["Properties", "PublicAccess"], PublicAccessFromStr).value.GetOr(PublicAccess.None)
  {
    AssembleFieldsOutcome(
      CastMust(elem, ["Name"], TextAsIs),
      CastMust(elem, ["Properties", "Last-Modified"], parseDate),
      CastMust(elem, ["Properties", "Etag"], TextAsIs),
      CastMust(elem, ["Properties", "LeaseState"], LeaseStateFromStr),
      CastOptional(elem, ["Properties", "LeaseDuration"], LeaseDurationFromStr),
      CastMust(elem, ["Properties", "LeaseStatus"], LeaseStatusFromStr),
      CastOptional(elem, ["Properties", "PublicAccess"], PublicAccessFromStr),
      CastMust(elem, ["Properties", "HasImmutabilityPolicy"], ParseBool),
      CastMust(elem, ["Properties", "HasLegalHold"], ParseBool));
  }

  /**
   * With the single `<Properties>` element lacking a `<PublicAccess>` (or `<LeaseDuration>`)
   * child, `parse` gives public access `None` (or no lease duration).
   */
  lemma ParseOptionalDefaults(elem: Element, parseDate: string -> Option<DateTime>, properties: Element)
    requires ContainerFromXml(elem, parseDate).Ok?
    requires FindSubnodes(elem, "Properties") == [properties]
    ensures FindSubnodes(properties, "PublicAccess") == [] ==> ContainerFromXml(elem, parseDate).value.publicAccess == PublicAccess.None
    ensures FindSubnodes(properties, "LeaseDuration") == [] ==> ContainerFromXml(elem, parseDate).value.leaseDuration == Option.None
  {
    WithMetadataOutcome(FieldsFromXml(elem, parseDate), Traverse(elem, ["Metadata"], true));
    FieldsFromXmlOptional(elem, parseDate);
    TraverseThroughSingle(elem, "Properties", properties, "PublicAccess");
    TraverseThroughSingle(elem, "Properties", properties, "LeaseDuration");
  }

  /**
   * The casts `parse` performs before its `k`-th all succeed. It casts, in order, `Name`, then
   * under `Properties`: `Last-Modified`, `Etag`, `LeaseState`, `LeaseDuration`, `LeaseStatus`,
   * `PublicAccess`, `HasImmutabilityPolicy` and `HasLegalHold`.
   */
  predicate CastsSucceedBefore(elem: Element, parseDate: string -> Option<DateTime>, k: nat) {
    && (k > 0 ==> CastMust(elem, ["Name"], TextAsIs).Ok?)
    && (k > 1 ==> CastMust(elem, ["Properties", "Last-Modified"], parseDate).Ok?)
    && (k > 2 ==> CastMust(elem, ["Properties", "Etag"], TextAsIs).Ok?)
    && (k > 3 ==> CastMust(elem, ["Properties", "LeaseState"], LeaseStateFromStr).Ok?)
    && (k > 4 ==> CastOptional(elem, ["Properties", "LeaseDuration"], LeaseDurationFromStr).Ok?)
    && (k > 5 ==> CastMust(elem, ["Properties", "LeaseStatus"], LeaseStatusFromStr).Ok?)
    && (k > 6 ==> CastOptional(elem, ["Properties", "PublicAccess"], PublicAccessFromStr).Ok?)
    && (k > 7 ==> CastMust(elem, ["Properties", "HasImmutabilityPolicy"], ParseBool).Ok?)
  }

  /** A listing entry without `<Name>` fails to parse with the element-not-found error for it. */
  lemma ParseMissingName(elem: Element, parseDate: string -> Option<DateTime>)
    requires FindSubnodes(elem, "Name") == []
    ensures ContainerFromXml(elem, parseDate) == Err(Traversing(PathNotFound("Name")))
  {
    assert CastMust(elem, ["Name"], TextAsIs) == Err(Traversing(PathNotFound("Name")));
    AssembleFieldsOutcome(
      CastMust(elem, ["Name"], TextAsIs),
      CastMust(elem, ["Properties", "Last-Modified"], parseDate),
      CastMust(elem, ["Properties", "Etag"], TextAsIs),
      CastMust(elem, ["Properties", "LeaseState"], LeaseStateFromStr),
      CastOptional(elem, ["Properties", "LeaseDuration"], LeaseDurationFromStr),
      CastMust(elem, ["Properties", "LeaseStatus"], LeaseStatusFromStr),
      CastOptional(elem, ["Properties", "PublicAccess"], PublicAccessFromStr),
      CastMust(elem, ["Properties", "HasImmutabilityPolicy"], ParseBool),
      CastMust(elem, ["Properties", "HasLegalHold"], ParseBool));
    WithMetadataOutcome(FieldsFromXml(elem, parseDate), Traverse(elem, ["Metadata"], true));
  }

  /** With its name read, an entry without `<Properties>` fails with the element-not-found error for it. */
  lemma ParseMissingProperties(elem: Element, parseDate: string -> Option<DateTime>)
    requires CastsSucceedBefore(elem, parseDate, 1)
    requires FindSubnodes(elem, "Properties") == []
    ensures ContainerFromXml(elem, parseDate) == Err(Traversing(PathNotFound("Properties")))
  {
    assert CastMust(elem, ["Properties", "Last-Modified"], parseDate) == Err(Traversing(PathNotFound("Properties")));
    AssembleFieldsOutcome(
      CastMust(elem, ["Name"], TextAsIs),
      CastMust(elem, ["Properties", "Last-Modified"], parseDate),
      CastMust(elem, ["Properties", "Etag"], TextAsIs),
      CastMust(elem, ["Properties", "LeaseState"], LeaseStateFromStr),
      CastOptional(elem, ["Properties", "LeaseDuration"], LeaseDurationFromStr),
      CastMust(elem, ["Properties", "LeaseStatus"], LeaseStatusFromStr),
      CastOptional(elem, ["Properties", "PublicAccess"], PublicAccessFromStr),
      CastMust(elem, ["Properties", "HasImmutabilityPolicy"], ParseBool),
      CastMust(elem, ["Properties", "HasLegalHold"], ParseBool));
    WithMetadataOutcome(FieldsFromXml(elem, parseDate), Traverse(elem, ["Metadata"], true));
  }

  // A mandatory property missing under the single `<Properties>`, with every cast before it
  // successful, makes `parse` fail with the element-not-found error naming that property.

  lemma ParseMissingLastModified(elem: Element, parseDate: string -> Option<DateTime>, properties: Element)
    requires FindSubnodes(elem, "Properties") == [properties] && FindSubnodes(properties, "Last-Modified") == []
    requires CastsSucceedBefore(elem, parseDate, 1)
    ensures ContainerFromXml(elem, parseDate) == Err(Traversing(PathNotFound("Last-Modified")))
  {
    CastMustAbsent(elem, "Properties", properties, "Last-Modified", parseDate);
    AssembleFieldsOutcome(
      CastMust(elem, ["Name"], TextAsIs),
      CastMust(elem, ["Properties", "Last-Modified"], parseDate),
      CastMust(elem, ["Properties", "Etag"], TextAsIs),
      CastMust(elem, ["Properties", "LeaseState"], LeaseStateFromStr),
      CastOptional(elem, ["Properties", "LeaseDuration"], LeaseDurationFromStr),
      CastMust(elem, ["Properties", "LeaseStatus"], LeaseStatusFromStr),
      CastOptional(elem, ["Properties", "PublicAccess"], PublicAccessFromStr),
      CastMust(elem, ["Properties", "HasImmutabilityPolicy"], ParseBool),
      CastMust(elem, ["Properties", "HasLegalHold"], ParseBool));
    WithMetadataOutcome(FieldsFromXml(elem, parseDate), Traverse(elem, ["Metadata"], true));
  }

  lemma ParseMissingETag(elem: Element, parseDate: string -> Option<DateTime>, properties: Element)
    requires FindSubnodes(elem, "Properties") == [properties] && FindSubnodes(properties, "Etag") == []
    requires CastsSucceedBefore(elem, parseDate, 2)
    ensures ContainerFromXml(elem, parseDate) == Err(Traversing(PathNotFound("Etag")))
  {
    CastMustAbsent(elem, "Properties", properties, "Etag", TextAsIs);
    AssembleFieldsOutcome(
      CastMust(elem, ["Name"], TextAsIs),
      CastMust(elem, ["Properties", "Last-Modified"], parseDate),
      CastMust(elem, ["Properties", "Etag"], TextAsIs),
      CastMust(elem, ["Properties", "LeaseState"], LeaseStateFromStr),
      CastOptional(elem, ["Properties", "LeaseDuration"], LeaseDurationFromStr),
      CastMust(elem, ["Properties", "LeaseStatus"], LeaseStatusFromStr),
      CastOptional(elem, ["Properties", "PublicAccess"], PublicAccessFromStr),
      CastMust(elem, ["Properties", "HasImmutabilityPolicy"], ParseBool),
      CastMust(elem, ["Properties", "HasLegalHold"], ParseBool));
    WithMetadataOutcome(FieldsFromXml(elem, parseDate), Traverse(elem, ["Metadata"], true));
  }

  lemma ParseMissingLeaseState(elem: Element, parseDate: string -> Option<DateTime>, properties: Element)
    requires FindSubnodes(elem, "Properties") == [properties] && FindSubnodes(properties, "LeaseState") == []
    requires CastsSucceedBefore(elem, parseDate, 3)
    ensures ContainerFromXml(elem, parseDate) == Err(Traversing(PathNotFound("LeaseState")))
  {
    CastMustAbsent(elem, "Properties", properties, "LeaseState", LeaseStateFromStr);
    AssembleFieldsOutcome(
      CastMust(elem, ["Name"], TextAsIs),
      CastMust(elem, ["Properties", "Last-Modified"], parseDate),
      CastMust(elem, ["Properties", "Etag"], TextAsIs),
      CastMust(elem, ["Properties", "LeaseState"], LeaseStateFromStr),
      CastOptional(elem, ["Properties", "LeaseDuration"], LeaseDurationFromStr),
      CastMust(elem, ["Properties", "LeaseStatus"], LeaseStatusFromStr),
      CastOptional(elem, ["Properties", "PublicAccess"], PublicAccessFromStr),
      CastMust(elem, ["Properties", "HasImmutabilityPolicy"], ParseBool),
      CastMust(elem, ["Properties", "HasLegalHold"], ParseBool));
    WithMetadataOutcome(FieldsFromXml(elem, parseDate), Traverse(elem, ["Metadata"], true));
  }

  lemma ParseMissingLeaseStatus(elem: Element, parseDate: string -> Option<DateTime>, properties: Element)
    requires FindSubnodes(elem, "Properties") == [properties] && FindSubnodes(properties, "LeaseStatus") == []
    requires CastsSucceedBefore(elem, parseDate, 5)
    ensures ContainerFromXml(elem, parseDate) == Err(Traversing(PathNotFound("LeaseStatus")))
  {
    CastMustAbsent(elem, "Properties", properties, "LeaseStatus", LeaseStatusFromStr);
    AssembleFieldsOutcome(
      CastMust(elem, ["Name"], TextAsIs),
      CastMust(elem, ["Properties", "Last-Modified"], parseDate),
      CastMust(elem, ["Properties", "Etag"], TextAsIs),
      CastMust(elem, ["Properties", "LeaseState"], LeaseStateFromStr),
      CastOptional(elem, ["Properties", "LeaseDuration"], LeaseDurationFromStr),
      CastMust(elem, ["Properties", "LeaseStatus"], LeaseStatusFromStr),
      CastOptional(elem, ["Properties", "PublicAccess"], PublicAccessFromStr),
      CastMust(elem, ["Properties", "HasImmutabilityPolicy"], ParseBool),
      CastMust(elem, ["Properties", "HasLegalHold"], ParseBool));
    WithMetadataOutcome(FieldsFromXml(elem, parseDate), Traverse(elem, ["Metadata"], true));
  }

  lemma ParseMissingImmutabilityPolicy(elem: Element, parseDate: string -> Option<DateTime>, properties: Element)
    requires FindSubnodes(elem, "Properties") == [properties] && FindSubnodes(properties, "HasImmutabilityPolicy") == []
    requires CastsSucceedBefore(elem, parseDate, 7)
    ensures ContainerFromXml(elem, parseDate) == Err(Traversing(PathNotFound("HasImmutabilityPolicy")))
  {
    CastMustAbsent(elem, "Properties", properties, "HasImmutabilityPolicy", ParseBool);
    AssembleFieldsOutcome(
      CastMust(elem, ["Name"], TextAsIs),
      CastMust(elem, ["Properties", "Last-Modified"], parseDate),
      CastMust(elem, ["Properties", "Etag"], TextAsIs),
      CastMust(elem, ["Properties", "LeaseState"], LeaseStateFromStr),
      CastOptional(elem, ["Properties", "LeaseDuration"], LeaseDurationFromStr),
      CastMust(elem, ["Properties", "LeaseStatus"], LeaseStatusFromStr),
      CastOptional(elem, ["Properties", "PublicAccess"], PublicAccessFromStr),
      CastMust(elem, ["Properties", "HasImmutabilityPolicy"], ParseBool),
      CastMust(elem, ["Properties", "HasLegalHold"], ParseBool));
    WithMetadataOutcome(FieldsFromXml(elem, parseDate), Traverse(elem, ["Metadata"], true));
  }

  lemma ParseMissingLegalHold(elem: Element, parseDate: string -> Option<DateTime>, properties: Element)
    requires FindSubnodes(elem, "Properties") == [properties] && FindSubnodes(properties, "HasLegalHold") == []
    requires CastsSucceedBefore(elem, parseDate, 8)
    ensures ContainerFromXml(elem, parseDate) == Err(Traversing(PathNotFound("HasLegalHold")))
  {
    CastMustAbsent(elem, "Properties", properties, "HasLegalHold", ParseBool);
    AssembleFieldsOutcome(
      CastMust(elem, ["Name"], TextAsIs),
      CastMust(elem, ["Properties", "Last-Modified"], parseDate),
      CastMust(elem, ["Properties", "Etag"], TextAsIs),
      CastMust(elem, ["Properties", "LeaseState"], LeaseStateFromStr),
      CastOptional(elem, ["Properties", "LeaseDuration"], LeaseDurationFromStr),
      CastMust(elem, ["Properties", "LeaseStatus"], LeaseStatusFromStr),
      CastOptional(elem, ["Properties", "PublicAccess"], PublicAccessFromStr),
      CastMust(elem, ["Properties", "HasImmutabilityPolicy"], ParseBool),
      CastMust(elem, ["Properties", "HasLegalHold"], ParseBool));
    WithMetadataOutcome(FieldsFromXml(elem, parseDate), Traverse(elem, ["Metadata"], true));
  }

  /** Once the fields decode, `parse` gives them completed with the metadata, or the metadata's error. */
  lemma ContainerFromXmlMetadata(elem: Element, parseDate: string -> Option<DateTime>)
    requires FieldsFromXml(elem, parseDate).Ok?
    ensures var metadata := MetadataFromXml(MetadataChildren(FindSubnodes(elem, "Metadata")), map[]);
            ContainerFromXml(elem, parseDate)
            == if metadata.Ok? then Ok(FieldsFromXml(elem, parseDate).value.(metadata := metadata.value))
               else Err(metadata.error)
  {
    TraverseOneStep(elem, "Metadata");
    WithMetadataOutcome(FieldsFromXml(elem, parseDate), Traverse(elem, ["Metadata"], true));
  }

  /**
   * Once the fields decode, `parse` succeeds exactly when every child of every `<Metadata>`
   * element is an element whose first child is text.
   */
  lemma ParseMetadataOutcome(elem: Element, parseDate: string -> Option<DateTime>)
    requires FieldsFromXml(elem, parseDate).Ok?
    ensures ContainerFromXml(elem, parseDate).Ok?
            <==> forall k :: 0 <= k < |MetadataChildren(FindSubnodes(elem, "Metadata"))|
                   ==> IsMetadataEntry(MetadataChildren(FindSubnodes(elem, "Metadata"))[k])
  {
    ContainerFromXmlMetadata(elem, parseDate);
    XmlMetadataSucceedsIff(MetadataChildren(FindSubnodes(elem, "Metadata")), map[]);
  }

  /**
   * When the fields and every metadata child decode, the metadata `parse` returns holds
   * exactly the names of the children of the `<Metadata>` elements.
   */
  lemma ParseMetadataKeys(elem: Element, parseDate: string -> Option<DateTime>)
    requires FieldsFromXml(elem, parseDate).Ok?
    requires var entries := MetadataChildren(FindSubnodes(elem, "Metadata"));
             forall k :: 0 <= k < |entries| ==> IsMetadataEntry(entries[k])
    ensures ContainerFromXml(elem, parseDate).Ok?
    ensures ContainerFromXml(elem, parseDate).value.metadata.Keys == EntryKeys(MetadataChildren(FindSubnodes(elem, "Metadata")))
  {
    var entries := MetadataChildren(FindSubnodes(elem, "Metadata"));
    ContainerFromXmlMetadata(elem, parseDate);
    XmlMetadataKeys(entries, map[]);
    var metadata := MetadataFromXml(entries, map[]).value;
    assert ContainerFromXml(elem, parseDate) == Ok(FieldsFromXml(elem, parseDate).value.(metadata := metadata));
    var empty: map<string, string> := map[];
    assert empty.Keys == {};
  }

  /**
   * When the fields and every metadata child decode, each name in the metadata `parse`
   * returns maps to the text of the last element so named.
   */
  lemma ParseMetadataLastWins(elem: Element, parseDate: string -> Option<DateTime>, i: nat)
    requires FieldsFromXml(elem, parseDate).Ok?
    requires var entries := MetadataChildren(FindSubnodes(elem, "Metadata"));
             && (forall k :: 0 <= k < |entries| ==> IsMetadataEntry(entries[k]))
             && i < |entries| && IsLastWithKey(entries, i)
    ensures ContainerFromXml(elem, parseDate).Ok?
    ensures var entry := MetadataChildren(FindSubnodes(elem, "Metadata"))[i];
            && EntryKey(entry) in ContainerFromXml(elem, parseDate).value.metadata
            && ContainerFromXml(elem, parseDate).value.metadata[EntryKey(entry)] == EntryText(entry)
  {
    ContainerFromXmlMetadata(elem, parseDate);
    XmlMetadataLastWins(MetadataChildren(FindSubnodes(elem, "Metadata")), map[], i);
  }

  /** Once the fields decode, the first refused metadata child decides the error `parse` returns. */
  lemma ParseMetadataFirstError(elem: Element, parseDate: string -> Option<DateTime>, i: nat)
    requires FieldsFromXml(elem, parseDate).Ok?
    requires var entries := MetadataChildren(FindSubnodes(elem, "Metadata"));
             && i < |entries| && !IsMetadataEntry(entries[i])
             && forall k :: 0 <= k < i ==> IsMetadataEntry(entries[k])
    ensures ContainerFromXml(elem, parseDate) == Err(MetadataEntry(MetadataChildren(FindSubnodes(elem, "Metadata"))[i]).error)
  {
    ContainerFromXmlMetadata(elem, parseDate);
    XmlMetadataFirstError(MetadataChildren(FindSubnodes(elem, "Metadata")), map[], i);
  }

  /** The properties of a listed container, in document order, with no lease duration and no public access. */
  const EXAMPLE_PROPERTIES: seq<Element> := [
    TextElement("Last-Modified", "Mon, 27 Aug 2018 10:00:00 GMT"),
    TextElement("Etag", "0x8D60C1A2B3C4D5E"),
    TextElement("LeaseStatus", "unlocked"),
    TextElement("LeaseState", "available"),
    TextElement("HasImmutabilityPolicy", "false"),
    TextElement("HasLegalHold", "false")]

  /** The children of a listed container named `c1` with `<Metadata><foo>bar</foo></Metadata>`. */
  const EXAMPLE_CHILDREN: seq<Element> := [
    TextElement("Name", "c1"),
    Element("Properties", ElementNodes(EXAMPLE_PROPERTIES)),
    EXAMPLE_METADATA]

  const EXAMPLE_METADATA: Element := Element("Metadata", [ElementNode(TextElement("foo", "bar"))])

  function ExampleListingEntry(): Element {
    Element("Container", ElementNodes(EXAMPLE_CHILDREN))
  }

  /** The example's children carry distinct names. */
  lemma ExampleChildrenDistinct()
    ensures forall i, j :: 0 <= i < j < |EXAMPLE_CHILDREN| ==> EXAMPLE_CHILDREN[i].name != EXAMPLE_CHILDREN[j].name
  {
    assert forall i :: 0 <= i < |EXAMPLE_CHILDREN| ==> |EXAMPLE_CHILDREN[i].name| == [4, 10, 8][i];
  }

  /** The example's properties carry distinct names, none of them an optional property's. */
  lemma ExamplePropertiesDistinct()
    ensures forall i, j :: 0 <= i < j < |EXAMPLE_PROPERTIES| ==> EXAMPLE_PROPERTIES[i].name != EXAMPLE_PROPERTIES[j].name
    ensures forall i :: 0 <= i < |EXAMPLE_PROPERTIES| ==> EXAMPLE_PROPERTIES[i].name !in {"PublicAccess", "LeaseDuration"}
  {
    assert forall i :: 0 <= i < |EXAMPLE_PROPERTIES| ==> |EXAMPLE_PROPERTIES[i].name| == [13, 4, 11, 10, 21, 12][i];
  }


  /** The path to the `k`th property of the example leads to that one element. */
  lemma ExamplePropertyPath(k: nat)
    requires k < |EXAMPLE_PROPERTIES|
    ensures Traverse(ExampleListingEntry(), ["Properties", EXAMPLE_PROPERTIES[k].name], false) == Ok([EXAMPLE_PROPERTIES[k]])
  {
    var leaf := EXAMPLE_PROPERTIES[k];
    ExampleChildrenDistinct();
    ExamplePropertiesDistinct();
    FindAmongDistinct(EXAMPLE_CHILDREN, 1);
    FindAmongDistinct(EXAMPLE_PROPERTIES, k);
    TraverseDescend(ExampleListingEntry(), EXAMPLE_CHILDREN[1], ["Properties", leaf.name], false);
    assert ["Properties", leaf.name][1..] == [leaf.name];
    TraverseOneStep(EXAMPLE_CHILDREN[1], leaf.name);
  }

  /** The `k`th property of the example, `name` holding `text`, reads as `text` converted. */
  lemma ExamplePropertyCast<T>(k: nat, name: string, text: string, convert: string -> Option<T>)
    requires k < |EXAMPLE_PROPERTIES| && EXAMPLE_PROPERTIES[k] == TextElement(name, text)
    ensures CastMust(ExampleListingEntry(), ["Properties", name], convert)
            == if convert(text).Some? then Ok(convert(text).value) else Err(Traversing(ParsingError(text)))
  {
    ExamplePropertyPath(k);
    CastMustLeaf(ExampleListingEntry(), ["Properties", name], convert, EXAMPLE_PROPERTIES[k], text);
  }

  /** What the casts of the example's name, date and entity tag read. */
  lemma ExampleTextCasts(parseDate: string -> Option<DateTime>, when: DateTime)
    requires parseDate("Mon, 27 Aug 2018 10:00:00 GMT") == Some(when)
    ensures CastMust(ExampleListingEntry(), ["Name"], TextAsIs) == Ok("c1")
    ensures CastMust(ExampleListingEntry(), ["Properties", "Last-Modified"], parseDate) == Ok(when)
    ensures CastMust(ExampleListingEntry(), ["Properties", "Etag"], TextAsIs) == Ok("0x8D60C1A2B3C4D5E")
  {
    var e := ExampleListingEntry();
    ExampleChildrenDistinct();
    FindAmongDistinct(EXAMPLE_CHILDREN, 0);
    TraverseOneStep(e, "Name");
    CastMustLeaf(e, ["Name"], TextAsIs, EXAMPLE_CHILDREN[0], "c1");
    ExamplePropertyCast(0, "Last-Modified", "Mon, 27 Aug 2018 10:00:00 GMT", parseDate);
    ExamplePropertyCast(1, "Etag", "0x8D60C1A2B3C4D5E", TextAsIs);
  }

  /** What the casts of the example's lease and flags read. */
  lemma ExampleStateCasts()
    ensures CastMust(ExampleListingEntry(), ["Properties", "LeaseStatus"], LeaseStatusFromStr) == Ok(Unlocked)
    ensures CastMust(ExampleListingEntry(), ["Properties", "LeaseState"], LeaseStateFromStr) == Ok(Available)
    ensures CastMust(ExampleListingEntry(), ["Properties", "HasImmutabilityPolicy"], ParseBool) == Ok(false)
    ensures CastMust(ExampleListingEntry(), ["Properties", "HasLegalHold"], ParseBool) == Ok(false)
  {
    ExamplePropertyCast(2, "LeaseStatus", "unlocked", LeaseStatusFromStr);
    ExamplePropertyCast(3, "LeaseState", "available", LeaseStateFromStr);
    ExamplePropertyCast(4, "HasImmutabilityPolicy", "false", ParseBool);
    ExamplePropertyCast(5, "HasLegalHold", "false", ParseBool);
  }

  /** A property the example lacks reads as absent. */
  lemma ExampleAbsentProperty<T>(name: string, convert: string -> Option<T>)
    requires forall i :: 0 <= i < |EXAMPLE_PROPERTIES| ==> EXAMPLE_PROPERTIES[i].name != name
    ensures CastOptional(ExampleListingEntry(), ["Properties", name], convert) == Ok(Option.None)
  {
    var e := ExampleListingEntry();
    ExampleChildrenDistinct();
    FindAmongDistinct(EXAMPLE_CHILDREN, 1);
    AbsentAmong(EXAMPLE_PROPERTIES, name);
    assert FindSubnodes(EXAMPLE_CHILDREN[1], name) == [];
    TraverseThroughSingle(e, "Properties", EXAMPLE_CHILDREN[1], name);
    assert Traverse(e, ["Properties", name], true) == Ok([]);
  }

  /** The example's fields decode to those it spells out. */
  lemma ExampleFields(parseDate: string -> Option<DateTime>, when: DateTime)
    requires parseDate("Mon, 27 Aug 2018 10:00:00 GMT") == Some(when)
    ensures FieldsFromXml(ExampleListingEntry(), parseDate)
            == Ok(Container.Container("c1", when, "0x8D60C1A2B3C4D5E", Unlocked, Available, Option.None,
                                      PublicAccess.None, false, false, map[]))
  {
    var e := ExampleListingEntry();
    ExampleTextCasts(parseDate, when);
    ExampleStateCasts();
    ExamplePropertiesDistinct();
    ExampleAbsentProperty("PublicAccess", PublicAccessFromStr);
    ExampleAbsentProperty("LeaseDuration", LeaseDurationFromStr);
    AssembleFieldsOutcome(
      CastMust(e, ["Name"], TextAsIs),
      CastMust(e, ["Properties", "Last-Modified"], parseDate),
      CastMust(e, ["Properties", "Etag"], TextAsIs),
      CastMust(e, ["Properties", "LeaseState"], LeaseStateFromStr),
      CastOptional(e, ["Properties", "LeaseDuration"], LeaseDurationFromStr),
      CastMust(e, ["Properties", "LeaseStatus"], LeaseStatusFromStr),
      CastOptional(e, ["Properties", "PublicAccess"], PublicAccessFromStr),
      CastMust(e, ["Properties", "HasImmutabilityPolicy"], ParseBool),
      CastMust(e, ["Properties", "HasLegalHold"], ParseBool));
  }

  /** The example has one `<Metadata>` element. */
  lemma ExampleMetadataFound()
    ensures Traverse(ExampleListingEntry(), ["Metadata"], true) == Ok([EXAMPLE_METADATA])
  {
    ExampleChildrenDistinct();
    FindAmongDistinct(EXAMPLE_CHILDREN, 2);
    TraverseOneStep(ExampleListingEntry(), "Metadata");
  }

  /** The example's metadata maps `foo` to `bar`. */
  lemma ExampleMetadataDecodes()
    ensures MetadataFromXml(MetadataChildren([EXAMPLE_METADATA]), map[]) == Ok(map["foo" := "bar"])
  {
    var foo := ElementNode(TextElement("foo", "bar"));
    assert MetadataChildren([EXAMPLE_METADATA]) == [foo] by {
      assert [EXAMPLE_METADATA][1..] == [];
    }
    XmlMetadataStep([foo], map[]);
    assert [foo][1..] == [];
  }

  /** Parsing the example gives the container it describes, with metadata `{foo: bar}`. */
  lemma ParseExample(parseDate: string -> Option<DateTime>, when: DateTime)
    requires parseDate("Mon, 27 Aug 2018 10:00:00 GMT") == Some(when)
    ensures ContainerFromXml(ExampleListingEntry(), parseDate)
            == Ok(Container.Container("c1", when, "0x8D60C1A2B3C4D5E", Unlocked, Available, Option.None,
                                      PublicAccess.None, false, false, map["foo" := "bar"]))
  {
    ExampleFields(parseDate, when);
    ExampleMetadataFound();
    ExampleMetadataDecodes();
    WithMetadataOutcome(FieldsFromXml(ExampleListingEntry(), parseDate), Traverse(ExampleListingEntry(), ["Metadata"], true));
  }

  // ---------------------------------------------------------------------------------------
  // The container's URI

  /** `generate_container_uri`. */
  function ContainerUri(client: Client, containerName: string, params: Option<string>): string {
    var path := BlobServiceRoot(client.account) + PercentEncoding.Encode(containerName);
    match params
    case Some(p) => path + "?" + p
    case None => path
  }

  /**
   * A server splitting the URI at its first `?` gets back exactly the given parameters (none
   * when none were given), and the encoded container name is a single path segment.
   */
  lemma ContainerUriParts(client: Client, containerName: string, params: Option<string>)
    requires '?' !in client.account
    ensures SplitQuery(ContainerUri(client, containerName, params))
            == (BlobServiceRoot(client.account) + PercentEncoding.Encode(containerName), params)
    ensures '/' !in PercentEncoding.Encode(containerName)
  {
    var encoded := PercentEncoding.Encode(containerName);
    PercentEncoding.EncodeAvoidsSet(containerName, '?');
    PercentEncoding.EncodeAvoidsSet(containerName, '/');
    var path := BlobServiceRoot(client.account) + encoded;
    assert '?' !in path;
    if params.Some? {
      SplitQueryAt(path, params.value);
    } else {
      SplitQueryNone(path);
    }
  }
}
