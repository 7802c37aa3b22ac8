// One catalog record, on disk and in memory, and the checks that turn the
// first into the second.
module CatalogRecords {
  import opened Basics
  import opened TextFiles

  type Identity = Bytes

  datatype CatalogId = CatalogId(assetRoot: Text, publication: Identity)

  // `details` stands for every field no rule of the store looks at.
  datatype RecordDto = RecordDto(publicationId: Text, catalogId: Text, assetRootId: Text,
                                 names: seq<Text>, details: Text)

  datatype CatalogRecord = CatalogRecord(publicationId: Identity, catalogId: CatalogId,
                                         names: seq<Text>, details: Text)

  datatype LogEntry =
    | Record(schema: nat, dto: RecordDto)
    | Alias(schema: nat, publicationId: Text, name: Text, secs: nat, nanos: nat)

  const SCHEMA_VERSION := 1
  const SLASH: Scalar := 47

  // JSON text, hexadecimal digests and the display-name rule.
  datatype Codec = Codec(
    parse: Text -> Option<LogEntry>,
    render: LogEntry -> Text,
    fromHex: Text -> Option<Identity>,
    toHex: Identity -> Text,
    sanitize: Text -> Text,
    validDetails: Text -> bool)

  // JSON ignores a trailing carriage return.
  predicate IgnoresReturn(c: Codec, t: Text) {
    c.parse(t + [RETURN]) == c.parse(t)
  }

  // A rendered entry is one line, not blank, that parses back.
  predicate RendersOneLine(c: Codec, e: LogEntry) {
    var line := c.render(e);
    c.parse(line) == Some(e) && NL !in line && !Blank(line) && line[|line| - 1] != RETURN
  }

  predicate HexInverts(c: Codec, id: Identity) {
    c.fromHex(c.toHex(id)) == Some(id)
  }

  // What the store relies on.
  ghost predicate Lawful(c: Codec) {
    && (forall t: Text :: IgnoresReturn(c, t))
    && (forall e: LogEntry :: RendersOneLine(c, e))
    && (forall id: Identity :: HexInverts(c, id))
  }

  predicate ValidAssetRoot(t: Text) {
    && 0 < |t| <= 64
    && forall i :: 0 <= i < |t| ==>
         || 48 <= t[i] <= 57 || 65 <= t[i] <= 90 || 97 <= t[i] <= 122
         || t[i] == 45 || t[i] == 95
  }

  function CatalogIdText(c: Codec, id: CatalogId): Text {
    id.assetRoot + [SLASH] + c.toHex(id.publication)
  }

  function SanitizeAll(c: Codec, names: seq<Text>): seq<Text> {
    seq(|names|, i requires 0 <= i < |names| => c.sanitize(names[i]))
  }

  // `CatalogRecord::try_from`
  function FromDto(c: Codec, dto: RecordDto): (r: Option<CatalogRecord>)
    ensures r.Some? ==> r.value.catalogId.publication == r.value.publicationId
  {
    var publication := c.fromHex(dto.publicationId);
    if publication.None? || !ValidAssetRoot(dto.assetRootId) then None
    else
      var id := CatalogId(dto.assetRootId, publication.value);
      if CatalogIdText(c, id) != dto.catalogId || !c.validDetails(dto.details) then None
      else Some(CatalogRecord(publication.value, id, SanitizeAll(c, dto.names), dto.details))
  }

  // `RecordDto::from`
  function ToDto(c: Codec, record: CatalogRecord): RecordDto {
    RecordDto(c.toHex(record.publicationId), CatalogIdText(c, record.catalogId),
              record.catalogId.assetRoot, record.names, record.details)
  }

  // Compared as the fields are written, before anything decodes.
  predicate IdsDisagree(dto: RecordDto) {
    dto.catalogId != dto.assetRootId + [SLASH] + dto.publicationId
  }

  // The record as a later read gives it back: its names sanitized again.
  function Reread(c: Codec, record: CatalogRecord): CatalogRecord {
    record.(names := SanitizeAll(c, record.names))
  }

  // What every in-memory record's field types already guarantee.
  predicate WellTyped(c: Codec, record: CatalogRecord) {
    ValidAssetRoot(record.catalogId.assetRoot) && c.validDetails(record.details)
  }

  // A record survives the disk exactly when its two publication ids agree;
  // otherwise the line it is written as is the mismatch no repair may drop.
  lemma RecordRoundTrip(c: Codec, record: CatalogRecord)
    requires Lawful(c) && WellTyped(c, record)
    ensures FromDto(c, ToDto(c, record)) ==
            if record.publicationId == record.catalogId.publication then Some(Reread(c, record)) else None
    ensures IdsDisagree(ToDto(c, record)) <==> record.publicationId != record.catalogId.publication
  {
    var root := record.catalogId.assetRoot;
    var hex, other := c.toHex(record.publicationId), c.toHex(record.catalogId.publication);
    assert HexInverts(c, record.publicationId) && HexInverts(c, record.catalogId.publication);
    assert (root + [SLASH] + hex)[|root| + 1..] == hex;
    assert (root + [SLASH] + other)[|root| + 1..] == other;
  }

  // A line's record converts to `record` exactly when it is that record, coherent and
  // well typed, written with any spelling of its publication id and with names the
  // sanitizer turns into that record's.
  lemma ConvertsIff(c: Codec, dto: RecordDto, record: CatalogRecord)
    requires Lawful(c)
    ensures FromDto(c, dto) == Some(record) <==>
            && WellTyped(c, record) && record.publicationId == record.catalogId.publication
            && c.fromHex(dto.publicationId) == Some(record.publicationId)
            && ToDto(c, record) == dto.(publicationId := c.toHex(record.publicationId), names := record.names)
            && |record.names| == |dto.names|
            && forall i :: 0 <= i < |dto.names| ==> record.names[i] == c.sanitize(dto.names[i])
  {
    if ToDto(c, record) == dto.(publicationId := c.toHex(record.publicationId), names := record.names)
       && c.fromHex(dto.publicationId) == Some(record.publicationId)
       && record.publicationId == record.catalogId.publication && WellTyped(c, record)
    {
      assert record.catalogId == CatalogId(dto.assetRootId, record.publicationId);
      assert record.names == SanitizeAll(c, dto.names) <==>
             |record.names| == |dto.names|
             && forall i :: 0 <= i < |dto.names| ==> record.names[i] == c.sanitize(dto.names[i]);
    }
  }
}
