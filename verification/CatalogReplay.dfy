// The strict reader of `catalog.jsonl`: every line counts, or none does.
module CatalogReplay {
  import opened Basics
  import opened CatalogRecords
  import opened Lines
  import Utf8
  import opened TextFiles

  type Catalog = seq<CatalogRecord>

  datatype StoreError = Unreadable | Corrupt | Duplicate | Unknown | WriteFailed

  // The position of the first record of publication `id`, or |records|.
  function IndexById(records: Catalog, id: Identity): (i: nat)
    ensures i <= |records|
    ensures i < |records| ==> records[i].publicationId == id
    ensures forall k :: 0 <= k < i ==> records[k].publicationId != id
  {
    if records == [] || records[0].publicationId == id then 0
    else 1 + IndexById(records[1..], id)
  }

  predicate Registered(records: Catalog, id: Identity) {
    IndexById(records, id) < |records|
  }

  // The record gains a display name it does not already carry.
  function WithName(records: Catalog, id: Identity, name: Text): Catalog
    requires Registered(records, id)
  {
    var i := IndexById(records, id);
    if name in records[i].names then records
    else records[i := records[i].(names := records[i].names + [name])]
  }

  // No other record changes, and of this one only the names: a new name comes last.
  lemma WithNameOnly(records: Catalog, id: Identity, name: Text, k: nat)
    requires Registered(records, id) && k < |records|
    ensures |WithName(records, id, name)| == |records|
    ensures var now, was := WithName(records, id, name)[k], records[k];
            if was.publicationId == id && (forall j :: 0 <= j < k ==> records[j].publicationId != id)
            then now == was.(names := if name in was.names then was.names else was.names + [name])
            else now == was
  {
    assert IndexById(records, id) == k <==>
           records[k].publicationId == id && forall j :: 0 <= j < k ==> records[j].publicationId != id;
  }

  // What one line does to the records read before it; None when it is corrupt.
  function ApplyLine(c: Codec, records: Catalog, line: Text): Option<Catalog> {
    if Blank(line) then Some(records)
    else match c.parse(line)
      case None => None
      case Some(Record(schema, dto)) =>
        if schema != SCHEMA_VERSION then None
        else (match FromDto(c, dto)
              case None => None
              case Some(record) =>
                if Registered(records, record.publicationId) then None else Some(records + [record]))
      case Some(Alias(schema, publicationId, name, _, _)) =>
        if schema != SCHEMA_VERSION then None
        else (match c.fromHex(publicationId)
              case None => None
              case Some(id) =>
                if !Registered(records, id) then None
                else Some(WithName(records, id, c.sanitize(name))))
  }

  function ReplayLines(c: Codec, lines: seq<Text>, records: Catalog): Option<Catalog> {
    if lines == [] then Some(records)
    else match ApplyLine(c, records, Chomp(lines[0]))
      case None => None
      case Some(next) => ReplayLines(c, lines[1..], next)
  }

  function ReplayText(c: Codec, content: Text): Option<Catalog> {
    ReplayLines(c, SplitInclusive(content, NL), [])
  }

  // `replay_str`
  method ReplayStr(c: Codec, content: Text) returns (r: Result<Catalog, StoreError>)
    ensures r == match ReplayText(c, content)
                 case Some(records) => Ok(records)
                 case None => Err(Corrupt)
  {
    var records: Catalog := [];
    var lines := SplitInclusive(content, NL);
    var i := 0;
    while i < |lines|
      invariant 0 <= i <= |lines|
      invariant ReplayLines(c, lines[i..], records) == ReplayText(c, content)
    {
      var line := Chomp(lines[i]);
      assert lines[i..][1..] == lines[i + 1..];
      i := i + 1;
      if Blank(line) {
        continue;
      }
      match c.parse(line) {
        case None =>
          return Err(Corrupt);
        case Some(entry) =>
          if entry.schema != SCHEMA_VERSION {
            return Err(Corrupt);
          }
          match entry {
            case Record(_, dto) =>
              var record := FromDto(c, dto);
              if record.None? || Registered(records, record.value.publicationId) {
                return Err(Corrupt);
              }
              records := records + [record.value];
            case Alias(_, publicationId, name, _, _) =>
              var id := c.fromHex(publicationId);
              if id.None? {
                return Err(Corrupt);
              }
              var at := IndexById(records, id.value);
              if at == |records| {
                return Err(Corrupt);
              }
              var clean := c.sanitize(name);
              if clean !in records[at].names {
                records := records[at := records[at].(names := records[at].names + [clean])];
              }
          }
      }
    }
    return Ok(records);
  }

  // A file that is not UTF-8 is unreadable, one that is may still be corrupt,
  // and one that is not there is an empty catalog.
  function ReplayFile(c: Codec, file: Option<Bytes>): Result<Catalog, StoreError> {
    match file
    case None => Ok([])
    case Some(bytes) =>
      match Utf8.Decode(bytes)
      case None => Err(Unreadable)
      case Some(text) =>
        match ReplayText(c, text)
        case None => Err(Corrupt)
        case Some(records) => Ok(records)
  }

  predicate Reads(c: Codec, bytes: Bytes) {
    ReplayFile(c, Some(bytes)).Ok?
  }

  // What a catalog that reads always is.
  predicate Sound(records: Catalog) {
    && (forall i :: 0 <= i < |records| ==> records[i].catalogId.publication == records[i].publicationId)
    && (forall i, j :: 0 <= i < j < |records| ==> records[i].publicationId != records[j].publicationId)
  }

  lemma ApplyLineSound(c: Codec, records: Catalog, line: Text)
    requires Sound(records)
    ensures ApplyLine(c, records, line).Some? ==> Sound(ApplyLine(c, records, line).value)
  {
  }

  lemma {:induction false} ReplayLinesSound(c: Codec, lines: seq<Text>, records: Catalog)
    requires Sound(records)
    ensures ReplayLines(c, lines, records).Some? ==> Sound(ReplayLines(c, lines, records).value)
  {
    if lines != [] {
      ApplyLineSound(c, records, Chomp(lines[0]));
      var next := ApplyLine(c, records, Chomp(lines[0]));
      if next.Some? {
        ReplayLinesSound(c, lines[1..], next.value);
      }
    }
  }

  lemma {:induction false} ReplayLinesAppend(c: Codec, a: seq<Text>, b: seq<Text>, records: Catalog)
    ensures ReplayLines(c, a + b, records) ==
            match ReplayLines(c, a, records)
            case None => None
            case Some(next) => ReplayLines(c, b, next)
  {
    if a == [] {
      assert a + b == b;
    } else {
      assert (a + b)[1..] == a[1..] + b;
      var next := ApplyLine(c, records, Chomp(a[0]));
      if next.Some? {
        ReplayLinesAppend(c, a[1..], b, next.value);
      }
    }
  }
}
