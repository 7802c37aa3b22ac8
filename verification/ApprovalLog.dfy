// The approval store: an append-only log of approvals and revocations, replayed
// on every call.
module ApprovalLog {
  import opened Basics
  import opened Lines
  import opened TextFiles
  import opened Utf8

  type Id = nat
  type Digest = Bytes

  // `evidence` is what equality ignores: the modification time and the platform.
  datatype Identity = Identity(path: Bytes, size: nat, sha256: Digest, evidence: Bytes)

  // `ExecutableIdentity`'s own equality.
  predicate Same(a: Identity, b: Identity) {
    a.path == b.path && a.size == b.size && a.sha256 == b.sha256
  }

  datatype Status = Active | Revoked(at: nat)

  datatype Approval = Approval(id: Id, identity: Identity, approvedAt: int, status: Status)

  datatype LogEntry =
    | ApprovedLine(schema: nat, id: Id, path: Text, size: nat, sha256: Text, evidence: Bytes, approvedAt: nat)
    | RevokedLine(schema: nat, id: Id, revokedAt: nat)

  datatype StoreError = Unreadable | Corrupt | Duplicate | WriteFailed

  const SCHEMA_VERSION := 1

  // JSON text, hexadecimal digests, the lossy text of a path, and the derived id
  // of an approval.
  datatype Codec = Codec(
    parse: Text -> Option<LogEntry>,
    render: LogEntry -> Text,
    fromHex: Text -> Option<Digest>,
    toHex: Digest -> Text,
    lossy: Bytes -> Text,
    derive: (Bytes, Digest, int) -> Id)

  // What a line says.
  datatype Event = Approve(id: Id, identity: Identity, approvedAt: nat) | Revoke(id: Id, at: nat)

  // The log so far: ids in the order they were first approved, and the record
  // each has now.
  datatype State = State(order: seq<Id>, records: map<Id, Approval>)

  const EMPTY := State([], map[])

  // An instant as the log keeps it: one before the epoch is the epoch.
  function Stamp(at: int): nat {
    if at < 0 then 0 else at
  }

  function EventOf(c: Codec, entry: LogEntry): Option<Event> {
    if entry.schema != SCHEMA_VERSION then None
    else match entry
      case RevokedLine(_, id, at) => Some(Revoke(id, at))
      case ApprovedLine(_, id, path, size, sha256, evidence, at) =>
        match c.fromHex(sha256)
        case None => None
        case Some(digest) => Some(Approve(id, Identity(Encode(path), size, digest, evidence), at))
  }

  // The events a list of lines tells; None when one of them is corrupt.
  function EventsOf(c: Codec, lines: seq<Text>): Option<seq<Event>> {
    if lines == [] then Some([])
    else
      match EventsOf(c, lines[..|lines| - 1])
      case None => None
      case Some(front) =>
        var line := Chomp(lines[|lines| - 1]);
        if Blank(line) then Some(front)
        else match c.parse(line)
          case None => None
          case Some(entry) =>
            match EventOf(c, entry)
            case None => None
            case Some(event) => Some(front + [event])
  }

  // A map updated one event at a time.
  function Update(s: State, event: Event): State {
    match event
    case Approve(id, identity, at) =>
      State(if id in s.records then s.order else s.order + [id],
            s.records[id := Approval(id, identity, at, Active)])
    case Revoke(id, at) =>
      if id in s.records then s.(records := s.records[id := s.records[id].(status := Revoked(at))]) else s
  }

  function Fold(events: seq<Event>): State {
    if events == [] then EMPTY else Update(Fold(events[..|events| - 1]), events[|events| - 1])
  }

  // The order lists exactly the ids on record, each once, and each record under
  // its own id.
  predicate Consistent(s: State) {
    && (forall i :: 0 <= i < |s.order| ==> s.order[i] in s.records)
    && (forall id :: id in s.records ==> id in s.order && s.records[id].id == id)
    && (forall i, j :: 0 <= i < j < |s.order| ==> s.order[i] != s.order[j])
  }

  lemma UpdateConsistent(s: State, event: Event)
    requires Consistent(s)
    ensures Consistent(Update(s, event))
  {
  }

  lemma {:induction false} FoldConsistent(events: seq<Event>)
    ensures Consistent(Fold(events))
  {
    if events != [] {
      FoldConsistent(events[..|events| - 1]);
      UpdateConsistent(Fold(events[..|events| - 1]), events[|events| - 1]);
    }
  }

  function Listing(s: State): seq<Approval>
    requires Consistent(s)
  {
    seq(|s.order|, i requires 0 <= i < |s.order| => s.records[s.order[i]])
  }

  // What the file says: unreadable when it is not text, corrupt when a line is.
  function EventsIn(c: Codec, file: Option<Bytes>): Result<seq<Event>, StoreError> {
    if file.None? || Decode(file.value).None? then Err(Unreadable)
    else match EventsOf(c, SplitInclusive(Decode(file.value).value, NL))
      case None => Err(Corrupt)
      case Some(events) => Ok(events)
  }

  function ListOf(c: Codec, file: Option<Bytes>): Result<seq<Approval>, StoreError> {
    match EventsIn(c, file)
    case Err(e) => Err(e)
    case Ok(events) => FoldConsistent(events); Ok(Listing(Fold(events)))
  }

  // The last active approval of `identity`, if any.
  function LastActive(list: seq<Approval>, identity: Identity): (r: Option<Approval>)
    ensures r.Some? ==> r.value in list && Same(r.value.identity, identity) && r.value.status == Active
    ensures r.None? <==> forall a :: a in list ==> !(Same(a.identity, identity) && a.status == Active)
  {
    if list == [] then None
    else
      var last := list[|list| - 1];
      assert list == list[..|list| - 1] + [last];
      if Same(last.identity, identity) && last.status == Active then Some(last)
      else LastActive(list[..|list| - 1], identity)
  }

  // The newest active approval of `identity` the file tells of.
  function FoundIn(c: Codec, file: Option<Bytes>, identity: Identity): Result<Option<Approval>, StoreError> {
    match ListOf(c, file)
    case Err(e) => Err(e)
    case Ok(list) => Ok(LastActive(list, identity))
  }

  function LineBytes(c: Codec, entry: LogEntry): Bytes {
    Encode(c.render(entry)) + [LF]
  }

  // What one append leaves; the file is opened, never created.
  function Appended(c: Codec, file: Option<Bytes>, entry: LogEntry, fault: AppendFault): Result<Option<Bytes>,
                    Option<Bytes>> {
    if file.None? then Err(file)
    else match fault
      case CannotOpen => Err(file)
      case Torn(n) => Err(Some(file.value + Prefix(LineBytes(c, entry), n)))
      case NoFault => Ok(Some(file.value + LineBytes(c, entry)))
  }

  function Left(r: Result<Option<Bytes>, Option<Bytes>>): Option<Bytes> {
    match r case Ok(file) => file case Err(file) => file
  }

  function ApprovedEntry(c: Codec, identity: Identity, approvedAt: int): LogEntry {
    ApprovedLine(SCHEMA_VERSION, c.derive(identity.path, identity.sha256, approvedAt), c.lossy(identity.path),
                 identity.size, c.toHex(identity.sha256), identity.evidence, Stamp(approvedAt))
  }

  // What the line of an approval reads back as.
  function Kept(c: Codec, identity: Identity): Identity {
    identity.(path := Encode(c.lossy(identity.path)))
  }

  predicate OnFile(list: seq<Approval>, id: Id) {
    exists i :: 0 <= i < |list| && list[i].id == id
  }

  class JsonlApprovalStore {
    const codec: Codec
    // `approvals.jsonl`
    var file: Option<Bytes>

    // `open`: an absent file is created empty, one that is there is kept.
    constructor (codec: Codec, found: Option<Bytes>)
      ensures this.codec == codec && file == if found.None? then Some([]) else found
    {
      this.codec := codec;
      this.file := if found.None? then Some([]) else found;
    }

    method AppendLine(entry: LogEntry, fault: AppendFault) returns (r: Result<(), StoreError>)
      modifies this
      ensures file == Left(Appended(codec, old(file), entry, fault))
      ensures r == if Appended(codec, old(file), entry, fault).Ok? then Ok(()) else Err(WriteFailed)
    {
      if file.None? || fault.CannotOpen? {
        return Err(WriteFailed);
      }
      var line := Encode(codec.render(entry)) + [LF];
      if fault.Torn? {
        file := Some(file.value + Prefix(line, fault.written));
        return Err(WriteFailed);
      }
      file := Some(file.value + line);
      return Ok(());
    }

    // `replay`
    method Replay() returns (r: Result<seq<Approval>, StoreError>)
      ensures r == ListOf(codec, file)
    {
      hide Decode, SplitInclusive, Encode, Listing;
      if file.None? {
        return Err(Unreadable);
      }
      var text := Decode(file.value);
      if text.None? {
        return Err(Unreadable);
      }
      var order, records := [], map[];
      var lines := SplitInclusive(text.value, NL);
      ghost var events := [];
      for i := 0 to |lines|
        invariant EventsOf(codec, lines[..i]) == Some(events)
        invariant State(order, records) == Fold(events)
      {
        assert lines[..i + 1][..i] == lines[..i];
        var line := Chomp(lines[i]);
        if !Blank(line) {
          var entry := codec.parse(line);
          if entry.None? || EventOf(codec, entry.value).None? {
            FirstCorruptStands(codec, lines, i + 1);
            return Err(Corrupt);
          }
          var event := EventOf(codec, entry.value).value;
          match event {
            case Approve(id, identity, at) =>
              if id !in records {
                order := order + [id];
              }
              records := records[id := Approval(id, identity, at, Active)];
            case Revoke(id, at) =>
              if id in records {
                records := records[id := records[id].(status := Revoked(at))];
              }
          }
          assert (events + [event])[..|events|] == events;
          events := events + [event];
        }
      }
      assert lines[..|lines|] == lines;
      FoldConsistent(events);
      r := Ok(Listing(State(order, records)));
    }

    // `record`
    method Record(identity: Identity, approvedAt: int, fault: AppendFault) returns (r: Result<Approval, StoreError>)
      modifies this
      ensures match ListOf(codec, old(file))
              case Err(e) => r == Err(e) && file == old(file)
              case Ok(list) =>
                var entry := ApprovedEntry(codec, identity, approvedAt);
                if OnFile(list, entry.id) then r == Err(Duplicate) && file == old(file)
                else
                  && file == Left(Appended(codec, old(file), entry, fault))
                  && r == if Appended(codec, old(file), entry, fault).Ok?
                          then Ok(Approval(entry.id, identity, approvedAt, Active)) else Err(WriteFailed)
    {
      hide ListOf, Appended;
      var id := codec.derive(identity.path, identity.sha256, approvedAt);
      var existing := Replay();
      if existing.Err? {
        return Err(existing.error);
      }
      for i := 0 to |existing.value|
        invariant forall k :: 0 <= k < i ==> existing.value[k].id != id
      {
        if existing.value[i].id == id {
          return Err(Duplicate);
        }
      }
      var written := AppendLine(ApprovedEntry(codec, identity, approvedAt), fault);
      r := if written.Ok? then Ok(Approval(id, identity, approvedAt, Active)) else Err(WriteFailed);
    }

    // `revoke`: a line, whatever the log says.
    method RevokeId(id: Id, at: int, fault: AppendFault) returns (r: Result<(), StoreError>)
      modifies this
      ensures file == Left(Appended(codec, old(file), RevokedLine(SCHEMA_VERSION, id, Stamp(at)), fault))
      ensures r.Ok? <==> Appended(codec, old(file), RevokedLine(SCHEMA_VERSION, id, Stamp(at)), fault).Ok?
    {
      r := AppendLine(RevokedLine(SCHEMA_VERSION, id, Stamp(at)), fault);
    }

    // `find_active`: from the newest approval to the oldest.
    method FindActive(identity: Identity) returns (r: Result<Option<Approval>, StoreError>)
      ensures r == FoundIn(codec, file, identity)
      ensures r.Ok? && r.value.Some? ==>
                var a := r.value.value;
                && ListOf(codec, file).Ok? && a in ListOf(codec, file).value && a.status == Active
                && a.identity.path == identity.path && a.identity.size == identity.size
                && a.identity.sha256 == identity.sha256
      ensures r == Ok(None) <==>
              && ListOf(codec, file).Ok?
              && forall a :: a in ListOf(codec, file).value ==>
                   a.status != Active || a.identity.path != identity.path || a.identity.size != identity.size
                   || a.identity.sha256 != identity.sha256
    {
      hide ListOf;
      var list := Replay();
      if list.Err? {
        return Err(list.error);
      }
      var records := list.value;
      var i := |records|;
      assert records[..i] == records;
      while i > 0
        invariant 0 <= i <= |records|
        invariant LastActive(records, identity) == LastActive(records[..i], identity)
      {
        i := i - 1;
        assert records[..i + 1][..i] == records[..i];
        if Same(records[i].identity, identity) && records[i].status == Active {
          return Ok(Some(records[i]));
        }
      }
      return Ok(None);
    }
  }

  lemma {:induction false} FirstCorruptStands(c: Codec, lines: seq<Text>, n: nat)
    requires n <= |lines| && EventsOf(c, lines[..n]).None?
    ensures EventsOf(c, lines).None?
    decreases |lines|
  {
    if n == |lines| {
      assert lines[..n] == lines;
    } else {
      assert lines[..|lines| - 1][..n] == lines[..n];
      FirstCorruptStands(c, lines[..|lines| - 1], n);
    }
  }
}
