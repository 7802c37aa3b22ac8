// What the approval log means, and what runs of the store keep.
module ApprovalLaws {
  import opened Basics
  import opened Lines
  import opened TextFiles
  import opened Utf8
  import opened ApprovalLog

  // ---- What a replayed log means ---------------------------------------------

  // The position of the last approval under `id`, or -1.
  function LastApproval(events: seq<Event>, id: Id): (i: int)
    ensures -1 <= i < |events|
    ensures i >= 0 ==> events[i].Approve? && events[i].id == id
    ensures forall k :: i < k < |events| ==> !(events[k].Approve? && events[k].id == id)
  {
    if events == [] then -1
    else if events[|events| - 1].Approve? && events[|events| - 1].id == id then |events| - 1
    else LastApproval(events[..|events| - 1], id)
  }

  // The position of the last revocation of `id`, or -1.
  function LastRevocation(events: seq<Event>, id: Id): (i: int)
    ensures -1 <= i < |events|
    ensures i >= 0 ==> events[i].Revoke? && events[i].id == id
    ensures forall k :: i < k < |events| ==> !(events[k].Revoke? && events[k].id == id)
  {
    if events == [] then -1
    else if events[|events| - 1].Revoke? && events[|events| - 1].id == id then |events| - 1
    else LastRevocation(events[..|events| - 1], id)
  }

  // An id is on record exactly when it was ever approved; its record is the last
  // approval's, and it is revoked exactly when a revocation came after that.
  lemma {:induction false} FoldMeans(events: seq<Event>, id: Id)
    ensures var s, i, k := Fold(events), LastApproval(events, id), LastRevocation(events, id);
            && (id in s.records <==> i >= 0)
            && (i >= 0 ==> s.records[id] == Approval(id, events[i].identity, events[i].approvedAt,
                                                     if k > i then Revoked(events[k].at) else Active))
  {
    if events != [] {
      var front := events[..|events| - 1];
      FoldMeans(front, id);
    }
  }

  // The position of the first approval under `id`, or the length.
  function FirstApproval(events: seq<Event>, id: Id): (i: nat)
    ensures i <= |events|
    ensures i < |events| ==> events[i].Approve? && events[i].id == id
    ensures forall k :: 0 <= k < i ==> !(events[k].Approve? && events[k].id == id)
  {
    if events == [] then 0
    else
      var i := FirstApproval(events[..|events| - 1], id);
      i
      + if i == |events| - 1 && !(events[i].Approve? && events[i].id == id) then 1 else 0
  }

  // The list is ordered by first approval.
  lemma {:induction false} OrderedByFirstApproval(events: seq<Event>, i: nat, j: nat)
    requires i < j < |Fold(events).order|
    ensures var order := Fold(events).order;
            FirstApproval(events, order[i]) < FirstApproval(events, order[j]) < |events|
  {
    var front, last := events[..|events| - 1], events[|events| - 1];
    var order, before := Fold(events).order, Fold(front);
    FoldConsistent(front);
    assert i < |before.order| && order[i] == before.order[i] && order[i] in before.records;
    hide Consistent;
    if j < |before.order| {
      OrderedByFirstApproval(front, i, j);
    } else {
      assert last.Approve? && order[j] == last.id && last.id !in before.records;
      FoldMeans(front, order[i]);
      FoldMeans(front, order[j]);
      var k := LastApproval(front, order[i]);
      assert front[k] == events[k];
    }
  }

  // ---- Runs of the store -------------------------------------------------------

  predicate RendersOneLine(c: Codec, e: LogEntry) {
    var line := c.render(e);
    c.parse(line) == Some(e) && NL !in line && !Blank(line) && line[|line| - 1] != RETURN
  }

  predicate HexInverts(c: Codec, digest: Digest) {
    c.fromHex(c.toHex(digest)) == Some(digest)
  }

  // The lossy text of a path that is text is that text.
  predicate LossyIsExact(c: Codec, path: Bytes) {
    Decode(path).Some? ==> c.lossy(path) == Decode(path).value
  }

  ghost predicate Lawful(c: Codec) {
    && (forall e :: RendersOneLine(c, e))
    && (forall digest :: HexInverts(c, digest))
    && (forall path :: LossyIsExact(c, path))
  }

  // A file a line can be appended to without gluing it to the one before.
  predicate Settled(file: Option<Bytes>) {
    file.Some? && (file.value == [] || Terminated(file.value, LF))
  }

  // One successful append to a file that reads adds exactly one event.
  lemma AppendReads(c: Codec, file: Option<Bytes>, entry: LogEntry)
    requires Lawful(c) && Settled(file) && EventsIn(c, file).Ok? && EventOf(c, entry).Some?
    ensures var now := Left(Appended(c, file, entry, NoFault));
            Settled(now) && EventsIn(c, now) == Ok(EventsIn(c, file).value + [EventOf(c, entry).value])
  {
    hide Prefix, RendersOneLine;
    var t := c.render(entry);
    assert RendersOneLine(c, entry);
    hide Decode, Encode, EventOf, EventsOf, Blank, Lawful, SplitInclusive, Chomp;
    DecodeEncode(t);
    DecodeSuffix(Encode(t), LF);
    assert Decode(LineBytes(c, entry)).value == t + [NL];
    AppendedDecodes(file.value, LineBytes(c, entry));
    EventAppended(c, Decode(file.value).value, t, entry);
    assert Terminated(file.value + LineBytes(c, entry), LF);
  }

  lemma EventAppended(c: Codec, text: Text, t: Text, entry: LogEntry)
    requires text == [] || Terminated(text, NL)
    requires t == c.render(entry) && RendersOneLine(c, entry) && EventOf(c, entry).Some?
    requires EventsOf(c, SplitInclusive(text, NL)).Some?
    ensures EventsOf(c, SplitInclusive(text + (t + [NL]), NL))
            == Some(EventsOf(c, SplitInclusive(text, NL)).value + [EventOf(c, entry).value])
  {
    hide Blank, EventOf, SplitInclusive, Chomp;
    SplitAppend(text, t + [NL], NL);
    OneLineSplits(t);
    var lines := SplitInclusive(text, NL);
    assert (lines + [t + [NL]])[..|lines|] == lines;
  }

  datatype Op = RecordOp(identity: Identity, at: int) | RevokeOp(id: Id, at: int)

  // The event a call that succeeds adds; a `record` of an id on file adds none.
  function OpEvent(c: Codec, events: seq<Event>, op: Op): Option<Event> {
    match op
    case RevokeOp(id, at) => Some(Revoke(id, Stamp(at)))
    case RecordOp(identity, at) =>
      var id := c.derive(identity.path, identity.sha256, at);
      if id in Fold(events).records then None else Some(Approve(id, Kept(c, identity), Stamp(at)))
  }

  function Told(c: Codec, events: seq<Event>, ops: seq<Op>): seq<Event>
    decreases |ops|
  {
    if ops == [] then events
    else
      var event := OpEvent(c, events, ops[0]);
      Told(c, if event.Some? then events + [event.value] else events, ops[1..])
  }

  lemma ToldOne(c: Codec, events: seq<Event>, op: Op)
    ensures var event := OpEvent(c, events, op);
            Told(c, events, [op]) == if event.Some? then events + [event.value] else events
  {
    assert [op][1..] == [];
  }

  // The file after one call whose write, if any, succeeds.
  function FileAfter(c: Codec, file: Option<Bytes>, op: Op): Option<Bytes> {
    match op
    case RevokeOp(id, at) => Left(Appended(c, file, RevokedLine(SCHEMA_VERSION, id, Stamp(at)), NoFault))
    case RecordOp(identity, at) =>
      var entry := ApprovedEntry(c, identity, at);
      match ListOf(c, file)
      case Err(_) => file
      case Ok(list) => if OnFile(list, entry.id) then file else Left(Appended(c, file, entry, NoFault))
  }

  // The store does what `FileAfter` says.
  method RunOp(store: JsonlApprovalStore, op: Op)
    modifies store
    ensures store.file == FileAfter(store.codec, old(store.file), op)
  {
    hide ListOf, Appended;
    match op {
      case RevokeOp(id, at) =>
        var _ := store.RevokeId(id, at, NoFault);
      case RecordOp(identity, at) =>
        var _ := store.Record(identity, at, NoFault);
    }
  }

  method RunOps(store: JsonlApprovalStore, ops: seq<Op>)
    modifies store
    ensures store.file == FilesAfter(store.codec, old(store.file), ops)
  {
    hide FileAfter;
    for i := 0 to |ops|
      invariant FilesAfter(store.codec, store.file, ops[i..]) == FilesAfter(store.codec, old(store.file), ops)
    {
      assert ops[i..][1..] == ops[i + 1..];
      RunOp(store, ops[i]);
    }
  }

  function FilesAfter(c: Codec, file: Option<Bytes>, ops: seq<Op>): Option<Bytes>
    decreases |ops|
  {
    if ops == [] then file else FilesAfter(c, FileAfter(c, file, ops[0]), ops[1..])
  }

  lemma OnFileIff(events: seq<Event>, id: Id)
    ensures Consistent(Fold(events)) && (OnFile(Listing(Fold(events)), id) <==> id in Fold(events).records)
  {
    FoldConsistent(events);
    var s := Fold(events);
    var list := Listing(s);
    if id in s.records {
      var i :| 0 <= i < |s.order| && s.order[i] == id;
      assert list[i].id == id;
    }
    if OnFile(list, id) {
      var i :| 0 <= i < |list| && list[i].id == id;
      assert list[i] == s.records[s.order[i]];
    }
  }

  lemma CallReads(c: Codec, file: Option<Bytes>, op: Op)
    requires Lawful(c) && Settled(file) && EventsIn(c, file).Ok?
    ensures var events := EventsIn(c, file).value;
            var event := OpEvent(c, events, op);
            && Settled(FileAfter(c, file, op))
            && EventsIn(c, FileAfter(c, file, op)) == Ok(if event.Some? then events + [event.value] else events)
  {
    hide EventsIn, Fold, Listing, Appended, LineBytes;
    var events := EventsIn(c, file).value;
    match op
    case RevokeOp(id, at) => AppendReads(c, file, RevokedLine(SCHEMA_VERSION, id, Stamp(at)));
    case RecordOp(identity, at) =>
      assert HexInverts(c, identity.sha256);
      var entry := ApprovedEntry(c, identity, at);
      OnFileIff(events, entry.id);
      AppendReads(c, file, entry);
  }

  // Over every run of calls from a file that reads, as the empty one does, the file
  // reads, and says exactly what the calls did, one event each.
  lemma {:induction false} EveryRunReads(c: Codec, file: Option<Bytes>, ops: seq<Op>)
    requires Lawful(c) && Settled(file) && EventsIn(c, file).Ok?
    ensures Settled(FilesAfter(c, file, ops))
    ensures EventsIn(c, FilesAfter(c, file, ops)) == Ok(Told(c, EventsIn(c, file).value, ops))
    decreases |ops|
  {
    if ops != [] {
      CallReads(c, file, ops[0]);
      hide EventsIn, OpEvent, FileAfter, Lawful;
      EveryRunReads(c, FileAfter(c, file, ops[0]), ops[1..]);
    }
  }

  lemma EmptyFileReads(c: Codec)
    ensures Settled(Some([])) && EventsIn(c, Some([])) == Ok([])
  {
    assert SplitInclusive<Scalar>([], NL) == [];
  }

  // ---- What a run promises -------------------------------------------------------

  predicate IsActive(events: seq<Event>, id: Id) {
    var records := Fold(events).records; id in records && records[id].status == Active
  }

  predicate IsRevoked(events: seq<Event>, id: Id) {
    var records := Fold(events).records; id in records && records[id].status.Revoked?
  }

  lemma FoldAppend(events: seq<Event>, event: Event)
    ensures Fold(events + [event]) == Update(Fold(events), event)
  {
    assert (events + [event])[..|events|] == events;
  }

  // A revoked approval is never active again, whatever calls follow.
  lemma {:induction false} RevokedStaysRevoked(c: Codec, events: seq<Event>, ops: seq<Op>, id: Id)
    requires IsRevoked(events, id)
    ensures IsRevoked(Told(c, events, ops), id)
    decreases |ops|
  {
    if ops != [] {
      var event := OpEvent(c, events, ops[0]);
      if event.Some? {
        FoldAppend(events, event.value);
      }
      RevokedStaysRevoked(c, if event.Some? then events + [event.value] else events, ops[1..], id);
    }
  }

  ghost predicate Derivable(c: Codec, id: Id) {
    exists path, sha256, at :: c.derive(path, sha256, at) == id
  }

  // Without an approval that could carry it, an id stays off the record.
  lemma {:induction false} UnderivableStaysOff(c: Codec, events: seq<Event>, ops: seq<Op>, id: Id)
    requires id !in Fold(events).records && !Derivable(c, id)
    ensures !IsActive(Told(c, events, ops), id)
    decreases |ops|
  {
    if ops != [] {
      var event := OpEvent(c, events, ops[0]);
      if event.Some? {
        FoldAppend(events, event.value);
        if ops[0].RecordOp? {
          assert c.derive(ops[0].identity.path, ops[0].identity.sha256, ops[0].at) != id;
        }
      }
      UnderivableStaysOff(c, if event.Some? then events + [event.value] else events, ops[1..], id);
    }
  }

  // A revocation keeps its id from ever being active again exactly when the id
  // was on record by then (or no approval can have it): a revocation that comes
  // before its approval is lost, and the approval ends up active.
  lemma RevocationHoldsIff(c: Codec, events: seq<Event>, id: Id, at: int)
    ensures (forall ops :: !IsActive(Told(c, Told(c, events, [RevokeOp(id, at)]), ops), id))
            <==> id in Fold(events).records || !Derivable(c, id)
  {
    var now := Told(c, events, [RevokeOp(id, at)]);
    ToldOne(c, events, RevokeOp(id, at));
    FoldAppend(events, Revoke(id, Stamp(at)));
    if id in Fold(events).records {
      forall ops
        ensures !IsActive(Told(c, now, ops), id)
      {
        RevokedStaysRevoked(c, now, ops, id);
      }
    } else if !Derivable(c, id) {
      forall ops
        ensures !IsActive(Told(c, now, ops), id)
      {
        UnderivableStaysOff(c, now, ops, id);
      }
    } else {
      var path, sha256, when :| c.derive(path, sha256, when) == id;
      var op := RecordOp(Identity(path, 0, sha256, []), when);
      ToldOne(c, now, op);
      FoldAppend(now, OpEvent(c, now, op).value);
      assert IsActive(Told(c, now, [op]), id);
    }
  }

  predicate ApprovedOnce(events: seq<Event>) {
    forall i, j :: 0 <= i < j < |events| && events[i].Approve? && events[j].Approve? ==> events[i].id != events[j].id
  }

  // In every run each id is approved at most once, so no approval overwrites
  // another and every id handed out stays unique.
  lemma {:induction false} IdsApprovedOnce(c: Codec, events: seq<Event>, ops: seq<Op>)
    requires ApprovedOnce(events)
    ensures ApprovedOnce(Told(c, events, ops))
    decreases |ops|
  {
    if ops != [] {
      var event := OpEvent(c, events, ops[0]);
      if event.Some? && event.value.Approve? {
        FoldMeans(events, event.value.id);
      }
      IdsApprovedOnce(c, if event.Some? then events + [event.value] else events, ops[1..]);
    }
  }

  // An approval just recorded is the one `find_active` returns exactly when the
  // path it is for is text: a path that is not is written as other bytes.
  lemma RecordedIsFoundIff(c: Codec, events: seq<Event>, identity: Identity, at: int)
    requires Lawful(c) && OpEvent(c, events, RecordOp(identity, at)).Some?
    ensures var now := Told(c, events, [RecordOp(identity, at)]);
            var id := c.derive(identity.path, identity.sha256, at);
            && Consistent(Fold(now))
            && var found := LastActive(Listing(Fold(now)), identity);
               && (found == Some(Approval(id, Kept(c, identity), Stamp(at), Active)) <==> Decode(identity.path).Some?)
               && (Decode(identity.path).Some? ==>
                     && found.value.identity == identity && found.value.status == Active
                     && found.value.approvedAt == if at < 0 then 0 else at)
  {
    var event := OpEvent(c, events, RecordOp(identity, at)).value;
    var now := Told(c, events, [RecordOp(identity, at)]);
    ToldOne(c, events, RecordOp(identity, at));
    FoldAppend(events, event);
    FoldConsistent(events);
    FoldConsistent(now);
    var list := Listing(Fold(now));
    assert list[|list| - 1] == Approval(event.id, Kept(c, identity), Stamp(at), Active);
    assert LossyIsExact(c, identity.path);
    if Decode(identity.path).Some? {
      EncodeDecode(identity.path);
    } else {
      DecodeEncode(c.lossy(identity.path));
    }
  }

  // The path of the single byte 0xFF, approved in an empty log: the call succeeds,
  // the log reads, and no approval of that file is found.
  lemma NonTextPathIsNotFound(c: Codec, sha256: Digest, at: int)
    requires Lawful(c)
    ensures var identity := Identity([0xFF], 0, sha256, []);
            var id := c.derive([0xFF], sha256, at);
            var file := FilesAfter(c, Some([]), [RecordOp(identity, at)]);
            && EventsIn(c, file) == Ok([Approve(id, Kept(c, identity), Stamp(at))])
            && Consistent(Fold(EventsIn(c, file).value))
            && LastActive(Listing(Fold(EventsIn(c, file).value)), identity) == None
  {
    var identity := Identity([0xFF], 0, sha256, []);
    var op := RecordOp(identity, at);
    EmptyFileReads(c);
    EveryRunReads(c, Some([]), [op]);
    ToldOne(c, [], op);
    FoldAppend([], OpEvent(c, [], op).value);
    FoldConsistent(Told(c, [], [op]));
    assert Decode([0xFF]).None?;
    DecodeEncode(c.lossy([0xFF]));
  }

  // An active approval of this very file: path, size and digest, whatever the
  // evidence beside them.
  predicate Answers(a: Approval, identity: Identity) {
    && a.status == Active && a.identity.path == identity.path && a.identity.size == identity.size
    && a.identity.sha256 == identity.sha256
  }

  // The position of the last approval that answers, or -1.
  function LastAnswer(list: seq<Approval>, identity: Identity): (j: int)
    ensures -1 <= j < |list|
    ensures j >= 0 ==> Answers(list[j], identity)
    ensures forall i :: j < i < |list| ==> !Answers(list[i], identity)
  {
    if list == [] then -1
    else if Answers(list[|list| - 1], identity) then |list| - 1
    else LastAnswer(list[..|list| - 1], identity)
  }

  // The newest approval that answers is the one found, and one is found exactly when
  // there is one.
  lemma {:induction false} LastActiveIsLast(list: seq<Approval>, identity: Identity)
    ensures var j := LastAnswer(list, identity);
            LastActive(list, identity) == if j >= 0 then Some(list[j]) else None
  {
    if list != [] {
      LastActiveIsLast(list[..|list| - 1], identity);
    }
  }

  // What a lookup answers, from the list the log tells of.
  lemma FoundMeans(c: Codec, file: Option<Bytes>, identity: Identity)
    ensures var log := ListOf(c, file);
            if log.Err? then FoundIn(c, file, identity) == Err(log.error)
            else
              var j := LastAnswer(log.value, identity);
              FoundIn(c, file, identity) == Ok(if j >= 0 then Some(log.value[j]) else None)
  {
    hide LastActive, LastAnswer, ListOf;
    if ListOf(c, file).Ok? {
      LastActiveIsLast(ListOf(c, file).value, identity);
    }
  }

  // Two lists that differ in nothing but evidence.
  predicate SameButEvidence(a: seq<Approval>, b: seq<Approval>) {
    |a| == |b| && forall i :: 0 <= i < |a| ==> EqualButEvidence(a[i], b[i])
  }

  predicate EqualButEvidence(x: Approval, y: Approval) {
    && x.id == y.id && x.approvedAt == y.approvedAt && x.status == y.status
    && x.identity.path == y.identity.path && x.identity.size == y.identity.size
    && x.identity.sha256 == y.identity.sha256
  }

  lemma SameAnswer(x: Approval, y: Approval, identity: Identity, evidence: Bytes)
    requires EqualButEvidence(x, y)
    ensures Answers(x, identity) <==> Answers(y, identity.(evidence := evidence))
  {
  }

  // Evidence, on the approval or on the file asked about, changes no answer: none is
  // found, or the approval at the same place.
  lemma {:induction false} EvidenceIsIgnored(a: seq<Approval>, b: seq<Approval>, identity: Identity, evidence: Bytes)
    requires SameButEvidence(a, b)
    ensures LastAnswer(a, identity) == LastAnswer(b, identity.(evidence := evidence))
  {
    if a != [] {
      var n := |a| - 1;
      SameAnswer(a[n], b[n], identity, evidence);
      EvidenceIsIgnored(a[..n], b[..n], identity, evidence);
    }
  }

  // ---- Which logs read ---------------------------------------------------------

  // A line of schema 1 whose digest, if it has one, is hexadecimal.
  predicate TellsAnEvent(c: Codec, line: Text) {
    var entry := c.parse(line);
    && entry.Some? && entry.value.schema == 1
    && (entry.value.ApprovedLine? ==> c.fromHex(entry.value.sha256).Some?)
  }

  predicate AllTell(c: Codec, lines: seq<Text>) {
    forall i :: 0 <= i < |lines| ==> Blank(Chomp(lines[i])) || TellsAnEvent(c, Chomp(lines[i]))
  }

  lemma {:induction false} LinesTell(c: Codec, lines: seq<Text>)
    ensures EventsOf(c, lines).Some? <==> AllTell(c, lines)
  {
    if lines != [] {
      LinesTell(c, lines[..|lines| - 1]);
      assert lines == lines[..|lines| - 1] + [lines[|lines| - 1]];
    }
  }

  // The log is `Unreadable` exactly when it is not there or not text, and `Corrupt`
  // exactly when some line is neither blank nor tells an event.
  lemma LogFailsIff(c: Codec, file: Option<Bytes>)
    ensures ListOf(c, file) == Err(Unreadable) <==> file.None? || Decode(file.value).None?
    ensures ListOf(c, file) == Err(Corrupt) <==>
            && file.Some? && Decode(file.value).Some?
            && !AllTell(c, SplitInclusive(Decode(file.value).value, NL))
  {
    hide EventsOf, AllTell, Decode, SplitInclusive, Fold, Listing, Consistent;
    if file.Some? && Decode(file.value).Some? {
      LinesTell(c, SplitInclusive(Decode(file.value).value, NL));
    }
  }
}
