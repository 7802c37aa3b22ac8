// Runs of the store: the file is always a catalog, and the catalog is the one
// the calls describe.
module CatalogRuns {
  import opened Basics
  import opened CatalogRecords
  import opened CatalogReplay
  import opened CatalogRepair
  import opened CatalogStore
  import opened Lines
  import opened Utf8
  import CatalogRepairLaws
  import DisplayNames
  import opened TextFiles

  // A file a line can be appended to without gluing it to the one before.
  predicate Open(file: Option<Bytes>) {
    file.None? || file.value == [] || Terminated(file.value, LF)
  }

  lemma RenderedLine(c: Codec, entry: LogEntry)
    requires Lawful(c)
    ensures var t := c.render(entry);
            && Decode(LineBytes(c, entry)) == Some(t + [NL])
            && SplitInclusive(t + [NL], NL) == [t + [NL]]
            && Chomp(t + [NL]) == t
            && !Blank(t) && c.parse(t) == Some(entry)
  {
    hide Decode, Encode, SplitInclusive, Chomp;
    var t := c.render(entry);
    assert RendersOneLine(c, entry);
    DecodeEncode(t);
    DecodeSuffix(Encode(t), LF);
    OneLineSplits(t);
  }

  // Appending one entry to a file that ends its lines is applying one line to
  // what the file already says.
  lemma AppendedReads(c: Codec, file: Option<Bytes>, entry: LogEntry)
    requires Lawful(c) && Open(file) && ReplayFile(c, file).Ok?
    ensures ReplayFile(c, Appended(file, LineBytes(c, entry))) ==
            match ApplyLine(c, ReplayFile(c, file).value, c.render(entry))
            case Some(records) => Ok(records)
            case None => Err(StoreError.Corrupt)
    ensures Open(Appended(file, LineBytes(c, entry)))
  {
    var before, line, t := Contents(file), LineBytes(c, entry), c.render(entry);
    RenderedLine(c, entry);
    assert Terminated(before + line, LF);
    assert ReplayFile(c, file) == ReplayFile(c, Some(before));
    AppendedDecodes(before, line);
    TextAppended(c, Decode(before).value, t);
  }

  lemma TextAppended(c: Codec, text: Text, t: Text)
    requires text == [] || Terminated(text, NL)
    requires SplitInclusive(t + [NL], NL) == [t + [NL]] && Chomp(t + [NL]) == t
    ensures ReplayText(c, text + (t + [NL])) ==
            match ReplayText(c, text)
            case None => None
            case Some(records) => ApplyLine(c, records, t)
  {
    var one := [t + [NL]];
    SplitAppend(text, t + [NL], NL);
    ReplayLinesAppend(c, SplitInclusive(text, NL), one, []);
    assert one[1..] == [];
  }

  // A registered record is read back with its names sanitized -- when its two
  // publication ids agree. When they do not, the line just written makes the
  // whole catalog corrupt.
  lemma RegisteredReads(c: Codec, file: Option<Bytes>, record: CatalogRecord)
    requires Lawful(c) && Open(file) && WellTyped(c, record)
    requires RegisterDecision(c, file, record).Ok?
    ensures var now := Appended(file, LineBytes(c, RegisterDecision(c, file, record).value));
            && Open(now)
            && ReplayFile(c, now) ==
               if record.publicationId == record.catalogId.publication
               then Ok(ReplayFile(c, file).value + [Reread(c, record)])
               else Err(StoreError.Corrupt)
  {
    hide ReplayFile, Decode, Encode, Blank, FromDto, ToDto;
    RecordRoundTrip(c, record);
    AppendedReads(c, file, RecordEntry(c, record));
    RenderedLine(c, RecordEntry(c, record));
  }

  // One such record, registered in an empty project: the call succeeds, and from
  // then on the catalog neither reads nor takes a registration.
  lemma DisagreeingIdsCorrupt(c: Codec, details: Text, later: CatalogRecord)
    requires Lawful(c) && c.validDetails(details)
    ensures var record := CatalogRecord([1], CatalogId([97], [2]), [], details);
            && RegisterDecision(c, None, record) == Ok(RecordEntry(c, record))
            && var now := Appended(None, LineBytes(c, RecordEntry(c, record)));
               && ReplayFile(c, now) == Err(StoreError.Corrupt)
               && RegisterDecision(c, now, later) == Err(StoreError.Corrupt)
  {
    RegisteredReads(c, None, CatalogRecord([1], CatalogId([97], [2]), [], details));
  }

  // What an alias call does to the catalog it reads.
  function Aliased(c: Codec, records: Catalog, id: Identity, name: Text): Catalog {
    if !Registered(records, id) || name in records[IndexById(records, id)].names then records
    else WithName(records, id, c.sanitize(name))
  }

  lemma AliasedReads(c: Codec, file: Option<Bytes>, id: Identity, name: Text, secs: nat, nanos: nat)
    requires Lawful(c) && Open(file)
    requires AliasDecision(c, file, id, name, secs, nanos).Ok?
    ensures var decision := AliasDecision(c, file, id, name, secs, nanos).value;
            var now := if decision.None? then file else Appended(file, LineBytes(c, decision.value));
            Open(now) && ReplayFile(c, now) == Ok(Aliased(c, ReplayFile(c, file).value, id, name))
  {
    hide ReplayFile, Decode, Encode, Blank;
    if AliasDecision(c, file, id, name, secs, nanos).value.Some? {
      assert HexInverts(c, id);
      AppendedReads(c, file, AliasEntry(c, id, name, secs, nanos));
      RenderedLine(c, AliasEntry(c, id, name, secs, nanos));
    }
  }

  // The names of records once read have been through the sanitizer; adding an
  // alias twice then changes nothing the second time ...
  lemma AliasTwiceSameCatalog(c: Codec, records: Catalog, id: Identity, name: Text)
    ensures Aliased(c, Aliased(c, records, id, name), id, name) == Aliased(c, records, id, name)
  {
    if Registered(records, id) && name !in records[IndexById(records, id)].names {
      WithNameKeepsPlaces(records, id, c.sanitize(name));
    }
  }

  lemma WithNameKeepsPlaces(records: Catalog, id: Identity, name: Text)
    requires Registered(records, id)
    ensures var now := WithName(records, id, name);
            && |now| == |records| && IndexById(now, id) == IndexById(records, id)
            && name in now[IndexById(records, id)].names
            && forall x :: x in now[IndexById(records, id)].names ==>
                 x == name || x in records[IndexById(records, id)].names
  {
    var now, i := WithName(records, id, name), IndexById(records, id);
    assert now[i].publicationId == id;
    assert forall k :: 0 <= k < |records| ==> now[k].publicationId == records[k].publicationId;
    assert now[i].names[|now[i].names| - 1] == name || name in records[i].names;
  }

  // ... in the file, though, only if the name is one the sanitizer leaves
  // alone: any other name is appended again by every call.
  lemma AliasTwiceSameBytesIff(c: Codec, file: Option<Bytes>, id: Identity, name: Text,
                               secs: nat, nanos: nat, secs': nat, nanos': nat)
    requires Lawful(c) && Open(file)
    requires AliasDecision(c, file, id, name, secs, nanos).Ok?
    requires AliasDecision(c, file, id, name, secs, nanos).value.Some?
    ensures var now := Appended(file, LineBytes(c, AliasDecision(c, file, id, name, secs, nanos).value.value));
            var again := AliasDecision(c, now, id, name, secs', nanos');
            again.Ok? && (again.value.None? <==> c.sanitize(name) == name)
  {
    AliasedReads(c, file, id, name, secs, nanos);
    WithNameKeepsPlaces(ReplayFile(c, file).value, id, c.sanitize(name));
  }

  // Under the display-name rule itself those are the names past the cap.
  lemma DisplayNameTwiceSameBytesIff(c: Codec, file: Option<Bytes>, id: Identity, raw: Text,
                                     secs: nat, nanos: nat, secs': nat, nanos': nat)
    requires Lawful(c) && Open(file) && c.sanitize == DisplayNames.Sanitize
    requires AliasDecision(c, file, id, DisplayNames.Sanitize(raw), secs, nanos).Ok?
    requires AliasDecision(c, file, id, DisplayNames.Sanitize(raw), secs, nanos).value.Some?
    ensures var name := DisplayNames.Sanitize(raw);
            var now := Appended(file, LineBytes(c, AliasDecision(c, file, id, name, secs, nanos).value.value));
            var again := AliasDecision(c, now, id, name, secs', nanos');
            again.Ok? && (again.value.None? <==> DisplayNames.ByteLength(name) <= DisplayNames.MAX_BYTES)
  {
    AliasTwiceSameBytesIff(c, file, id, DisplayNames.Sanitize(raw), secs, nanos, secs', nanos');
    DisplayNames.SanitizeTwiceIff(raw);
  }

  // ---- Runs ----

  datatype Call =
    | CallRegister(record: CatalogRecord)
    | CallAlias(id: Identity, name: Text, secs: nat, nanos: nat)
    | CallRepair(at: int)

  // What the calls leave: the catalog file and the copies of what repairs replaced.
  datatype Disk = Disk(file: Option<Bytes>, recovery: map<int, Bytes>)

  // A repair has something to do, nothing to refuse, and its copy's name is free.
  predicate Repairs(c: Codec, disk: Disk, call: Call) {
    && call.CallRepair? && disk.file.Some? && call.at >= 0 && call.at !in disk.recovery
    && var plan := PlanOf(c, disk.file.value, []); plan.refusals == [] && plan.drops != []
  }

  // What a call leaves whose appends complete and that nobody interferes with; a
  // repair is asked for with the digest of what is there.
  function AfterCall(c: Codec, disk: Disk, call: Call): Disk {
    match call
    case CallRegister(record) =>
      (match RegisterDecision(c, disk.file, record)
       case Err(_) => disk
       case Ok(entry) => disk.(file := Appended(disk.file, LineBytes(c, entry))))
    case CallAlias(id, name, secs, nanos) =>
      (match AliasDecision(c, disk.file, id, name, secs, nanos)
       case Ok(Some(entry)) => disk.(file := Appended(disk.file, LineBytes(c, entry)))
       case _ => disk)
    case CallRepair(at) =>
      if Repairs(c, disk, call)
      then Disk(Some(Repaired(c, disk.file.value)), disk.recovery[at := disk.file.value])
      else disk
  }

  // The store does what `AfterCall` says.
  method RunCall(store: JsonlCatalogStore, call: Call)
    requires Lawful(store.codec) && forall k :: k in store.parts ==> k < store.sequence
    modifies store
    ensures Disk(store.file, store.recovery) ==
            AfterCall(store.codec, Disk(old(store.file), old(store.recovery)), call)
    ensures store.parts == old(store.parts) && store.sequence >= old(store.sequence)
  {
    hide PlanDrops, PlanRefusals, Classified, ReplayFile, Repaired;
    match call {
      case CallRegister(record) =>
        var _ := store.Register(record, NoFault);
      case CallAlias(id, name, secs, nanos) =>
        var _ := store.AddAlias(id, name, secs, nanos, NoFault);
      case CallRepair(at) =>
        if store.file.Some? {
          CatalogRepairLaws.RepairedReads(store.codec, store.file.value);
          var _ := store.Repair(store.sha(store.file.value), at, UNDISTURBED);
        }
    }
  }

  const UNDISTURBED := Interference(None, false, None, None, false, false, None, false, None, false)

  method RunCalls(store: JsonlCatalogStore, calls: seq<Call>)
    requires Lawful(store.codec) && forall k :: k in store.parts ==> k < store.sequence
    modifies store
    ensures Disk(store.file, store.recovery) ==
            RunDisk(store.codec, Disk(old(store.file), old(store.recovery)), calls)
  {
    hide AfterCall;
    for i := 0 to |calls|
      invariant RunDisk(store.codec, Disk(store.file, store.recovery), calls[i..]) ==
                RunDisk(store.codec, Disk(old(store.file), old(store.recovery)), calls)
      invariant forall k :: k in store.parts ==> k < store.sequence
    {
      assert calls[i..][1..] == calls[i + 1..];
      RunCall(store, calls[i]);
    }
  }

  // The catalog as an operator thinks of it.
  function Expected(c: Codec, records: Catalog, call: Call): Catalog {
    match call
    case CallRegister(record) =>
      if Registered(records, record.publicationId) then records else records + [Reread(c, record)]
    case CallAlias(id, name, _, _) => Aliased(c, records, id, name)
    case CallRepair(_) => records
  }

  function RunDisk(c: Codec, start: Disk, calls: seq<Call>): Disk
    decreases |calls|
  {
    if calls == [] then start else RunDisk(c, AfterCall(c, start, calls[0]), calls[1..])
  }

  function RunCatalog(c: Codec, records: Catalog, calls: seq<Call>): Catalog
    decreases |calls|
  {
    if calls == [] then records else RunCatalog(c, Expected(c, records, calls[0]), calls[1..])
  }

  predicate Coherent(c: Codec, call: Call) {
    call.CallRegister? ==>
      WellTyped(c, call.record) && call.record.publicationId == call.record.catalogId.publication
  }

  // Over every run of calls from a catalog that reads, or from none: the file ends
  // its lines, reads, is the expected catalog, and no repair ever has anything to do.
  lemma {:induction false} EveryRunReads(c: Codec, start: Disk, calls: seq<Call>)
    requires Lawful(c) && Open(start.file) && ReplayFile(c, start.file).Ok?
    requires forall i :: 0 <= i < |calls| ==> Coherent(c, calls[i])
    ensures var end, records := RunDisk(c, start, calls), RunCatalog(c, ReplayFile(c, start.file).value, calls);
            && Open(end.file) && ReplayFile(c, end.file) == Ok(records) && Sound(records)
            && end.recovery == start.recovery
            && forall call :: !Repairs(c, end, call)
    decreases |calls|
  {
    hide ReplayFile, AfterCall, Expected, Open, Repairs, Coherent;
    if calls == [] {
      ReadsMeansSound(c, start.file);
      NoRepairOfWhatReads(c, start);
    } else {
      OneCallReads(c, start, calls[0]);
      EveryRunReads(c, AfterCall(c, start, calls[0]), calls[1..]);
    }
  }

  lemma NoRepairOfWhatReads(c: Codec, disk: Disk)
    requires Lawful(c) && ReplayFile(c, disk.file).Ok?
    ensures forall call :: !Repairs(c, disk, call)
  {
    if disk.file.Some? {
      NothingToDoIffReads(c, disk.file.value, []);
    }
  }

  lemma OneCallReads(c: Codec, disk: Disk, call: Call)
    requires Lawful(c) && Open(disk.file) && ReplayFile(c, disk.file).Ok? && Coherent(c, call)
    ensures Open(AfterCall(c, disk, call).file)
    ensures ReplayFile(c, AfterCall(c, disk, call).file) == Ok(Expected(c, ReplayFile(c, disk.file).value, call))
    ensures AfterCall(c, disk, call).recovery == disk.recovery
  {
    match call {
      case CallRegister(record) =>
        if RegisterDecision(c, disk.file, record).Ok? {
          RegisteredReads(c, disk.file, record);
        }
      case CallAlias(id, name, secs, nanos) =>
        if AliasDecision(c, disk.file, id, name, secs, nanos).Ok? {
          AliasedReads(c, disk.file, id, name, secs, nanos);
        }
      case CallRepair(_) =>
        NoRepairOfWhatReads(c, disk);
    }
  }

  // ---- Runs from a catalog that does not read ----

  // The first repair of a run that has something it may do, or |calls|.
  function FirstRepair(c: Codec, start: Disk, calls: seq<Call>): (k: nat)
    ensures k <= |calls|
    ensures k < |calls| ==> Repairs(c, start, calls[k])
    ensures forall i :: 0 <= i < k ==> !Repairs(c, start, calls[i])
  {
    if calls == [] || Repairs(c, start, calls[0]) then 0 else 1 + FirstRepair(c, start, calls[1..])
  }

  function RepairedDisk(c: Codec, start: Disk, call: Call): Disk
    requires Repairs(c, start, call)
  {
    Disk(Some(Repaired(c, start.file.value)), start.recovery[call.at := start.file.value])
  }

  // Over every run of calls from a catalog that does not read: nothing changes
  // until the first repair that may do anything; that one keeps the bytes there were
  // for good, and from it on the catalog reads and is what the calls after it say.
  lemma {:induction false} EveryRunRecovers(c: Codec, start: Disk, calls: seq<Call>)
    requires Lawful(c) && ReplayFile(c, start.file).Err?
    requires forall i :: 0 <= i < |calls| ==> Coherent(c, calls[i])
    ensures var end, k := RunDisk(c, start, calls), FirstRepair(c, start, calls);
            if k == |calls| then end == start
            else
              var repaired := RepairedDisk(c, start, calls[k]);
              && Open(end.file) && ReplayFile(c, repaired.file).Ok?
              && ReplayFile(c, end.file) == Ok(RunCatalog(c, ReplayFile(c, repaired.file).value, calls[k + 1..]))
              && end.recovery == start.recovery[calls[k].at := start.file.value]
    decreases |calls|
  {
    hide ReplayFile, Repairs, Expected, Open, Coherent;
    if calls != [] {
      OneCallOfUnread(c, start, calls[0]);
      if Repairs(c, start, calls[0]) {
        EveryRunReads(c, RepairedDisk(c, start, calls[0]), calls[1..]);
      } else {
        EveryRunRecovers(c, start, calls[1..]);
        var k := FirstRepair(c, start, calls[1..]);
        assert k < |calls[1..]| ==> calls[1..][k + 1..] == calls[k + 2..];
      }
    }
  }

  lemma OneCallOfUnread(c: Codec, disk: Disk, call: Call)
    requires Lawful(c) && ReplayFile(c, disk.file).Err?
    ensures !Repairs(c, disk, call) ==> AfterCall(c, disk, call) == disk
    ensures Repairs(c, disk, call) ==>
              && AfterCall(c, disk, call) == RepairedDisk(c, disk, call)
              && Open(AfterCall(c, disk, call).file) && ReplayFile(c, AfterCall(c, disk, call).file).Ok?
  {
    if Repairs(c, disk, call) {
      CatalogRepairLaws.RepairedReads(c, disk.file.value);
      CatalogRepairLaws.RepairedLines(c, disk.file.value);
    }
  }

  lemma ReadsMeansSound(c: Codec, file: Option<Bytes>)
    ensures ReplayFile(c, file).Ok? ==> Sound(ReplayFile(c, file).value)
  {
    if file.Some? && Decode(file.value).Some? {
      ReplayLinesSound(c, SplitInclusive(Decode(file.value).value, NL), []);
    }
  }

  // After any repair that went through, whatever the file held before it,
  // the next registration lands as a line of its own.
  lemma RepairedTakesAppends(c: Codec, bytes: Bytes, record: CatalogRecord)
    requires Lawful(c) && Coherent(c, CallRegister(record))
    ensures var repaired := Disk(Some(Repaired(c, bytes)), map[]);
            && ReplayFile(c, repaired.file).Ok?
            && ReplayFile(c, AfterCall(c, repaired, CallRegister(record)).file)
               == Ok(Expected(c, ReplayFile(c, repaired.file).value, CallRegister(record)))
  {
    CatalogRepairLaws.RepairedReads(c, bytes);
    CatalogRepairLaws.RepairedLines(c, bytes);
    OneCallReads(c, Disk(Some(Repaired(c, bytes)), map[]), CallRegister(record));
  }
}
