// The store over one `catalog.jsonl`: registrations, aliases and the repair,
// with every way the file system can interfere passed in as a parameter.
module CatalogStore {
  import opened Basics
  import opened CatalogRecords
  import opened CatalogReplay
  import opened CatalogRepair
  import opened CatalogRepairLaws
  import opened Lines
  import opened Utf8
  import opened TextFiles

  type Digest = Bytes

  datatype RepairError =
    | Unreadable
    | Absent
    | Changed
    | Refused(refusal: RepairRefusal)
    | NothingToRepair
    | Unrepairable
    | CopyFailed
    | WriteFailed

  // Why a guarded read stops before the file: nothing at `.omnifrons`, or
  // something there, or at the name, that will not be read.
  datatype ReadFault = NothingThere | NotReadable

  function ReadError(fault: ReadFault): RepairError {
    if fault.NothingThere? then Absent else RepairError.Unreadable
  }

  datatype DroppedLine = DroppedLine(line: nat, rule: RepairRule, publication: Option<Identity>)

  datatype RefusedLine = RefusedLine(line: nat, refusal: RepairRefusal)

  datatype RepairPlan = RepairPlan(sha256: Digest, drops: seq<DroppedLine>,
                                   refusals: seq<RefusedLine>, keptRecords: nat)

  datatype RepairOutcome = RepairOutcome(originalSha256: Digest, sha256: Digest,
                                         droppedLines: nat, keptRecords: nat)

  // What can go wrong during one repair, and what someone else's writes leave
  // at the catalog's name: just before the last re-read, and after it.
  datatype Interference = Interference(
    firstRead: Option<ReadFault>,
    copyCannotOpen: bool,
    copyTorn: Option<nat>,
    secondGuard: Option<ReadFault>,
    stageCannotOpen: bool,
    stageFails: bool,
    arrivedBefore: Option<Option<Bytes>>,
    rereadFails: bool,
    arrivedLate: Option<Option<Bytes>>,
    renameFails: bool)

  // The bytes one entry is appended as.
  function LineBytes(c: Codec, entry: LogEntry): Bytes {
    Encode(c.render(entry)) + [LF]
  }

  function Contents(file: Option<Bytes>): Bytes {
    if file.Some? then file.value else []
  }

  function Appended(file: Option<Bytes>, line: Bytes): Option<Bytes> {
    Some(Contents(file) + line)
  }

  function RecordEntry(c: Codec, record: CatalogRecord): LogEntry {
    Record(SCHEMA_VERSION, ToDto(c, record))
  }

  function AliasEntry(c: Codec, id: Identity, name: Text, secs: nat, nanos: nat): LogEntry {
    Alias(SCHEMA_VERSION, c.toHex(id), name, secs, nanos)
  }

  // The entry a `register` appends, or why it appends nothing.
  function RegisterDecision(c: Codec, file: Option<Bytes>, record: CatalogRecord): Result<LogEntry, StoreError> {
    match ReplayFile(c, file)
    case Err(e) => Err(e)
    case Ok(records) =>
      if Registered(records, record.publicationId) then Err(Duplicate) else Ok(RecordEntry(c, record))
  }

  // The entry an `add_alias` appends; Ok(None) when the name is already there.
  function AliasDecision(c: Codec, file: Option<Bytes>, id: Identity, name: Text, secs: nat, nanos: nat)
    : Result<Option<LogEntry>, StoreError>
  {
    match ReplayFile(c, file)
    case Err(e) => Err(e)
    case Ok(records) =>
      if !Registered(records, id) then Err(Unknown)
      else if name in records[IndexById(records, id)].names then Ok(None)
      else Ok(Some(AliasEntry(c, id, name, secs, nanos)))
  }

  function PlanDrops(classified: seq<ClassifiedLine>): seq<DroppedLine> {
    if classified == [] then []
    else
      var front, (_, line, decision) := PlanDrops(classified[..|classified| - 1]), classified[|classified| - 1];
      if decision.Drop? then front + [DroppedLine(line, decision.rule, decision.publication)] else front
  }

  function PlanRefusals(classified: seq<ClassifiedLine>): seq<RefusedLine> {
    if classified == [] then []
    else
      var front, (_, line, decision) := PlanRefusals(classified[..|classified| - 1]), classified[|classified| - 1];
      if decision.Refuse? then front + [RefusedLine(line, decision.refusal)] else front
  }

  function Classified(c: Codec, bytes: Bytes): seq<ClassifiedLine> {
    var raws, decisions := FileLines(bytes), Decisions(c, bytes);
    seq(|raws|, i requires 0 <= i < |raws| => (raws[i], LineNumber(i), decisions[i]))
  }

  function PlanOf(c: Codec, bytes: Bytes, sha256: Digest): RepairPlan {
    RepairPlan(sha256, PlanDrops(Classified(c, bytes)), PlanRefusals(Classified(c, bytes)),
               |RegisteredIds(c, bytes)|)
  }

  // `plan_for`
  method PlanFor(c: Codec, bytes: Bytes, sha256: Digest) returns (plan: RepairPlan)
    ensures plan == PlanOf(c, bytes, sha256)
  {
    hide JudgeAll, SplitInclusive;
    var classified, kept := Classify(c, bytes);
    assert classified == Classified(c, bytes);
    var drops, refusals := [], [];
    var i := 0;
    while i < |classified|
      invariant 0 <= i <= |classified|
      invariant drops == PlanDrops(classified[..i]) && refusals == PlanRefusals(classified[..i])
    {
      assert classified[..i + 1][..i] == classified[..i];
      var (_, line, decision) := classified[i];
      match decision {
        case Keep =>
        case Drop(rule, publication) =>
          drops := drops + [DroppedLine(line, rule, publication)];
        case Refuse(refusal) =>
          refusals := refusals + [RefusedLine(line, refusal)];
      }
      i := i + 1;
    }
    assert classified[..|classified|] == classified;
    return RepairPlan(sha256, drops, refusals, kept);
  }

  lemma {:induction false} PlanIsEmptyIff(classified: seq<ClassifiedLine>)
    ensures PlanRefusals(classified) == [] <==> forall i :: 0 <= i < |classified| ==> !classified[i].2.Refuse?
    ensures PlanDrops(classified) == [] <==> forall i :: 0 <= i < |classified| ==> !classified[i].2.Drop?
  {
    if classified != [] {
      PlanIsEmptyIff(classified[..|classified| - 1]);
    }
  }

  // A plan asks for nothing exactly when the catalog already reads.
  lemma NothingToDoIffReads(c: Codec, bytes: Bytes, sha256: Digest)
    requires Lawful(c)
    ensures PlanOf(c, bytes, sha256).drops == [] && PlanOf(c, bytes, sha256).refusals == [] <==> Reads(c, bytes)
  {
    var classified := Classified(c, bytes);
    PlanIsEmptyIff(classified);
    ReadsIffAllKept(c, bytes);
    var decisions := Decisions(c, bytes);
    assert forall i :: 0 <= i < |decisions| ==> classified[i].2 == decisions[i];
  }

  class JsonlCatalogStore {
    const codec: Codec
    const sha: Bytes -> Digest
    // `catalog.jsonl`, its `.part` siblings and the work area's copies.
    var file: Option<Bytes>
    var parts: map<nat, Bytes>
    var recovery: map<int, Bytes>
    var sequence: nat

    constructor (codec: Codec, sha: Bytes -> Digest)
      ensures this.codec == codec && this.sha == sha
      ensures file == None && parts == map[] && recovery == map[]
    {
      this.codec, this.sha := codec, sha;
      file, parts, recovery, sequence := None, map[], map[], 0;
    }

    method AppendLine(entry: LogEntry, fault: AppendFault) returns (r: Result<(), StoreError>)
      modifies this`file
      ensures match fault
              case NoFault => r == Ok(()) && file == Appended(old(file), LineBytes(codec, entry))
              case CannotOpen => r == Err(StoreError.WriteFailed) && file == old(file)
              case Torn(n) =>
                r == Err(StoreError.WriteFailed) && file == Appended(old(file), Prefix(LineBytes(codec, entry), n))
    {
      if fault.CannotOpen? {
        return Err(StoreError.WriteFailed);
      }
      var line := Encode(codec.render(entry)) + [LF];
      if fault.Torn? {
        file := Some(Contents(file) + Prefix(line, fault.written));
        return Err(StoreError.WriteFailed);
      }
      file := Some(Contents(file) + line);
      return Ok(());
    }

    method Replay() returns (r: Result<Catalog, StoreError>)
      ensures r == ReplayFile(codec, file)
    {
      if file.None? {
        return Ok([]);
      }
      var text := Decode(file.value);
      if text.None? {
        return Err(StoreError.Unreadable);
      }
      r := ReplayStr(codec, text.value);
    }

    method Register(record: CatalogRecord, fault: AppendFault) returns (r: Result<(), StoreError>)
      modifies this`file
      ensures match RegisterDecision(codec, old(file), record)
              case Err(e) => r == Err(e) && file == old(file)
              case Ok(entry) =>
                match fault
                case NoFault => r == Ok(()) && file == Appended(old(file), LineBytes(codec, entry))
                case CannotOpen => r == Err(StoreError.WriteFailed) && file == old(file)
                case Torn(n) => r == Err(StoreError.WriteFailed)
                                && file == Appended(old(file), Prefix(LineBytes(codec, entry), n))
    {
      var records := Replay();
      if records.Err? {
        return Err(records.error);
      }
      if Registered(records.value, record.publicationId) {
        return Err(Duplicate);
      }
      r := AppendLine(RecordEntry(codec, record), fault);
    }

    method AddAlias(id: Identity, name: Text, secs: nat, nanos: nat, fault: AppendFault)
      returns (r: Result<(), StoreError>)
      modifies this`file
      ensures match AliasDecision(codec, old(file), id, name, secs, nanos)
              case Err(e) => r == Err(e) && file == old(file)
              case Ok(None) => r == Ok(()) && file == old(file)
              case Ok(Some(entry)) =>
                match fault
                case NoFault => r == Ok(()) && file == Appended(old(file), LineBytes(codec, entry))
                case CannotOpen => r == Err(StoreError.WriteFailed) && file == old(file)
                case Torn(n) => r == Err(StoreError.WriteFailed)
                                && file == Appended(old(file), Prefix(LineBytes(codec, entry), n))
    {
      var records := Replay();
      if records.Err? {
        return Err(records.error);
      }
      var at := IndexById(records.value, id);
      if at == |records.value| {
        return Err(Unknown);
      }
      if name in records.value[at].names {
        return Ok(());
      }
      r := AppendLine(AliasEntry(codec, id, name, secs, nanos), fault);
    }

    // `read_for_repair`: the guard and the open fail as `blocked` says.
    method ReadForRepair(blocked: Option<ReadFault>) returns (r: Result<Bytes, RepairError>)
      ensures r == if blocked.Some? then Err(ReadError(blocked.value))
                   else if file.None? then Err(Absent) else Ok(file.value)
    {
      if blocked.Some? {
        return Err(ReadError(blocked.value));
      }
      if file.None? {
        return Err(Absent);
      }
      return Ok(file.value);
    }

    method Preview(blocked: Option<ReadFault>) returns (r: Result<RepairPlan, RepairError>)
      ensures blocked.None? && file.Some? ==> r == Ok(PlanOf(codec, file.value, sha(file.value)))
      ensures blocked == Some(NotReadable) ==> r == Err(RepairError.Unreadable)
      ensures blocked == Some(NothingThere) || (blocked.None? && file.None?) ==> r == Err(Absent)
    {
      var bytes := ReadForRepair(blocked);
      if bytes.Err? {
        return Err(bytes.error);
      }
      var plan := PlanFor(codec, bytes.value, sha(bytes.value));
      return Ok(plan);
    }

    // `write_repair_copy`: a copy whose own write fails stays where it is.
    method WriteRepairCopy(bytes: Bytes, at: int, i: Interference) returns (r: Result<int, RepairError>)
      modifies this`recovery
      ensures r.Ok? <==> Copies(old(recovery), at, i)
      ensures r.Ok? ==> r == Ok(at) && recovery == old(recovery)[at := bytes]
      ensures r.Err? ==> r == Err(CopyFailed)
      ensures r.Err? ==> recovery == if LeavesPartialCopy(old(recovery), at, i)
                                     then old(recovery)[at := Prefix(bytes, i.copyTorn.value)]
                                     else old(recovery)
    {
      if at < 0 || i.copyCannotOpen || at in recovery {
        return Err(CopyFailed);
      }
      if i.copyTorn.Some? {
        recovery := recovery[at := Prefix(bytes, i.copyTorn.value)];
        return Err(CopyFailed);
      }
      recovery := recovery[at := bytes];
      return Ok(at);
    }

    // `replace_bytes`
    method ReplaceBytes(expected: Bytes, repaired: Bytes, i: Interference) returns (r: Result<(), RepairError>)
      modifies this`file, this`parts, this`sequence
      ensures parts == old(parts) && sequence >= old(sequence)
      // It goes through exactly when nothing stops it and the bytes it expects
      // are still there at the last look.
      ensures r.Ok? <==> Staged(old(parts), old(sequence), i) && Unmoved(old(file), expected, i) && !i.renameFails
      ensures r.Ok? ==> file == Some(repaired)
      ensures r.Err? ==> NotOurs(old(file), i, file)
      ensures i.secondGuard.Some? ==> r == Err(ReadError(i.secondGuard.value))
      ensures i.secondGuard.None? ==>
                (r == Err(Changed) <==> Staged(old(parts), old(sequence), i) && !Unmoved(old(file), expected, i))
      ensures i.secondGuard.None? && r.Err? ==> r.error in {Changed, RepairError.WriteFailed}
    {
      if i.secondGuard.Some? {
        return Err(ReadError(i.secondGuard.value));
      }
      var temp := sequence;
      sequence := sequence + 1;
      if i.stageCannotOpen || temp in parts {
        return Err(RepairError.WriteFailed);
      }
      parts := parts[temp := repaired];
      if i.stageFails {
        parts := parts - {temp};
        return Err(RepairError.WriteFailed);
      }
      if i.arrivedBefore.Some? {
        file := i.arrivedBefore.value;
      }
      if i.rereadFails || file != Some(expected) {
        parts := parts - {temp};
        return Err(Changed);
      }
      if i.arrivedLate.Some? {
        file := i.arrivedLate.value;
      }
      if i.renameFails {
        parts := parts - {temp};
        return Err(RepairError.WriteFailed);
      }
      file := Some(parts[temp]);
      parts := parts - {temp};
      return Ok(());
    }

    // The half of `repair` that writes nothing: the one read, the plan and
    // the guard. What it returns are the bytes to put in their place.
    method PrepareRepair(expected: Digest, blocked: Option<ReadFault>)
      returns (r: Result<(Bytes, Bytes, RepairPlan), RepairError>)
      ensures r.Ok? <==> blocked.None? && Applies(codec, sha, file, expected)
      ensures r.Ok? ==>
                && file == Some(r.value.0)
                && r.value.1 == Repaired(codec, r.value.0)
                && r.value.2 == PlanOf(codec, r.value.0, expected)
      ensures Lawful(codec) && r.Ok? ==> Reads(codec, r.value.1)
      ensures Lawful(codec) ==> r != Err(Unrepairable)
      ensures r != Err(CopyFailed)
      ensures blocked.Some? ==> r == Err(ReadError(blocked.value))
      ensures blocked.None? && file.None? ==> r == Err(Absent)
      ensures blocked.None? && file.Some? && sha(file.value) != expected ==> r == Err(Changed)
      ensures blocked.None? && file.Some? && sha(file.value) == expected ==>
                var plan := PlanOf(codec, file.value, expected);
                if plan.refusals != [] then r == Err(Refused(plan.refusals[0].refusal))
                else (plan.drops == [] ==> r == Err(NothingToRepair))
    {
      var read := ReadForRepair(blocked);
      if read.Err? {
        return Err(read.error);
      }
      var bytes := read.value;
      if sha(bytes) != expected {
        return Err(Changed);
      }
      var plan := PlanFor(codec, bytes, expected);
      if plan.refusals != [] {
        return Err(Refused(plan.refusals[0].refusal));
      }
      if plan.drops == [] {
        return Err(NothingToRepair);
      }
      var repaired := KeptBytes(codec, bytes);
      if Lawful(codec) {
        RepairedReads(codec, bytes);
      }
      var text := Decode(repaired);
      if text.None? {
        return Err(Unrepairable);
      }
      var readable := ReplayStr(codec, text.value);
      if readable.Err? {
        return Err(Unrepairable);
      }
      return Ok((bytes, repaired, plan));
    }

    method Repair(expected: Digest, at: int, i: Interference) returns (r: Result<RepairOutcome, RepairError>)
      modifies this
      ensures parts == old(parts) && sequence >= old(sequence)
      // One that fails leaves the catalog to whoever else wrote it, and no
      // copy but the torn one.
      ensures r.Err? ==> NotOurs(old(file), i, file)
      ensures r.Err? ==> (recovery == old(recovery) ||
                          (r == Err(CopyFailed) && LeavesPartialCopy(old(recovery), at, i)
                           && old(file).Some?
                           && recovery == old(recovery)[at := Prefix(old(file).value, i.copyTorn.value)]))
      ensures r == Err(CopyFailed) && LeavesPartialCopy(old(recovery), at, i) ==> recovery != old(recovery)
      // It succeeds exactly when the plan of the bytes it was bound to drops lines
      // and refuses none, the copy is written whole and the rewrite goes through.
      ensures r.Ok? <==>
                && i.firstRead.None? && Applies(codec, sha, old(file), expected)
                && Copies(old(recovery), at, i)
                && Staged(old(parts), old(sequence), i) && Unmoved(old(file), old(file).value, i) && !i.renameFails
      ensures i.firstRead.Some? || !Applies(codec, sha, old(file), expected) ==>
                file == old(file) && recovery == old(recovery)
      // It then keeps those bytes exactly and leaves the kept lines.
      ensures r.Ok? ==>
                && file == Some(Repaired(codec, old(file).value))
                && recovery == old(recovery)[at := old(file).value]
                && r.value == RepairOutcome(expected, sha(file.value),
                                            |PlanOf(codec, old(file).value, expected).drops|,
                                            |RegisteredIds(codec, old(file).value)|)
      // The order of the refusals: a missing work area is an absent catalog.
      ensures i.firstRead == Some(NothingThere) ==> r == Err(Absent)
      ensures i.firstRead == Some(NotReadable) ==> r == Err(RepairError.Unreadable)
      ensures i.firstRead.None? && old(file).None? ==> r == Err(Absent)
      ensures i.firstRead.None? && old(file).Some? && sha(old(file).value) != expected ==> r == Err(Changed)
      ensures i.firstRead.None? && old(file).Some? && sha(old(file).value) == expected ==>
                var plan := PlanOf(codec, old(file).value, expected);
                if plan.refusals != [] then r == Err(Refused(plan.refusals[0].refusal))
                else (plan.drops == [] ==> r == Err(NothingToRepair))
      // The guard against a reader and rules that drifted apart never fires.
      ensures Lawful(codec) ==> r != Err(Unrepairable)
      ensures Lawful(codec) && r.Ok? ==> Reads(codec, file.value)
    {
      var prepared := PrepareRepair(expected, i.firstRead);
      if prepared.Err? {
        return Err(prepared.error);
      }
      var (bytes, repaired, plan) := prepared.value;
      var copy := WriteRepairCopy(bytes, at, i);
      if copy.Err? {
        return Err(copy.error);
      }
      var replaced := ReplaceBytes(bytes, repaired, i);
      if replaced.Err? {
        recovery := recovery - {copy.value};
        return Err(replaced.error);
      }
      return Ok(RepairOutcome(expected, sha(repaired), |plan.drops|, plan.keptRecords));
    }
  }

  // The catalog after someone else's write, if there was one.
  function Arrived(file: Option<Bytes>, arrived: Option<Option<Bytes>>): Option<Bytes> {
    if arrived.Some? then arrived.value else file
  }

  // The catalog holds what it held or what someone else put there.
  predicate NotOurs(before: Option<Bytes>, i: Interference, now: Option<Bytes>) {
    now == before || i.arrivedBefore == Some(now) || i.arrivedLate == Some(now)
  }

  // There is something to repair in the bytes asked about, and nothing refuses it.
  predicate Applies(c: Codec, sha: Bytes -> Digest, file: Option<Bytes>, expected: Digest) {
    && file.Some? && sha(file.value) == expected
    && PlanOf(c, file.value, expected).refusals == [] && PlanOf(c, file.value, expected).drops != []
    && Reads(c, Repaired(c, file.value))
  }

  // The copy is created under a name of its own, and written whole.
  predicate Copies(recovery: map<int, Bytes>, at: int, i: Interference) {
    at >= 0 && !i.copyCannotOpen && at !in recovery && i.copyTorn.None?
  }

  // The new bytes reach their temporary sibling.
  predicate Staged(parts: map<nat, Bytes>, sequence: nat, i: Interference) {
    i.secondGuard.None? && !i.stageCannotOpen && sequence !in parts && !i.stageFails
  }

  // The last look finds the bytes the repair was planned from.
  predicate Unmoved(file: Option<Bytes>, expected: Bytes, i: Interference) {
    !i.rereadFails && Arrived(file, i.arrivedBefore) == Some(expected)
  }

  // The copy was created and its own write then failed.
  predicate LeavesPartialCopy(recovery: map<int, Bytes>, at: int, i: Interference) {
    at >= 0 && !i.copyCannotOpen && at !in recovery && i.copyTorn.Some?
  }
}
