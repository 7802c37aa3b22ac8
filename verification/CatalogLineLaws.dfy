// What the repair decides about each line, read off the line itself and the lines
// before it.
module CatalogLineLaws {
  import opened Basics
  import opened CatalogRecords
  import opened CatalogReplay
  import opened CatalogRepair
  import opened CatalogRuns
  import opened CatalogStore
  import opened Lines
  import opened TextFiles
  import opened Utf8
  import CatalogRepairLaws

  // ---- What one line says ---------------------------------------------------------

  predicate IsBlankLine(raw: Bytes) {
    Decode(raw).Some? && Blank(Chomp(Decode(raw).value))
  }

  // The entry of schema 1 on the line, if it is one.
  function EntryOn(c: Codec, raw: Bytes): Option<LogEntry> {
    if Decode(raw).None? || IsBlankLine(raw) then None
    else
      var entry := c.parse(Chomp(Decode(raw).value));
      if entry.Some? && entry.value.schema == 1 then entry else None
  }

  function RecordOn(c: Codec, raw: Bytes): Option<RecordDto> {
    var entry := EntryOn(c, raw);
    if entry.Some? && entry.value.Record? then Some(entry.value.dto) else None
  }

  // The catalog id of a record that converts.
  function IdOn(c: Codec, raw: Bytes): Option<CatalogId> {
    var dto := RecordOn(c, raw);
    if dto.Some? && FromDto(c, dto.value).Some? then Some(FromDto(c, dto.value).value.catalogId) else None
  }

  predicate IsAlias(c: Codec, raw: Bytes) {
    EntryOn(c, raw).Some? && EntryOn(c, raw).value.Alias?
  }

  // The publication an alias is for, if it decodes.
  function AliasOf(c: Codec, raw: Bytes): Option<Identity>
    requires IsAlias(c, raw)
  {
    c.fromHex(EntryOn(c, raw).value.publicationId)
  }

  // A record that does not convert, and whose catalog id, as written, is not its
  // asset root and its publication id.
  predicate IsMismatched(c: Codec, raw: Bytes) {
    var dto := RecordOn(c, raw);
    && dto.Some? && FromDto(c, dto.value).None?
    && dto.value.catalogId != dto.value.assetRootId + [47] + dto.value.publicationId
  }

  // ---- What the lines before it say -----------------------------------------------

  // The first of the lines that registers `publication`, or how many there are.
  function FirstFor(c: Codec, raws: seq<Bytes>, publication: Identity): (k: nat)
    ensures k <= |raws|
    ensures k < |raws| ==> IdOn(c, raws[k]).Some? && IdOn(c, raws[k]).value.publication == publication
    ensures forall j :: 0 <= j < k ==> IdOn(c, raws[j]).None? || IdOn(c, raws[j]).value.publication != publication
  {
    if raws == [] then 0
    else if IdOn(c, raws[0]).Some? && IdOn(c, raws[0]).value.publication == publication then 0
    else 1 + FirstFor(c, raws[1..], publication)
  }

  // The catalog id `publication` is first registered under, if it is.
  function Registration(c: Codec, raws: seq<Bytes>, publication: Identity): Option<CatalogId> {
    var k := FirstFor(c, raws, publication);
    if k < |raws| then IdOn(c, raws[k]) else None
  }

  // ---- The rule ------------------------------------------------------------------

  predicate KeepsLine(c: Codec, before: seq<Bytes>, raw: Bytes) {
    || IsBlankLine(raw)
    || (IdOn(c, raw).Some? && Registration(c, before, IdOn(c, raw).value.publication).None?)
    || (IsAlias(c, raw) && AliasOf(c, raw).Some? && Registration(c, before, AliasOf(c, raw).value).Some?)
  }

  predicate RepeatsLine(c: Codec, before: seq<Bytes>, raw: Bytes) {
    IdOn(c, raw).Some? && Registration(c, before, IdOn(c, raw).value.publication) == IdOn(c, raw)
  }

  predicate CrossesRoots(c: Codec, before: seq<Bytes>, raw: Bytes) {
    && IdOn(c, raw).Some?
    && Registration(c, before, IdOn(c, raw).value.publication).Some?
    && Registration(c, before, IdOn(c, raw).value.publication) != IdOn(c, raw)
  }

  predicate Dangles(c: Codec, before: seq<Bytes>, raw: Bytes) {
    IsAlias(c, raw) && (AliasOf(c, raw).None? || Registration(c, before, AliasOf(c, raw).value).None?)
  }

  // Not text, no entry of schema 1, or a record that does not convert though its
  // ids agree.
  predicate IsUnparsable(c: Codec, raw: Bytes) {
    !IsBlankLine(raw) && !IsAlias(c, raw) && IdOn(c, raw).None? && !IsMismatched(c, raw)
  }

  // What is seen once these lines are judged: what they register, by publication.
  ghost predicate SeenIs(c: Codec, raws: seq<Bytes>, seen: seq<CatalogId>) {
    && (forall p :: SeenPublication(seen, p) <==> Registration(c, raws, p).Some?)
    && (forall id :: id in seen <==> Registration(c, raws, id.publication) == Some(id))
  }

  lemma {:induction false} FirstForNext(c: Codec, raws: seq<Bytes>, raw: Bytes, p: Identity)
    ensures Registration(c, raws + [raw], p) ==
            if Registration(c, raws, p).Some? then Registration(c, raws, p)
            else if IdOn(c, raw).Some? && IdOn(c, raw).value.publication == p then IdOn(c, raw)
            else None
  {
    var all, k := raws + [raw], FirstFor(c, raws + [raw], p);
    var j := FirstFor(c, raws, p);
    assert forall i :: 0 <= i < |raws| ==> all[i] == raws[i];
    assert all[|raws|] == raw;
    if j < |raws| {
      assert k == j by {
        assert all[j] == raws[j];
        assert k <= j;
        assert forall i :: 0 <= i < j ==> all[i] == raws[i];
      }
    }
  }

  // Each decision, exactly.
  predicate ByTheRule(c: Codec, before: seq<Bytes>, raw: Bytes, d: LineDecision) {
    && (d.Keep? <==> KeepsLine(c, before, raw))
    && (d.Drop? && d.rule == DuplicateRecord <==> RepeatsLine(c, before, raw))
    && (RepeatsLine(c, before, raw) ==> d == Drop(DuplicateRecord, Some(IdOn(c, raw).value.publication)))
    && (d.Drop? && d.rule == DanglingAlias <==> Dangles(c, before, raw))
    && (Dangles(c, before, raw) ==> d == Drop(DanglingAlias, AliasOf(c, raw)))
    && (d == Refuse(DuplicateAcrossAssetRoots) <==> CrossesRoots(c, before, raw))
    && (d == Refuse(CatalogIdMismatch) <==> IsMismatched(c, raw))
    && (d == Refuse(Unparsable) <==> IsUnparsable(c, raw))
  }

  // The classifier's text and the reader's parse to the same entry.
  lemma TrimmedSays(c: Codec, raw: Bytes)
    requires Lawful(c) && IsLine(raw, LF)
    ensures Decode(Trim(raw)).Some? <==> Decode(raw).Some?
    ensures Decode(raw).Some? ==>
              && (Blank(Decode(Trim(raw)).value) <==> IsBlankLine(raw))
              && c.parse(Decode(Trim(raw)).value) == c.parse(Chomp(Decode(raw).value))
  {
    TrimIsChomp(raw);
    if Decode(raw).Some? {
      var text, trimmed := Chomp(Decode(raw).value), Decode(Trim(raw)).value;
      assert IgnoresReturn(c, trimmed);
      BlankReturn(trimmed);
    }
  }

  lemma BlankReturn(text: Text)
    ensures Blank(text + [RETURN]) <==> Blank(text)
  {
    if Blank(text + [RETURN]) {
      assert forall i :: 0 <= i < |text| ==> text[i] == (text + [RETURN])[i];
    }
  }

  lemma RecordByTheRule(c: Codec, before: seq<Bytes>, raw: Bytes, seen: seq<CatalogId>)
    requires Lawful(c) && IsLine(raw, LF) && SeenIs(c, before, seen) && RecordOn(c, raw).Some?
    ensures ByTheRule(c, before, raw, Judge(c, raw, seen).0)
    ensures Judge(c, raw, seen).1 == if KeepsLine(c, before, raw) then seen + [IdOn(c, raw).value] else seen
  {
    hide Decode, Chomp, Trim, Registration, Blank, Lawful, SeenPublication, FromDto;
    TrimmedSays(c, raw);
  }

  lemma AliasByTheRule(c: Codec, before: seq<Bytes>, raw: Bytes, seen: seq<CatalogId>)
    requires Lawful(c) && IsLine(raw, LF) && SeenIs(c, before, seen) && IsAlias(c, raw)
    ensures ByTheRule(c, before, raw, Judge(c, raw, seen).0) && Judge(c, raw, seen).1 == seen
  {
    hide Decode, Chomp, Trim, Registration, Blank, Lawful, SeenPublication, FromDto;
    TrimmedSays(c, raw);
  }

  lemma OtherByTheRule(c: Codec, before: seq<Bytes>, raw: Bytes, seen: seq<CatalogId>)
    requires Lawful(c) && IsLine(raw, LF) && RecordOn(c, raw).None? && !IsAlias(c, raw)
    ensures ByTheRule(c, before, raw, Judge(c, raw, seen).0) && Judge(c, raw, seen).1 == seen
  {
    hide Decode, Chomp, Trim, Registration, Blank, Lawful, SeenPublication, FromDto;
    TrimmedSays(c, raw);
  }

  // One line, judged after others, is decided by the rule.
  lemma LineByTheRule(c: Codec, before: seq<Bytes>, raw: Bytes, seen: seq<CatalogId>)
    requires Lawful(c) && IsLine(raw, LF) && SeenIs(c, before, seen)
    ensures ByTheRule(c, before, raw, Judge(c, raw, seen).0)
    ensures SeenIs(c, before + [raw], Judge(c, raw, seen).1)
  {
    hide ByTheRule, Judge, SeenIs;
    if RecordOn(c, raw).Some? {
      RecordByTheRule(c, before, raw, seen);
    } else if IsAlias(c, raw) {
      AliasByTheRule(c, before, raw, seen);
    } else {
      OtherByTheRule(c, before, raw, seen);
    }
    SeenNext(c, before, raw, seen);
  }

  // What is seen next.
  lemma SeenNext(c: Codec, before: seq<Bytes>, raw: Bytes, seen: seq<CatalogId>)
    requires SeenIs(c, before, seen)
    ensures SeenIs(c, before + [raw],
                   if IdOn(c, raw).Some? && Registration(c, before, IdOn(c, raw).value.publication).None?
                   then seen + [IdOn(c, raw).value] else seen)
  {
    hide IdOn, Registration, SeenPublication;
    var id := IdOn(c, raw);
    var now := if id.Some? && Registration(c, before, id.value.publication).None? then seen + [id.value] else seen;
    if id.Some? {
      SeenPublicationNext(seen, id.value);
    }
    forall p
      ensures SeenPublication(now, p) <==> Registration(c, before + [raw], p).Some?
    {
      FirstForNext(c, before, raw, p);
    }
    forall x
      ensures x in now <==> Registration(c, before + [raw], x.publication) == Some(x)
    {
      FirstForNext(c, before, raw, x.publication);
    }
  }

  lemma SeenPublicationNext(seen: seq<CatalogId>, id: CatalogId)
    ensures forall p :: SeenPublication(seen + [id], p) <==> SeenPublication(seen, p) || id.publication == p
  {
    forall p
      ensures SeenPublication(seen + [id], p) <==> SeenPublication(seen, p) || id.publication == p
    {
      var now := seen + [id];
      assert now[|seen|] == id;
      assert forall i :: 0 <= i < |seen| ==> now[i] == seen[i];
    }
  }

  // Over any file, every line is decided by the rule, from the lines before it.
  lemma {:induction false} LinesByTheRule(c: Codec, before: seq<Bytes>, raws: seq<Bytes>, seen: seq<CatalogId>, i: nat)
    requires Lawful(c) && AreLines(raws, LF) && SeenIs(c, before, seen) && i < |raws|
    ensures ByTheRule(c, before + raws[..i], raws[i], JudgeAll(c, raws, seen).0[i])
    decreases |raws|
  {
    hide ByTheRule, Judge, SeenIs, Lawful;
    LineByTheRule(c, before, raws[0], seen);
    if i == 0 {
      assert before + raws[..0] == before;
    } else {
      LinesByTheRule(c, before + [raws[0]], raws[1..], Judge(c, raws[0], seen).1, i - 1);
      assert before + [raws[0]] + raws[1..][..i - 1] == before + raws[..i];
    }
  }

  lemma NothingSeen(c: Codec)
    ensures SeenIs(c, [], [])
  {
  }

  // The decision about each line of a file, exactly: kept when blank, when it is the
  // first to register its publication, or an alias of one registered before it;
  // dropped when it repeats the registration or its alias leads nowhere; refused
  // when it registers the publication under another asset root, when its own ids
  // disagree, and otherwise.
  lemma FileByTheRule(c: Codec, bytes: Bytes, i: nat)
    requires Lawful(c) && i < |FileLines(bytes)|
    ensures ByTheRule(c, FileLines(bytes)[..i], FileLines(bytes)[i], Decisions(c, bytes)[i])
  {
    hide ByTheRule, Lawful, SeenIs;
    SplitIsLines(bytes, LF);
    NothingSeen(c);
    LinesByTheRule(c, [], FileLines(bytes), [], i);
    assert [] + FileLines(bytes)[..i] == FileLines(bytes)[..i];
  }

  // ---- The plan and the repair ----------------------------------------------------

  // One-based, in 32 bits.
  predicate IsNumberOf(line: nat, i: nat) {
    line == if i + 1 <= 0xFFFF_FFFF then i + 1 else 0xFFFF_FFFF
  }

  ghost predicate ListsDrops(classified: seq<ClassifiedLine>, drops: seq<DroppedLine>) {
    && (forall x :: x in drops <==>
          exists i :: 0 <= i < |classified| && classified[i].2 == Drop(x.rule, x.publication)
                      && classified[i].1 == x.line)
    && |drops| == |set i | 0 <= i < |classified| && classified[i].2.Drop?|
  }

  ghost predicate ListsRefusals(classified: seq<ClassifiedLine>, refusals: seq<RefusedLine>) {
    && (forall x :: x in refusals <==>
          exists i :: 0 <= i < |classified| && classified[i].2 == Refuse(x.refusal) && classified[i].1 == x.line)
    && |refusals| == |set i | 0 <= i < |classified| && classified[i].2.Refuse?|
  }

  ghost predicate FirstIsFirst(classified: seq<ClassifiedLine>, refusals: seq<RefusedLine>) {
    refusals != [] ==>
      exists i :: 0 <= i < |classified| && classified[i].2 == Refuse(refusals[0].refusal)
                  && classified[i].1 == refusals[0].line
                  && forall k :: 0 <= k < i ==> !classified[k].2.Refuse?
  }

  lemma {:induction false} PlanDropsLists(classified: seq<ClassifiedLine>)
    ensures ListsDrops(classified, PlanDrops(classified))
  {
    if classified != [] {
      var n := |classified| - 1;
      var front, last := classified[..n], classified[n];
      PlanDropsLists(front);
      var some := set i | 0 <= i < n && front[i].2.Drop?;
      assert (set i | 0 <= i < |classified| && classified[i].2.Drop?) == if last.2.Drop? then some + {n} else some;
      forall x
        ensures x in PlanDrops(classified) <==>
                exists i :: 0 <= i < |classified| && classified[i].2 == Drop(x.rule, x.publication)
                            && classified[i].1 == x.line
      {
        if i :| 0 <= i < n && front[i].2 == Drop(x.rule, x.publication) && front[i].1 == x.line {
          assert classified[i] == front[i];
        }
      }
    }
  }

  lemma {:induction false} PlanRefusalsLists(classified: seq<ClassifiedLine>)
    ensures ListsRefusals(classified, PlanRefusals(classified))
  {
    if classified != [] {
      var n := |classified| - 1;
      var front, last := classified[..n], classified[n];
      PlanRefusalsLists(front);
      var some := set i | 0 <= i < n && front[i].2.Refuse?;
      assert (set i | 0 <= i < |classified| && classified[i].2.Refuse?) == if last.2.Refuse? then some + {n} else some;
      forall x
        ensures x in PlanRefusals(classified) <==>
                exists i :: 0 <= i < |classified| && classified[i].2 == Refuse(x.refusal) && classified[i].1 == x.line
      {
        if i :| 0 <= i < n && front[i].2 == Refuse(x.refusal) && front[i].1 == x.line {
          assert classified[i] == front[i];
        }
      }
    }
  }

  lemma {:induction false} PlanRefusalsFirst(classified: seq<ClassifiedLine>)
    ensures FirstIsFirst(classified, PlanRefusals(classified))
  {
    if classified != [] {
      var n := |classified| - 1;
      var front := classified[..n];
      PlanRefusalsFirst(front);
      assert forall k :: 0 <= k < n ==> classified[k] == front[k];
      if PlanRefusals(front) == [] {
        PlanIsEmptyIff(front);
      } else {
        var x := PlanRefusals(front)[0];
        var i :| 0 <= i < n && front[i].2 == Refuse(x.refusal) && front[i].1 == x.line
                 && forall k :: 0 <= k < i ==> !front[k].2.Refuse?;
        assert classified[i] == front[i];
      }
    }
  }

  // A plan lists each dropped and each refused line once, by its number, with what
  // was decided about it, the first refusal first; the records it counts are those of
  // the catalog a repair would leave.
  lemma PlanLists(c: Codec, bytes: Bytes, sha256: Digest)
    requires Lawful(c)
    ensures var plan := PlanOf(c, bytes, sha256);
            && ListsDrops(Classified(c, bytes), plan.drops) && ListsRefusals(Classified(c, bytes), plan.refusals)
            && FirstIsFirst(Classified(c, bytes), plan.refusals)
            && Reads(c, Repaired(c, bytes))
            && plan.keptRecords == |ReplayFile(c, Some(Repaired(c, bytes))).value|
    ensures forall i :: 0 <= i < |FileLines(bytes)| ==>
              && Classified(c, bytes)[i].0 == FileLines(bytes)[i] && Classified(c, bytes)[i].2 == Decisions(c, bytes)[i]
              && IsNumberOf(Classified(c, bytes)[i].1, i)
  {
    hide ListsDrops, ListsRefusals, FirstIsFirst;
    PlanDropsLists(Classified(c, bytes));
    PlanRefusalsFirst(Classified(c, bytes));
    PlanRefusalsLists(Classified(c, bytes));
    CatalogRepairLaws.RepairedReads(c, bytes);
  }

  // A line the repair may not touch.
  predicate StopsRepair(c: Codec, raws: seq<Bytes>, i: nat)
    requires i < |raws|
  {
    IsMismatched(c, raws[i]) || IsUnparsable(c, raws[i]) || CrossesRoots(c, raws[..i], raws[i])
  }

  lemma RefusesIff(c: Codec, before: seq<Bytes>, raw: Bytes, d: LineDecision)
    requires ByTheRule(c, before, raw, d)
    ensures d.Refuse? <==> IsMismatched(c, raw) || IsUnparsable(c, raw) || CrossesRoots(c, before, raw)
  {
    hide IsMismatched, IsUnparsable, CrossesRoots, KeepsLine, RepeatsLine, Dangles;
    match d
    case Keep =>
    case Drop(_, _) =>
    case Refuse(CatalogIdMismatch) =>
    case Refuse(DuplicateAcrossAssetRoots) =>
    case Refuse(Unparsable) =>
  }

  // A repair is refused exactly when the file holds such a line, with what is wrong
  // with the first of them.
  lemma RefusedIff(c: Codec, bytes: Bytes, sha256: Digest)
    requires Lawful(c)
    ensures var refusals, raws := PlanOf(c, bytes, sha256).refusals, FileLines(bytes);
            && (refusals != [] <==> exists i :: 0 <= i < |raws| && StopsRepair(c, raws, i))
            && (refusals != [] ==>
                  exists i :: 0 <= i < |raws| && StopsRepair(c, raws, i)
                              && (forall k :: 0 <= k < i ==> !StopsRepair(c, raws, k))
                              && refusals[0].refusal == if IsMismatched(c, raws[i]) then CatalogIdMismatch
                                                        else if IsUnparsable(c, raws[i]) then Unparsable
                                                        else DuplicateAcrossAssetRoots)
  {
    var raws, classified := FileLines(bytes), Classified(c, bytes);
    hide Lawful, IsMismatched, IsUnparsable, CrossesRoots, KeepsLine, RepeatsLine, Dangles, Decisions;
    PlanIsEmptyIff(classified);
    PlanRefusalsFirst(classified);
    forall i | 0 <= i < |raws|
      ensures classified[i].2.Refuse? <==> StopsRepair(c, raws, i)
      ensures classified[i].2.Refuse? ==> ByTheRule(c, raws[..i], raws[i], classified[i].2)
    {
      FileByTheRule(c, bytes, i);
      RefusesIff(c, raws[..i], raws[i], classified[i].2);
    }
  }

  // So a file with such a line, a record whose own ids disagree among them, is left
  // alone by every repair.
  lemma StoppedRepairChangesNothing(c: Codec, disk: Disk, at: int, i: nat)
    requires Lawful(c) && disk.file.Some?
    requires i < |FileLines(disk.file.value)| && StopsRepair(c, FileLines(disk.file.value), i)
    ensures AfterCall(c, disk, CallRepair(at)) == disk
    ensures forall sha, expected :: !Applies(c, sha, disk.file, expected)
  {
    forall expected
      ensures PlanOf(c, disk.file.value, expected).refusals != []
    {
      RefusedIff(c, disk.file.value, expected);
    }
  }

  // The reader gives up as `Unreadable` exactly on a file that is not text, and as
  // `Corrupt` exactly on one that is, with a line the rule does not keep.
  lemma ReadFailsIff(c: Codec, bytes: Bytes)
    requires Lawful(c)
    ensures ReplayFile(c, Some(bytes)) == Err(StoreError.Unreadable) <==> Decode(bytes).None?
    ensures ReplayFile(c, Some(bytes)) == Err(StoreError.Corrupt) <==>
            && Decode(bytes).Some?
            && exists i :: 0 <= i < |FileLines(bytes)| && !KeepsLine(c, FileLines(bytes)[..i], FileLines(bytes)[i])
  {
    hide Lawful, KeepsLine, RepeatsLine, Dangles, CrossesRoots, IsMismatched, IsUnparsable, FileLines, Decode;
    ReadsIffAllKept(c, bytes);
    forall i | 0 <= i < |FileLines(bytes)|
      ensures Decisions(c, bytes)[i].Keep? <==> KeepsLine(c, FileLines(bytes)[..i], FileLines(bytes)[i])
    {
      FileByTheRule(c, bytes, i);
    }
  }

  // ---- What a call appends ------------------------------------------------------------

  // A registration is a duplicate exactly when a record of its publication is listed;
  // an alias is of an unknown publication exactly when none is, and needs no line
  // exactly when the record listed first already has the name as given. A catalog that
  // does not read takes neither.
  lemma CallsDecided(c: Codec, file: Option<Bytes>, record: CatalogRecord, id: Identity, name: Text,
                     secs: nat, nanos: nat)
    ensures var read := ReplayFile(c, file);
            if read.Err?
            then
              && RegisterDecision(c, file, record) == Err(read.error)
              && AliasDecision(c, file, id, name, secs, nanos) == Err(read.error)
            else
              && (RegisterDecision(c, file, record) ==
                  if exists k :: 0 <= k < |read.value| && read.value[k].publicationId == record.publicationId
                  then Err(Duplicate) else Ok(Record(1, ToDto(c, record))))
              && ((forall k :: 0 <= k < |read.value| ==> read.value[k].publicationId != id) <==>
                  AliasDecision(c, file, id, name, secs, nanos) == Err(Unknown))
              && forall k :: 0 <= k < |read.value| && read.value[k].publicationId == id
                             && (forall j :: 0 <= j < k ==> read.value[j].publicationId != id) ==>
                   AliasDecision(c, file, id, name, secs, nanos) ==
                   Ok(if name in read.value[k].names then None else Some(Alias(1, c.toHex(id), name, secs, nanos)))
  {
    hide ReplayFile, ToDto;
  }
}
