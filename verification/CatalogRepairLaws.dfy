// What a repair leaves: a catalog that reads, holds every registration the
// classifier counted, and needs no second repair.
module CatalogRepairLaws {
  import opened Basics
  import opened CatalogRecords
  import opened CatalogReplay
  import opened CatalogRepair
  import opened Lines
  import opened Utf8
  import opened TextFiles

  function Decided(c: Codec, raws: seq<Bytes>, seen: seq<CatalogId>): seq<LineDecision> {
    JudgeAll(c, raws, seen).0
  }

  function SeenAfter(c: Codec, raws: seq<Bytes>, seen: seq<CatalogId>): seq<CatalogId> {
    JudgeAll(c, raws, seen).1
  }

  lemma {:induction false} JudgeAllAppend(c: Codec, a: seq<Bytes>, b: seq<Bytes>, seen: seq<CatalogId>)
    ensures Decided(c, a + b, seen) == Decided(c, a, seen) + Decided(c, b, SeenAfter(c, a, seen))
    ensures SeenAfter(c, a + b, seen) == SeenAfter(c, b, SeenAfter(c, a, seen))
    decreases |a|
  {
    if a == [] {
      assert a + b == b;
    } else {
      var all := a + b;
      assert all[0] == a[0] && all[1..] == a[1..] + b;
      JudgeAllAppend(c, a[1..], b, Judge(c, a[0], seen).1);
    }
  }

  lemma OnlyKeptRegisters(c: Codec, raw: Bytes, seen: seq<CatalogId>)
    ensures !Judge(c, raw, seen).0.Keep? ==> Judge(c, raw, seen).1 == seen
  {
  }

  // The kept lines, judged again on their own, are all kept and register the
  // same identities: a line that is not kept never counted.
  lemma {:induction false} KeptLinesJudged(c: Codec, raws: seq<Bytes>, seen: seq<CatalogId>)
    ensures var (decisions, last) := JudgeAll(c, raws, seen);
            var (again, end) := JudgeAll(c, KeptLines(raws, decisions), seen);
            AllKept(again) && end == last
    decreases |raws|
  {
    if raws != [] {
      var (decision, next) := Judge(c, raws[0], seen);
      var (rest, last) := JudgeAll(c, raws[1..], next);
      KeptLinesJudged(c, raws[1..], next);
      OnlyKeptRegisters(c, raws[0], seen);
      assert ([decision] + rest)[1..] == rest;
      var tail := KeptLines(raws[1..], rest);
      if decision.Keep? {
        var kept := [raws[0]] + tail;
        assert kept[1..] == tail && kept[0] == raws[0];
        AllKeptCons(decision, JudgeAll(c, tail, next).0);
      } else {
        assert [] + tail == tail;
      }
    }
  }

  lemma {:induction false} KeptAreLines(raws: seq<Bytes>, decisions: seq<LineDecision>)
    requires |raws| == |decisions| && AreLines(raws, LF)
    ensures AreLines(KeptLines(raws, decisions), LF)
    ensures |KeptLines(raws, decisions)| <= |raws|
    decreases |raws|
  {
    if raws != [] {
      KeptAreLines(raws[1..], decisions[1..]);
    }
  }

  lemma {:induction false} KeepAll(raws: seq<Bytes>, decisions: seq<LineDecision>)
    requires |raws| == |decisions| && AllKept(decisions)
    ensures KeptLines(raws, decisions) == raws
  {
    if raws != [] {
      KeepAll(raws[1..], decisions[1..]);
      assert raws == [raws[0]] + raws[1..];
    }
  }

  // The kept lines as the repaired file holds them: the last one terminated.
  function Finished(kept: seq<Bytes>): seq<Bytes> {
    if kept == [] || Terminated(kept[|kept| - 1], LF) then kept
    else kept[..|kept| - 1] + [kept[|kept| - 1] + [LF]]
  }

  lemma SameTrimSameJudgement(c: Codec, a: Bytes, b: Bytes)
    requires Trim(a) == Trim(b)
    ensures forall seen :: JudgeAll(c, [a], seen) == JudgeAll(c, [b], seen)
  {
    assert [a][1..] == [b][1..] == [];
    assert forall seen :: Judge(c, a, seen) == Judge(c, b, seen);
  }

  lemma FinishedLines(c: Codec, kept: seq<Bytes>)
    requires AreLines(kept, LF)
    ensures FileLines(WithFinalNewline(Flatten(kept))) == Finished(kept)
    ensures AreLines(Finished(kept), LF)
    ensures JudgeAll(c, Finished(kept), []) == JudgeAll(c, kept, [])
  {
    hide Judge, SplitInclusive;
    if kept == [] {
      assert Flatten(kept) == [] by {
        assert |Flatten(kept)| == 0;
      }
      SplitOfFlatten(kept, LF);
      return;
    }
    var front, last := kept[..|kept| - 1], kept[|kept| - 1];
    assert kept == front + [last];
    FlattenTerminated(kept, LF);
    if !Terminated(last, LF) {
      assert (last + [LF])[..|last|] == last;
      assert LF !in last by { assert last == last[..|last| - 1] + [last[|last| - 1]]; }
      assert Flatten([last]) == last + Flatten([]) && Flatten([last + [LF]]) == last + [LF] + Flatten([]);
      FlattenAppend(front, [last]);
      FlattenAppend(front, [last + [LF]]);
      assert Flatten(Finished(kept)) == Flatten(kept) + [LF];
      SameTrimSameJudgement(c, last, last + [LF]);
      JudgeAllAppend(c, front, [last], []);
      JudgeAllAppend(c, front, [last + [LF]], []);
    }
    SplitOfFlatten(Finished(kept), LF);
  }

  // For every byte string: what the repair would write reads, holds exactly
  // the registrations the plan counted, in order, and needs no repair.
  lemma RepairedReads(c: Codec, bytes: Bytes)
    requires Lawful(c)
    ensures Reads(c, Repaired(c, bytes))
    ensures Coupled(ReplayFile(c, Some(Repaired(c, bytes))).value, RegisteredIds(c, bytes))
    ensures AllKept(Decisions(c, Repaired(c, bytes)))
    ensures RegisteredIds(c, Repaired(c, bytes)) == RegisteredIds(c, bytes)
  {
    var raws, decisions := FileLines(bytes), Decisions(c, bytes);
    var kept := KeptLines(raws, decisions);
    SplitIsLines(bytes, LF);
    KeptAreLines(raws, decisions);
    KeptLinesJudged(c, raws, []);
    FinishedLines(c, kept);
    ReadsIffAllKept(c, Repaired(c, bytes));
  }

  // The lines of the repaired file are the kept lines of the original, in
  // order and byte for byte, but for one newline at the very end.
  lemma RepairedLines(c: Codec, bytes: Bytes)
    ensures FileLines(Repaired(c, bytes)) == Finished(KeptLines(FileLines(bytes), Decisions(c, bytes)))
    ensures Repaired(c, bytes) == [] || Terminated(Repaired(c, bytes), LF)
  {
    SplitIsLines(bytes, LF);
    KeptAreLines(FileLines(bytes), Decisions(c, bytes));
    FinishedLines(c, KeptLines(FileLines(bytes), Decisions(c, bytes)));
  }

  lemma RepairIdempotent(c: Codec, bytes: Bytes)
    requires Lawful(c)
    ensures Repaired(c, Repaired(c, bytes)) == Repaired(c, bytes)
  {
    var once := Repaired(c, bytes);
    RepairedReads(c, bytes);
    RepairedLines(c, bytes);
    KeepAll(FileLines(once), Decisions(c, once));
    SplitIsLines(once, LF);
  }

  // ---- No registration is lost ----

  // The catalog identity a line registers, were it the only line.
  function RegisteredBy(c: Codec, raw: Bytes): Option<CatalogId> {
    match Decode(Trim(raw))
    case None => None
    case Some(text) =>
      if Blank(text) then None
      else match c.parse(text)
        case Some(Record(1, dto)) =>
          (match FromDto(c, dto)
           case Some(record) => Some(record.catalogId)
           case None => None)
        case _ => None
  }

  predicate DistinctPublications(seen: seq<CatalogId>) {
    forall i, j :: 0 <= i < j < |seen| ==> seen[i].publication != seen[j].publication
  }

  // What one line's decision says about the identity it registers.
  lemma JudgeRegistration(c: Codec, raw: Bytes, seen: seq<CatalogId>)
    requires DistinctPublications(seen)
    ensures var (decision, next) := Judge(c, raw, seen);
            && seen <= next && DistinctPublications(next)
            && (RegisteredBy(c, raw).None? ==> next == seen && decision != Refuse(DuplicateAcrossAssetRoots))
            && (RegisteredBy(c, raw).Some? ==>
                  var id := RegisteredBy(c, raw).value;
                  && (decision.Keep? <==> !SeenPublication(seen, id.publication))
                  && (decision.Drop? <==> id in seen)
                  && (decision.Refuse? ==> decision == Refuse(DuplicateAcrossAssetRoots))
                  && next == if decision.Keep? then seen + [id] else seen)
  {
    var id := RegisteredBy(c, raw);
    if id.Some? && id.value in seen {
      var i :| 0 <= i < |seen| && seen[i] == id.value;
      assert SeenPublication(seen, id.value.publication);
    }
  }

  lemma {:induction false} JudgeAllGrows(c: Codec, raws: seq<Bytes>, seen: seq<CatalogId>)
    requires DistinctPublications(seen)
    ensures seen <= JudgeAll(c, raws, seen).1
    ensures DistinctPublications(JudgeAll(c, raws, seen).1)
    decreases |raws|
  {
    if raws != [] {
      JudgeRegistration(c, raws[0], seen);
      JudgeAllGrows(c, raws[1..], Judge(c, raws[0], seen).1);
    }
  }

  // A record line's registration is in the end registered exactly when the
  // line was not refused for a second asset root.
  lemma {:induction false} RegistrationSurvives(c: Codec, raws: seq<Bytes>, seen: seq<CatalogId>, i: nat)
    requires DistinctPublications(seen)
    requires i < |raws| && RegisteredBy(c, raws[i]).Some?
    ensures RegisteredBy(c, raws[i]).value in JudgeAll(c, raws, seen).1 <==>
            !JudgeAll(c, raws, seen).0[i].Refuse?
    ensures JudgeAll(c, raws, seen).0[i].Refuse? ==>
              JudgeAll(c, raws, seen).0[i] == Refuse(DuplicateAcrossAssetRoots)
    decreases |raws|
  {
    hide Judge, RegisteredBy;
    var (decision, next) := Judge(c, raws[0], seen);
    var last := JudgeAll(c, raws, seen).1;
    JudgeRegistration(c, raws[0], seen);
    if i > 0 {
      assert raws[1..][i - 1] == raws[i];
      RegistrationSurvives(c, raws[1..], next, i - 1);
    } else {
      JudgeAllGrows(c, raws[1..], next);
      var id := RegisteredBy(c, raws[0]).value;
      if decision.Keep? {
        assert next[|seen|] == id && last[|seen|] == id;
      } else if decision.Drop? {
        var k :| 0 <= k < |seen| && seen[k] == id;
        assert last[k] == id;
      } else {
        var k :| 0 <= k < |seen| && seen[k].publication == id.publication;
        assert last[k] == seen[k];
      }
    }
  }

  // A line dropped as a duplicate comes after a line with the same identity.
  lemma {:induction false} DroppedIsLater(c: Codec, raws: seq<Bytes>, seen: seq<CatalogId>, i: nat, id: CatalogId)
    returns (k: int)
    requires DistinctPublications(seen)
    requires i < |raws| && RegisteredBy(c, raws[i]) == Some(id)
    requires Decided(c, raws, seen)[i].Drop?
    ensures -1 <= k < i
    ensures if k == -1 then id in seen else RegisteredBy(c, raws[k]) == Some(id)
    decreases |raws|
  {
    hide Judge, RegisteredBy;
    var next := Judge(c, raws[0], seen).1;
    JudgeRegistration(c, raws[0], seen);
    if i == 0 {
      return -1;
    }
    assert raws[1..][i - 1] == raws[i];
    k := DroppedIsLater(c, raws[1..], next, i - 1, id);
    if k >= 0 {
      assert raws[1..][k] == raws[k + 1];
      k := k + 1;
    } else if id !in seen {
      k := 0;
    }
  }

  predicate RefusesNone(decisions: seq<LineDecision>) {
    forall i :: 0 <= i < |decisions| ==> !decisions[i].Refuse?
  }

  // With nothing refused, every identity any record line registers is still
  // registered after the repair, by the bytes of its first line.
  lemma NothingDeleted(c: Codec, bytes: Bytes, i: nat)
    requires Lawful(c) && RefusesNone(Decisions(c, bytes))
    requires i < |FileLines(bytes)| && RegisteredBy(c, FileLines(bytes)[i]).Some?
    requires forall k :: 0 <= k < i ==>
               RegisteredBy(c, FileLines(bytes)[k]) != RegisteredBy(c, FileLines(bytes)[i])
    ensures Decisions(c, bytes)[i].Keep? && Reads(c, Repaired(c, bytes))
    ensures var records := ReplayFile(c, Some(Repaired(c, bytes))).value;
            exists k :: 0 <= k < |records| && Some(records[k].catalogId) == RegisteredBy(c, FileLines(bytes)[i])
  {
    var raws := FileLines(bytes);
    if Decisions(c, bytes)[i].Drop? {
      var k := DroppedIsLater(c, raws, [], i, RegisteredBy(c, raws[i]).value);
    }
    RegistrationSurvives(c, raws, [], i);
    RepairedReads(c, bytes);
    var ids := RegisteredIds(c, bytes);
    var k :| 0 <= k < |ids| && ids[k] == RegisteredBy(c, raws[i]).value;
    assert ReplayFile(c, Some(Repaired(c, bytes))).value[k].catalogId == ids[k];
  }

  // Writing the kept lines deletes no registration exactly when no line is
  // refused for a second asset root; that refusal is what keeps a repair from deleting one.
  lemma DeletesNothingIff(c: Codec, bytes: Bytes)
    ensures (forall i :: 0 <= i < |FileLines(bytes)| && RegisteredBy(c, FileLines(bytes)[i]).Some? ==>
               RegisteredBy(c, FileLines(bytes)[i]).value in RegisteredIds(c, bytes))
       <==> Refuse(DuplicateAcrossAssetRoots) !in Decisions(c, bytes)
  {
    var raws, decisions := FileLines(bytes), Decisions(c, bytes);
    forall i | 0 <= i < |raws|
      ensures RegisteredBy(c, raws[i]).Some? ==>
                (RegisteredBy(c, raws[i]).value in RegisteredIds(c, bytes)
                 <==> decisions[i] != Refuse(DuplicateAcrossAssetRoots))
      ensures RegisteredBy(c, raws[i]).None? ==> decisions[i] != Refuse(DuplicateAcrossAssetRoots)
    {
      if RegisteredBy(c, raws[i]).Some? {
        RegistrationSurvives(c, raws, [], i);
      } else {
        OnlyRecordsCross(c, raws, [], i);
      }
    }
  }

  lemma {:induction false} OnlyRecordsCross(c: Codec, raws: seq<Bytes>, seen: seq<CatalogId>, i: nat)
    requires DistinctPublications(seen)
    requires i < |raws| && RegisteredBy(c, raws[i]).None?
    ensures JudgeAll(c, raws, seen).0[i] != Refuse(DuplicateAcrossAssetRoots)
    decreases |raws|
  {
    hide Judge, RegisteredBy;
    JudgeRegistration(c, raws[0], seen);
    if i > 0 {
      assert raws[1..][i - 1] == raws[i];
      OnlyRecordsCross(c, raws[1..], Judge(c, raws[0], seen).1, i - 1);
    }
  }
}
