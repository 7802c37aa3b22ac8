// The byte-level line classifier behind the repair, and why it and the strict
// reader can never disagree.
module CatalogRepair {
  import opened Basics
  import opened CatalogRecords
  import opened CatalogReplay
  import opened Lines
  import opened Utf8
  import opened TextFiles

  datatype RepairRule = DuplicateRecord | DanglingAlias

  datatype RepairRefusal = CatalogIdMismatch | DuplicateAcrossAssetRoots | Unparsable

  datatype LineDecision =
    | Keep
    | Drop(rule: RepairRule, publication: Option<Identity>)
    | Refuse(refusal: RepairRefusal)

  // The line's bytes without its terminator; unlike the reader's, a carriage
  // return goes even when no line feed follows it.
  function Trim(raw: Bytes): Bytes {
    var body := if Terminated(raw, LF) then raw[..|raw| - 1] else raw;
    if Terminated(body, CR) then body[..|body| - 1] else body
  }

  predicate SeenPublication(seen: seq<CatalogId>, id: Identity) {
    exists i :: 0 <= i < |seen| && seen[i].publication == id
  }

  // The rules and the refusals for one line's text, and the identities
  // registered once it is read.
  function JudgeText(c: Codec, text: Text, seen: seq<CatalogId>): (LineDecision, seq<CatalogId>) {
    if Blank(text) then (Keep, seen)
    else match c.parse(text)
      case None => (Refuse(Unparsable), seen)
      case Some(Record(schema, dto)) =>
        if schema != SCHEMA_VERSION then (Refuse(Unparsable), seen)
        else (match FromDto(c, dto)
              case Some(record) =>
                if record.catalogId in seen then (Drop(DuplicateRecord, Some(record.publicationId)), seen)
                else if SeenPublication(seen, record.publicationId)
                then (Refuse(DuplicateAcrossAssetRoots), seen)
                else (Keep, seen + [record.catalogId])
              case None =>
                (Refuse(if IdsDisagree(dto) then CatalogIdMismatch else Unparsable), seen))
      case Some(Alias(schema, publicationId, _, _, _)) =>
        if schema != SCHEMA_VERSION then (Refuse(Unparsable), seen)
        else
          var id := c.fromHex(publicationId);
          if id.Some? && SeenPublication(seen, id.value) then (Keep, seen)
          else (Drop(DanglingAlias, id), seen)
  }

  function Judge(c: Codec, raw: Bytes, seen: seq<CatalogId>): (LineDecision, seq<CatalogId>) {
    match Decode(Trim(raw))
    case None => (Refuse(Unparsable), seen)
    case Some(text) => JudgeText(c, text, seen)
  }

  // `decide`, which pushes onto the caller's `seen`.
  method Decide(c: Codec, raw: Bytes, seen: seq<CatalogId>)
    returns (decision: LineDecision, seen': seq<CatalogId>)
    ensures (decision, seen') == Judge(c, raw, seen)
  {
    seen' := seen;
    var text := Decode(Trim(raw));
    if text.None? {
      return Refuse(Unparsable), seen';
    }
    if Blank(text.value) {
      return Keep, seen';
    }
    var entry := c.parse(text.value);
    if entry.None? || entry.value.schema != SCHEMA_VERSION {
      return Refuse(Unparsable), seen';
    }
    match entry.value {
      case Record(_, dto) =>
        var record := FromDto(c, dto);
        if record.None? {
          return Refuse(if IdsDisagree(dto) then CatalogIdMismatch else Unparsable), seen';
        }
        if record.value.catalogId in seen {
          return Drop(DuplicateRecord, Some(record.value.publicationId)), seen';
        }
        if SeenPublication(seen, record.value.publicationId) {
          return Refuse(DuplicateAcrossAssetRoots), seen';
        }
        seen' := seen' + [record.value.catalogId];
        decision := Keep;
      case Alias(_, publicationId, _, _, _) =>
        var id := c.fromHex(publicationId);
        decision := if id.Some? && SeenPublication(seen, id.value) then Keep else Drop(DanglingAlias, id);
    }
  }

  // The decisions over a file's lines, first to last, and what the kept
  // records register in the end.
  function JudgeAll(c: Codec, raws: seq<Bytes>, seen: seq<CatalogId>): (r: (seq<LineDecision>, seq<CatalogId>))
    ensures |r.0| == |raws|
    decreases |raws|
  {
    if raws == [] then ([], seen)
    else
      var (decision, next) := Judge(c, raws[0], seen);
      var (rest, last) := JudgeAll(c, raws[1..], next);
      ([decision] + rest, last)
  }

  function KeptLines(raws: seq<Bytes>, decisions: seq<LineDecision>): seq<Bytes>
    requires |raws| == |decisions|
  {
    if raws == [] then []
    else (if decisions[0].Keep? then [raws[0]] else []) + KeptLines(raws[1..], decisions[1..])
  }

  function FileLines(bytes: Bytes): seq<Bytes> {
    SplitInclusive(bytes, LF)
  }

  function Decisions(c: Codec, bytes: Bytes): (r: seq<LineDecision>)
    ensures |r| == |FileLines(bytes)|
  {
    JudgeAll(c, FileLines(bytes), []).0
  }

  function RegisteredIds(c: Codec, bytes: Bytes): seq<CatalogId> {
    JudgeAll(c, FileLines(bytes), []).1
  }

  function WithFinalNewline(kept: Bytes): Bytes {
    if kept != [] && !Terminated(kept, LF) then kept + [LF] else kept
  }

  // What the repair writes: the kept lines, byte for byte, ending a line.
  function Repaired(c: Codec, bytes: Bytes): Bytes {
    WithFinalNewline(Flatten(KeptLines(FileLines(bytes), Decisions(c, bytes))))
  }

  // A line's raw bytes, its number and what was decided about it.
  type ClassifiedLine = (Bytes, nat, LineDecision)

  // `classify`; the second result is the count the plan calls `kept_records`.
  method Classify(c: Codec, bytes: Bytes) returns (classified: seq<ClassifiedLine>, kept: nat)
    ensures |classified| == |FileLines(bytes)|
    ensures forall i :: 0 <= i < |classified| ==>
              classified[i] == (FileLines(bytes)[i], LineNumber(i), Decisions(c, bytes)[i])
    ensures kept == |RegisteredIds(c, bytes)|
  {
    hide Judge, SplitInclusive;
    var raws := FileLines(bytes);
    var seen: seq<CatalogId> := [];
    classified := [];
    var i := 0;
    while i < |raws|
      invariant 0 <= i <= |raws| && |classified| == i
      invariant JudgeAll(c, raws[i..], seen) == (Decisions(c, bytes)[i..], RegisteredIds(c, bytes))
      invariant forall k :: 0 <= k < i ==>
                  classified[k] == (raws[k], LineNumber(k), Decisions(c, bytes)[k])
    {
      var decision;
      assert raws[i..][1..] == raws[i + 1..];
      assert Decisions(c, bytes)[i..][1..] == Decisions(c, bytes)[i + 1..];
      decision, seen := Decide(c, raws[i], seen);
      assert decision == Decisions(c, bytes)[i..][0];
      classified := classified + [(raws[i], LineNumber(i), decision)];
      i := i + 1;
    }
    kept := |seen|;
  }

  // One-based, and stuck at the widest 32-bit number.
  function LineNumber(index: nat): nat {
    if index + 1 < 0x1_0000_0000 then index + 1 else 0xFFFF_FFFF
  }

  // What the lines from `i` on contribute to the kept bytes.
  function KeptFrom(classified: seq<ClassifiedLine>, i: nat): Bytes
    requires i <= |classified|
    decreases |classified| - i
  {
    if i == |classified| then []
    else (if classified[i].2.Keep? then classified[i].0 else []) + KeptFrom(classified, i + 1)
  }

  lemma {:induction false} KeptFromIsFlatten(classified: seq<ClassifiedLine>, raws: seq<Bytes>,
                                             decisions: seq<LineDecision>, i: nat)
    requires |classified| == |raws| == |decisions| && i <= |raws|
    requires forall k :: 0 <= k < |raws| ==> classified[k].0 == raws[k] && classified[k].2 == decisions[k]
    ensures KeptFrom(classified, i) == Flatten(KeptLines(raws[i..], decisions[i..]))
    decreases |raws| - i
  {
    if i < |raws| {
      assert raws[i..][1..] == raws[i + 1..] && decisions[i..][1..] == decisions[i + 1..];
      var rest := KeptLines(raws[i + 1..], decisions[i + 1..]);
      assert ([raws[i]] + rest)[1..] == rest && [] + rest == rest;
      KeptFromIsFlatten(classified, raws, decisions, i + 1);
    }
  }

  // The loop of `kept_bytes`.
  method JoinKept(classified: seq<ClassifiedLine>) returns (kept: Bytes)
    ensures kept == KeptFrom(classified, 0)
  {
    kept := [];
    var i := 0;
    while i < |classified|
      invariant 0 <= i <= |classified|
      invariant kept + KeptFrom(classified, i) == KeptFrom(classified, 0)
    {
      var (raw, _, decision) := classified[i];
      if decision == Keep {
        kept := kept + raw;
      }
      i := i + 1;
    }
  }

  // `kept_bytes`
  method KeptBytes(c: Codec, bytes: Bytes) returns (kept: Bytes)
    ensures kept == Repaired(c, bytes)
  {
    var classified, _ := Classify(c, bytes);
    kept := JoinKept(classified);
    ghost var raws, decisions := FileLines(bytes), Decisions(c, bytes);
    assert raws[0..] == raws && decisions[0..] == decisions;
    KeptFromIsFlatten(classified, raws, decisions, 0);
    if kept != [] && !Terminated(kept, LF) {
      kept := kept + [LF];
    }
  }

  // ---- The reader and the classifier agree ----

  // The text of a run of raw lines, when every one of them is UTF-8.
  function DecodeAll(raws: seq<Bytes>): Option<seq<Text>> {
    if raws == [] then Some([])
    else
      var first, rest := Decode(raws[0]), DecodeAll(raws[1..]);
      if first.None? || rest.None? then None else Some([first.value] + rest.value)
  }

  // A terminated line, or the last one, decodes on its own.
  lemma DecodeLineFirst(raw: Bytes, rest: Bytes)
    requires IsLine(raw, LF) && (Terminated(raw, LF) || rest == [])
    ensures Decode(raw + rest).Some? <==> Decode(raw).Some? && Decode(rest).Some?
    ensures Decode(raw + rest).Some? ==> Decode(raw + rest).value == Decode(raw).value + Decode(rest).value
  {
    if Terminated(raw, LF) {
      var body := raw[..|raw| - 1];
      assert raw + rest == body + [LF] + rest && raw == body + [LF] + [];
      DecodeAcross(body, LF, rest);
      DecodeAcross(body, LF, []);
    } else {
      assert raw + rest == raw;
    }
  }

  // Cutting the bytes into lines and decoding each, or decoding the file and
  // cutting the text: the same lines, and the same files are UTF-8.
  lemma {:induction false} DecodeFlatten(raws: seq<Bytes>)
    requires AreLines(raws, LF)
    ensures Decode(Flatten(raws)).Some? <==> DecodeAll(raws).Some?
    ensures DecodeAll(raws).Some? ==>
              && Decode(Flatten(raws)).value == Flatten(DecodeAll(raws).value)
              && AreLines(DecodeAll(raws).value, NL)
    decreases |raws|
  {
    if raws != [] {
      var raw, rest := raws[0], raws[1..];
      DecodeFlatten(rest);
      DecodeLineFirst(raw, Flatten(rest));
      if DecodeAll(raws).Some? {
        DecodeLine(raw);
        var head, tail := Decode(raw).value, DecodeAll(rest).value;
        assert DecodeAll(raws).value == [head] + tail;
        assert ([head] + tail)[1..] == tail;
        assert |tail| == |rest| by { DecodeAllLength(rest); }
      }
    }
  }

  lemma {:induction false} DecodeAllLength(raws: seq<Bytes>)
    requires DecodeAll(raws).Some?
    ensures |DecodeAll(raws).value| == |raws|
  {
    if raws != [] {
      DecodeAllLength(raws[1..]);
    }
  }

  // A decoded line is a line, and its terminator is the one in the bytes.
  lemma DecodeLine(raw: Bytes)
    requires IsLine(raw, LF) && Decode(raw).Some?
    ensures IsLine(Decode(raw).value, NL)
    ensures Terminated(Decode(raw).value, NL) <==> Terminated(raw, LF)
  {
    var body := raw[..|raw| - 1];
    if Terminated(raw, LF) {
      assert body + [LF] + [] == raw;
      DecodeAcross(body, LF, []);
      DecodeKeepsAscii(body, LF);
      assert Decode(raw).value[..|Decode(raw).value| - 1] == Decode(body).value;
    } else {
      assert LF !in raw by { assert raw == body + [raw[|raw| - 1]]; }
      DecodeKeepsAscii(raw, LF);
    }
  }

  // A decoded text ends in a carriage return only if its bytes do.
  lemma {:induction false} DecodeEndsInCr(b: Bytes)
    requires Decode(b).Some?
    ensures Terminated(Decode(b).value, RETURN) <==> Terminated(b, CR)
  {
    if b != [] {
      var n := First(b).value.1;
      DecodeEndsInCr(b[n..]);
      if b[n..] == [] {
        assert Decode(b).value == [First(b).value.0];
        assert |b| == n;
      } else {
        assert Decode(b[n..]).value != [];
      }
    }
  }

  // The classifier and the reader look at the same text, up to a carriage
  // return only the classifier removes.
  lemma TrimIsChomp(raw: Bytes)
    requires IsLine(raw, LF)
    ensures Decode(Trim(raw)).Some? <==> Decode(raw).Some?
    ensures Decode(raw).Some? ==>
              var text, trimmed := Chomp(Decode(raw).value), Decode(Trim(raw)).value;
              text == trimmed || text == trimmed + [RETURN]
  {
    hide Decode;
    var body := if Terminated(raw, LF) then raw[..|raw| - 1] else raw;
    if Terminated(raw, LF) {
      DecodeSuffix(body, LF);
      assert raw == body + [LF];
    }
    if Decode(raw).Some? {
      DecodeLine(raw);
      var text := Decode(body).value;
      if Terminated(raw, LF) {
        assert Decode(raw).value[..|Decode(raw).value| - 1] == text;
      }
      DecodeEndsInCr(body);
    }
    if Terminated(body, CR) {
      var inner := body[..|body| - 1];
      assert body == inner + [CR];
      DecodeSuffix(inner, CR);
    }
  }

  // What the reader has read and what the classifier has seen.
  predicate Coupled(records: Catalog, seen: seq<CatalogId>) {
    && |records| == |seen|
    && forall i :: 0 <= i < |seen| ==>
         && records[i].catalogId == seen[i]
         && records[i].publicationId == seen[i].publication
  }

  lemma CarriageReturnIgnored(c: Codec, records: Catalog, text: Text)
    requires Lawful(c)
    ensures ApplyLine(c, records, text + [RETURN]) == ApplyLine(c, records, text)
  {
    assert IgnoresReturn(c, text);
    assert Blank(text + [RETURN]) <==> Blank(text) by {
      if Blank(text + [RETURN]) {
        assert forall i :: 0 <= i < |text| ==> text[i] == (text + [RETURN])[i];
      }
    }
  }

  lemma SeenIsRegistered(records: Catalog, seen: seq<CatalogId>, id: Identity)
    requires Coupled(records, seen)
    ensures SeenPublication(seen, id) <==> Registered(records, id)
  {
    if SeenPublication(seen, id) {
      var i :| 0 <= i < |seen| && seen[i].publication == id;
      assert records[i].publicationId == id;
    }
    if Registered(records, id) {
      assert seen[IndexById(records, id)].publication == id;
    }
  }

  lemma JudgeTextMatchesApply(c: Codec, text: Text, records: Catalog, seen: seq<CatalogId>)
    requires Coupled(records, seen)
    ensures JudgeText(c, text, seen).0.Keep? <==> ApplyLine(c, records, text).Some?
    ensures JudgeText(c, text, seen).0.Keep? ==>
              Coupled(ApplyLine(c, records, text).value, JudgeText(c, text, seen).1)
    ensures !JudgeText(c, text, seen).0.Keep? ==> JudgeText(c, text, seen).1 == seen
  {
    if !Blank(text) && c.parse(text).Some? {
      match c.parse(text).value {
        case Record(_, dto) =>
          var record := FromDto(c, dto);
          if record.Some? {
            SeenIsRegistered(records, seen, record.value.publicationId);
            if record.value.catalogId in seen {
              var i :| 0 <= i < |seen| && seen[i] == record.value.catalogId;
              assert SeenPublication(seen, record.value.publicationId);
            }
          }
        case Alias(_, publicationId, _, _, _) =>
          var id := c.fromHex(publicationId);
          if id.Some? {
            SeenIsRegistered(records, seen, id.value);
          }
      }
    }
  }

  // One line: the reader accepts it exactly when the classifier keeps it, and
  // the two go on from matching states.
  lemma JudgeMatchesApply(c: Codec, raw: Bytes, records: Catalog, seen: seq<CatalogId>)
    requires Lawful(c) && IsLine(raw, LF) && Coupled(records, seen)
    ensures Judge(c, raw, seen).0.Keep? <==>
            Decode(raw).Some? && ApplyLine(c, records, Chomp(Decode(raw).value)).Some?
    ensures Judge(c, raw, seen).0.Keep? ==>
              Coupled(ApplyLine(c, records, Chomp(Decode(raw).value)).value, Judge(c, raw, seen).1)
    ensures !Judge(c, raw, seen).0.Keep? ==> Judge(c, raw, seen).1 == seen
  {
    TrimIsChomp(raw);
    if Decode(raw).Some? {
      var trimmed := Decode(Trim(raw)).value;
      CarriageReturnIgnored(c, records, trimmed);
      JudgeTextMatchesApply(c, trimmed, records, seen);
    }
  }

  predicate AllKept(decisions: seq<LineDecision>) {
    forall i :: 0 <= i < |decisions| ==> decisions[i].Keep?
  }

  lemma AllKeptCons(first: LineDecision, rest: seq<LineDecision>)
    ensures AllKept([first] + rest) <==> first.Keep? && AllKept(rest)
  {
    var all := [first] + rest;
    if AllKept(all) {
      assert all[0] == first;
      assert forall i :: 0 <= i < |rest| ==> rest[i] == all[i + 1];
    }
  }

  lemma {:induction false} JudgeAllMatchesReplay(c: Codec, raws: seq<Bytes>, records: Catalog, seen: seq<CatalogId>)
    requires Lawful(c) && AreLines(raws, LF) && Coupled(records, seen)
    ensures AllKept(JudgeAll(c, raws, seen).0) <==>
            DecodeAll(raws).Some? && ReplayLines(c, DecodeAll(raws).value, records).Some?
    ensures AllKept(JudgeAll(c, raws, seen).0) ==>
              Coupled(ReplayLines(c, DecodeAll(raws).value, records).value, JudgeAll(c, raws, seen).1)
    decreases |raws|
  {
    if raws != [] {
      JudgeMatchesApply(c, raws[0], records, seen);
      var (decision, next) := Judge(c, raws[0], seen);
      var (rest, _) := JudgeAll(c, raws[1..], next);
      AllKeptCons(decision, rest);
      if decision.Keep? {
        JudgeAllMatchesReplay(c, raws[1..],
                              ApplyLine(c, records, Chomp(Decode(raws[0]).value)).value, next);
      }
      if DecodeAll(raws).Some? {
        assert DecodeAll(raws).value[1..] == DecodeAll(raws[1..]).value;
      }
    }
  }

  lemma TextLines(bytes: Bytes)
    ensures Decode(bytes).Some? <==> DecodeAll(FileLines(bytes)).Some?
    ensures Decode(bytes).Some? ==> SplitInclusive(Decode(bytes).value, NL) == DecodeAll(FileLines(bytes)).value
  {
    var raws := FileLines(bytes);
    SplitIsLines(bytes, LF);
    DecodeFlatten(raws);
    if DecodeAll(raws).Some? {
      SplitOfFlatten(DecodeAll(raws).value, NL);
    }
  }

  // Over any bytes, the file reads exactly when every line is kept, and then
  // it holds the registrations the classifier counted.
  lemma ReadsIffAllKept(c: Codec, bytes: Bytes)
    requires Lawful(c)
    ensures Reads(c, bytes) <==> AllKept(Decisions(c, bytes))
    ensures Reads(c, bytes) ==> Coupled(ReplayFile(c, Some(bytes)).value, RegisteredIds(c, bytes))
  {
    var raws := FileLines(bytes);
    SplitIsLines(bytes, LF);
    TextLines(bytes);
    JudgeAllMatchesReplay(c, raws, [], []);
  }
}
