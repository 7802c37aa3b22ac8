// One `record` call from its first step to its last with nobody else at work, and
// that it is one run of the protocol.
module ApplyRecordStore {
  import opened Basics
  import opened ApplyRecordNames
  import opened ApplyRecords

  // The first attempt from `k` on whose name is free, or the number of attempts.
  function FirstFree(files: map<FileName, Bytes>, record: ApplyRecord, k: nat): (n: nat)
    requires k <= MAX_SEQUENCE
    ensures k <= n <= MAX_SEQUENCE
    ensures forall i :: k <= i < n ==> Json(RecordName(record.plan, record.takenAt, i)) in files
    ensures n < MAX_SEQUENCE ==> Json(RecordName(record.plan, record.takenAt, n)) !in files
    decreases MAX_SEQUENCE - k
  {
    if k == MAX_SEQUENCE || Json(RecordName(record.plan, record.takenAt, k)) !in files then k
    else FirstFree(files, record, k + 1)
  }

  // Where one call fails, if it does.
  datatype Fault = NoFault | CannotReserve | CannotCreate | CannotFill(written: nat) | CannotRename

  class FsApplyRecordStore {
    var files: map<FileName, Bytes>

    constructor (files: map<FileName, Bytes>)
      ensures this.files == files
    {
      this.files := files;
    }

    // `reserve`: an exclusive create of the first free name.
    method Reserve(record: ApplyRecord, fault: Fault) returns (r: Result<string, RecordError>)
      modifies this
      ensures var n := FirstFree(old(files), record, 0);
              if n == MAX_SEQUENCE || fault == CannotReserve
              then r == Err(WriteFailed) && files == old(files)
              else r == Ok(RecordName(record.plan, record.takenAt, n)) && files == old(files)[Json(r.value) := []]
    {
      hide RecordName;
      for sequence := 0 to MAX_SEQUENCE
        invariant files == old(files) && FirstFree(files, record, 0) == FirstFree(files, record, sequence)
      {
        var id := RecordName(record.plan, record.takenAt, sequence);
        if Json(id) !in files {
          if fault == CannotReserve {
            return Err(WriteFailed);
          }
          files := files[Json(id) := []];
          return Ok(id);
        }
      }
      return Err(WriteFailed);
    }

    // `write_temp`
    method WriteTemp(w: RecorderId, bytes: Bytes, fault: Fault) returns (ok: bool)
      modifies this
      ensures ok <==> Part(w) !in old(files) && !fault.CannotCreate? && !fault.CannotFill?
      ensures files == if ok then old(files)[Part(w) := bytes] else old(files)
    {
      if fault.CannotCreate? || Part(w) in files {
        return false;
      }
      files := files[Part(w) := []];
      if fault.CannotFill? {
        files := files[Part(w) := if fault.written < |bytes| then bytes[..fault.written] else bytes];
        files := files - {Part(w)};
        return false;
      }
      files := files[Part(w) := bytes];
      return true;
    }

    // `record_with`, up to the stale temporary files it removes last: it adds
    // exactly one complete record under the first free name, or nothing.
    method RecordWith(w: RecorderId, record: ApplyRecord, bytes: Bytes, fault: Fault)
      returns (r: Result<string, RecordError>)
      modifies this
      ensures r.Ok? <==> fault == NoFault && Part(w) !in old(files) && FirstFree(old(files), record, 0) < MAX_SEQUENCE
      ensures r.Ok? ==> r.value == RecordName(record.plan, record.takenAt, FirstFree(old(files), record, 0))
                        && Json(r.value) !in old(files) && files == old(files)[Json(r.value) := bytes]
      ensures r.Err? ==> files == old(files)
    {
      hide RecordName;
      r := Reserve(record, fault);
      if r.Err? {
        return;
      }
      var filled := Fill(w, Json(r.value), bytes, fault);
      if !filled {
        files := files - {Json(r.value)};
        TakenBack(old(files), Json(r.value));
        r := Err(WriteFailed);
      }
    }

    // The temporary file and its rename over the reservation.
    method Fill(w: RecorderId, name: FileName, bytes: Bytes, fault: Fault) returns (ok: bool)
      requires name.Json? && name in files
      modifies this
      ensures ok <==> Part(w) !in old(files) && !fault.CannotCreate? && !fault.CannotFill? && !fault.CannotRename?
      ensures files == if ok then old(files)[name := bytes] else old(files)
    {
      var written := WriteTemp(w, bytes, fault);
      if !written {
        return false;
      }
      if fault.CannotRename? {
        files := files - {Part(w)};
        return false;
      }
      files := (files - {Part(w)})[name := files[Part(w)]];
      return true;
    }
  }

  lemma TakenBack(files: map<FileName, Bytes>, name: FileName)
    requires name !in files
    ensures files[name := []] - {name} == files
  {
  }

  lemma Onward(encode: ApplyRecord -> Bytes, s: Store, a: Action, actions: seq<Action>, t: Store)
    requires Enabled(s, a) && Run(encode, Apply(encode, s, a), actions, t)
    ensures Run(encode, s, [a] + actions, t)
  {
    assert ([a] + actions)[1..] == actions;
  }

  // The steps a recorder takes by itself, once it has a name, end in the store
  // `RecordWith` leaves.
  lemma RestIsARun(encode: ApplyRecord -> Bytes, s: Store, w: RecorderId,
                   id: string) returns (actions: seq<Action>, t: Store)
    requires w in s.recorders && s.recorders[w].pc == Opening && s.recorders[w].id == Some(id)
    requires Part(w) !in s.files && Json(id) in s.files
    ensures Run(encode, s, actions, t)
    ensures t.files == s.files[Json(id) := s.recorders[w].bytes]
    ensures w in t.recorders && t.recorders[w].pc == Done(Ok(id)) && t.recorders[w].record == s.recorders[w].record
  {
    hide RecordName;
    var go := Step(w, Fine, |s.recorders[w].bytes|);
    var created := StepOf(s, w, Fine, go.filled);
    var filled := StepOf(created, w, Fine, go.filled);
    var renamed := StepOf(filled, w, Fine, go.filled);
    t := StepOf(renamed, w, Fine, go.filled);
    assert Run(encode, t, [], t);
    Onward(encode, renamed, go, [], t);
    Onward(encode, filled, go, [go] + [], t);
    Onward(encode, created, go, [go] + ([go] + []), t);
    Onward(encode, s, go, [go] + ([go] + ([go] + [])), t);
    actions := [go] + ([go] + ([go] + ([go] + [])));
  }

  // So does the search for a free name before it.
  lemma {:induction false} SearchIsARun(encode: ApplyRecord -> Bytes, s: Store, w: RecorderId, k: nat)
      returns (actions: seq<Action>, t: Store)
    requires k <= MAX_SEQUENCE && w in s.recorders && s.recorders[w].pc == Reserving(k) && Part(w) !in s.files
    requires FirstFree(s.files, s.recorders[w].record, k) < MAX_SEQUENCE
    ensures var me := s.recorders[w];
            var id := RecordName(me.record.plan, me.record.takenAt, FirstFree(s.files, me.record, k));
            && Run(encode, s, actions, t)
            && t.files == s.files[Json(id) := me.bytes]
            && w in t.recorders && t.recorders[w].pc == Done(Ok(id)) && t.recorders[w].record == me.record
    decreases MAX_SEQUENCE - k
  {
    hide RecordName, Run;
    var me := s.recorders[w];
    var id := RecordName(me.record.plan, me.record.takenAt, k);
    var next := StepOf(s, w, Fine, 0);
    if Json(id) in s.files {
      actions, t := SearchIsARun(encode, next, w, k + 1);
    } else {
      actions, t := RestIsARun(encode, next, w, id);
      assert t.files == s.files[Json(id) := me.bytes];
    }
    Onward(encode, s, Step(w, Fine, 0), actions, t);
    actions := [Step(w, Fine, 0)] + actions;
  }

  // A call that goes through alone is a run of the protocol: what every run keeps
  // holds of it too.
  lemma AloneIsARun(encode: ApplyRecord -> Bytes, s: Store, w: RecorderId, record: ApplyRecord)
      returns (actions: seq<Action>, t: Store)
    requires w !in s.recorders && IsPlanText(record.plan) && Part(w) !in s.files
    requires FirstFree(s.files, record, 0) < MAX_SEQUENCE
    ensures var id := RecordName(record.plan, record.takenAt, FirstFree(s.files, record, 0));
            && Run(encode, s, actions, t)
            && t.files == s.files[Json(id) := encode(record)]
            && w in t.recorders && t.recorders[w].pc == Done(Ok(id)) && t.recorders[w].record == record
  {
    hide RecordName, Run, IsPlanText;
    var a := Arrive(w, record);
    actions, t := SearchIsARun(encode, Apply(encode, s, a), w, 0);
    Onward(encode, s, a, actions, t);
    actions := [a] + actions;
  }
}
