// The apply-record store: any number of recorders, each reserving a name, writing
// a temporary file and renaming it over the reservation; any may crash anywhere.
module ApplyRecords {
  import opened Basics
  import opened ApplyRecordNames

  type RecorderId = nat

  // A record as one apply leaves it: its plan, its instant, everything else.
  datatype ApplyRecord = ApplyRecord(plan: string, takenAt: int, rest: Bytes)

  // The names in the directory; a `.part` name is never a `.json` name, and one
  // that is not text is never a recorder's.
  datatype FileName = Json(stem: string) | Part(w: RecorderId) | Foreign(bytes: Bytes)

  datatype RecordError = WriteFailed

  // Where one `record` call stands.
  datatype Pc =
    | Reserving(sequence: nat)
    | Opening
    | Filling
    | Renaming
    | Reclaiming
    | DroppingPart
    | Unreserving
    | Crashed
    | Done(result: Result<string, RecordError>)

  // `id` is the name it holds, `published` whether its content is in place.
  datatype Recorder = Recorder(record: ApplyRecord, bytes: Bytes, pc: Pc, id: Option<string>, published: bool)

  datatype Store = Store(files: map<FileName, Bytes>, recorders: map<RecorderId, Recorder>)

  // How the file system answers one step.
  datatype Answer = Fine | Fails

  datatype Action =
    | Arrive(w: RecorderId, record: ApplyRecord)
    | Step(w: RecorderId, answer: Answer, filled: nat)
      // One stale temporary file removed, whoever's it is.
    | Reclaim(w: RecorderId, victim: RecorderId)
    | Crash(w: RecorderId)

  function NewRecorder(encode: ApplyRecord -> Bytes, record: ApplyRecord): Recorder {
    Recorder(record, encode(record), Reserving(0), None, false)
  }

  function At(s: Store, w: RecorderId, pc: Pc): Store
    requires w in s.recorders
  {
    s.(recorders := s.recorders[w := s.recorders[w].(pc := pc)])
  }

  // `reserve`: one try of one name.
  function Reserve(s: Store, w: RecorderId, sequence: nat, answer: Answer): Store
    requires w in s.recorders
  {
    var me := s.recorders[w];
    var id := RecordName(me.record.plan, me.record.takenAt, sequence);
    if sequence >= MAX_SEQUENCE then At(s, w, Done(Err(WriteFailed)))
    else if Json(id) in s.files then At(s, w, Reserving(sequence + 1))
    else if answer == Fails then At(s, w, Done(Err(WriteFailed)))
    else Store(s.files[Json(id) := []], s.recorders[w := me.(pc := Opening, id := Some(id))])
  }

  // The rename over the reservation; a temporary file reclaimed meanwhile is a
  // failed rename.
  function Rename(s: Store, w: RecorderId, answer: Answer): Store
    requires w in s.recorders && s.recorders[w].id.Some?
  {
    if answer == Fails || Part(w) !in s.files then At(s, w, DroppingPart)
    else
      Store((s.files - {Part(w)})[Json(s.recorders[w].id.value) := s.files[Part(w)]],
            s.recorders[w := s.recorders[w].(pc := Reclaiming, published := true)])
  }

  // One step of `record_with`.
  function StepOf(s: Store, w: RecorderId, answer: Answer, filled: nat): Store
    requires w in s.recorders
  {
    var me := s.recorders[w];
    match me.pc
    case Reserving(sequence) => Reserve(s, w, sequence, answer)
    case Opening =>
      // An exclusive create: a name somebody holds fails it like any other error.
      if answer == Fails || Part(w) in s.files then At(s, w, Unreserving)
      else At(s, w, Filling).(files := s.files[Part(w) := []])
    case Filling =>
      var written := if filled < |me.bytes| then me.bytes[..filled] else me.bytes;
      var files := if Part(w) in s.files then s.files[Part(w) := written] else s.files;
      var pc := if answer == Fails then DroppingPart else if filled < |me.bytes| then Filling else Renaming;
      At(s, w, pc).(files := files)
    case Renaming => if me.id.Some? then Rename(s, w, answer) else s
    case DroppingPart => At(s, w, Unreserving).(files := s.files - {Part(w)})
    case Unreserving =>
      if me.id.None? then s
      else Store(s.files - {Json(me.id.value)}, s.recorders[w := me.(pc := Done(Err(WriteFailed)), id := None)])
    case Reclaiming => if me.id.Some? then At(s, w, Done(Ok(me.id.value))) else s
    case Crashed => s
    case Done(_) => s
  }

  predicate Enabled(s: Store, a: Action) {
    match a
    case Arrive(w, record) => w !in s.recorders && IsPlanText(record.plan)
    case Step(w, _, _) => w in s.recorders
    case Reclaim(w, _) => w in s.recorders && s.recorders[w].pc.Reclaiming?
    case Crash(w) => w in s.recorders && !s.recorders[w].pc.Done?
  }

  function Apply(encode: ApplyRecord -> Bytes, s: Store, a: Action): Store
    requires Enabled(s, a)
  {
    match a
    case Arrive(w, record) => s.(recorders := s.recorders[w := NewRecorder(encode, record)])
    case Step(w, answer, filled) => StepOf(s, w, answer, filled)
    case Reclaim(_, victim) => s.(files := s.files - {Part(victim)})
    case Crash(w) => At(s, w, Crashed)
  }

  // ---- What every action keeps ----------------------------------------------

  predicate Holding(pc: Pc) {
    pc.Opening? || pc.Filling? || pc.Renaming? || pc.Reclaiming? || pc.DroppingPart? || pc.Unreserving?
  }

  // One recorder against the directory: the name it holds is a name of its own
  // record, empty until published and complete from then on.
  ghost predicate RecorderOk(s: Store, w: RecorderId)
    requires w in s.recorders
  {
    var me := s.recorders[w];
    && (Holding(me.pc) ==> me.id.Some?)
    && (me.pc.Reserving? ==> me.id.None?)
    && (me.published ==> me.id.Some? && (me.pc.Reclaiming? || me.pc.Crashed? || me.pc.Done?))
    && (me.pc.Reclaiming? ==> me.published)
    && (me.pc.Done? ==> if me.pc.result.Ok? then me.published && me.id == Some(me.pc.result.value) else me.id.None?)
    && (me.pc.Renaming? && Part(w) in s.files ==> s.files[Part(w)] == me.bytes)
    && IsPlanText(me.record.plan)
    && (me.id.Some? ==>
          && (exists sequence :: 0 <= sequence < MAX_SEQUENCE
                && me.id.value == RecordName(me.record.plan, me.record.takenAt, sequence))
          && Json(me.id.value) in s.files
          && s.files[Json(me.id.value)] == if me.published then me.bytes else [])
  }

  predicate Holds(s: Store, w: RecorderId, id: string) {
    w in s.recorders && s.recorders[w].id == Some(id)
  }

  // The whole store: every record file was there from the start and is as it was,
  // or is held by exactly one recorder.
  ghost predicate Sound(encode: ApplyRecord -> Bytes, prior: map<string, Bytes>, s: Store) {
    && (forall w :: w in s.recorders ==> RecorderOk(s, w) && s.recorders[w].bytes == encode(s.recorders[w].record))
    && (forall v, w, id :: Holds(s, v, id) && Holds(s, w, id) ==> v == w)
    && (forall w, id :: Holds(s, w, id) ==> id !in prior)
    && (forall id :: id in prior ==> Json(id) in s.files && s.files[Json(id)] == prior[id])
    && (forall id :: Json(id) in s.files ==> id in prior || exists w :: Holds(s, w, id))
  }

  // What a step may touch: its own temporary file, and the name it holds before
  // or after it.
  lemma StepTouchesOwnFiles(encode: ApplyRecord -> Bytes, prior: map<string, Bytes>, s: Store, w: RecorderId,
                            answer: Answer, filled: nat)
    requires Sound(encode, prior, s) && w in s.recorders
    ensures var t := StepOf(s, w, answer, filled);
            forall name :: name != Part(w) && !(name.Json? && (Holds(s, w, name.stem) || Holds(t, w, name.stem)))
              ==> (name in t.files <==> name in s.files) && (name in s.files ==> t.files[name] == s.files[name])
  {
    hide RecordName, Sound;
  }

  // It is a step of that recorder only, which keeps its record, and its name once
  // published.
  lemma StepTouchesOwnState(encode: ApplyRecord -> Bytes, prior: map<string, Bytes>, s: Store, w: RecorderId,
                            answer: Answer, filled: nat)
    requires Sound(encode, prior, s) && w in s.recorders
    ensures var t := StepOf(s, w, answer, filled);
            && w in t.recorders && t.recorders == s.recorders[w := t.recorders[w]]
            && t.recorders[w].record == s.recorders[w].record && t.recorders[w].bytes == s.recorders[w].bytes
            && (s.recorders[w].published ==> t.recorders[w].published && t.recorders[w].id == s.recorders[w].id)
  {
    hide RecordName;
    assert RecorderOk(s, w);
    hide Sound;
  }

  // A name taken is one nobody had; the names held otherwise stay the same, but
  // for one given up, which goes from the directory too.
  lemma StepNames(encode: ApplyRecord -> Bytes, prior: map<string, Bytes>, s: Store, w: RecorderId,
                  answer: Answer, filled: nat)
    requires Sound(encode, prior, s) && w in s.recorders
    ensures var t := StepOf(s, w, answer, filled);
            && w in t.recorders
            && (forall id :: Holds(t, w, id) && !Holds(s, w, id) ==> Json(id) !in s.files)
            && (forall id :: Holds(s, w, id) && !Holds(t, w, id) ==> Json(id) !in t.files)
  {
    hide RecordName;
    assert RecorderOk(s, w);
    hide Sound;
  }

  lemma StepOwn(encode: ApplyRecord -> Bytes, prior: map<string, Bytes>, s: Store, w: RecorderId,
                answer: Answer, filled: nat)
    requires Sound(encode, prior, s) && w in s.recorders
    ensures var t := StepOf(s, w, answer, filled); w in t.recorders && RecorderOk(t, w)
  {
    hide RecordName, IsPlanText;
    assert RecorderOk(s, w);
    hide Sound;
    var me := s.recorders[w];
    if me.pc.Reserving? {
      var id := RecordName(me.record.plan, me.record.takenAt, me.pc.sequence);
      var t := StepOf(s, w, answer, filled);
      assert t.recorders[w].id.Some? ==> t.recorders[w].id.value == id && me.pc.sequence < MAX_SEQUENCE;
    }
  }

  // A recorder whose own name and temporary file are left alone, or whose
  // temporary file is taken away, still keeps its promise.
  lemma FrameKeeps(s: Store, t: Store, v: RecorderId)
    requires v in s.recorders && v in t.recorders && t.recorders[v] == s.recorders[v] && RecorderOk(s, v)
    requires Part(v) in t.files ==> Part(v) in s.files && t.files[Part(v)] == s.files[Part(v)]
    requires s.recorders[v].id.Some? ==>
               var name := Json(s.recorders[v].id.value); name in t.files && t.files[name] == s.files[name]
    ensures RecorderOk(t, v)
  {
    hide RecordName, IsPlanText;
  }

  lemma StepKeepsRecorders(encode: ApplyRecord -> Bytes, prior: map<string, Bytes>, s: Store, w: RecorderId,
                           answer: Answer, filled: nat, v: RecorderId)
    requires Sound(encode, prior, s) && w in s.recorders && v in s.recorders
    ensures var t := StepOf(s, w, answer, filled);
            v in t.recorders && RecorderOk(t, v) && t.recorders[v].bytes == encode(t.recorders[v].record)
  {
    StepTouchesOwnFiles(encode, prior, s, w, answer, filled);
    StepTouchesOwnState(encode, prior, s, w, answer, filled);
    StepNames(encode, prior, s, w, answer, filled);
    StepOwn(encode, prior, s, w, answer, filled);
    if v != w {
      var t := StepOf(s, w, answer, filled);
      assert RecorderOk(s, v);
      assert s.recorders[v].id.Some? ==>
        Holds(s, v, s.recorders[v].id.value) && Json(s.recorders[v].id.value) in s.files;
      hide RecorderOk, StepOf;
      FrameKeeps(s, t, v);
    }
  }

  // Every name in the directory stays accounted for, each by one recorder.
  lemma StepKeepsNames(encode: ApplyRecord -> Bytes, prior: map<string, Bytes>, s: Store, w: RecorderId,
                       answer: Answer, filled: nat)
    requires Sound(encode, prior, s) && w in s.recorders
    ensures var t := StepOf(s, w, answer, filled);
            && (forall u, v, id :: Holds(t, u, id) && Holds(t, v, id) ==> u == v)
            && (forall v, id :: Holds(t, v, id) ==> id !in prior)
            && (forall id :: Json(id) in t.files ==> id in prior || exists v :: Holds(t, v, id))
  {
    var t := StepOf(s, w, answer, filled);
    StepTouchesOwnFiles(encode, prior, s, w, answer, filled);
    StepTouchesOwnState(encode, prior, s, w, answer, filled);
    StepNames(encode, prior, s, w, answer, filled);
    HeldAreThere(encode, prior, s);
    hide StepOf, RecorderOk;
    assert forall v, id :: v != w ==> (Holds(t, v, id) <==> Holds(s, v, id));
    forall id | Json(id) in t.files
      ensures id in prior || exists v :: Holds(t, v, id)
    {
      if !Holds(t, w, id) && id !in prior {
        assert !Holds(s, w, id);
        var v :| Holds(s, v, id);
        assert Holds(t, v, id);
      }
    }
  }

  // What was there before stays as it was.
  lemma StepKeepsPrior(encode: ApplyRecord -> Bytes, prior: map<string, Bytes>, s: Store, w: RecorderId,
                       answer: Answer, filled: nat)
    requires Sound(encode, prior, s) && w in s.recorders
    ensures var t := StepOf(s, w, answer, filled);
            forall id :: id in prior ==> Json(id) in t.files && t.files[Json(id)] == prior[id]
  {
    StepTouchesOwnFiles(encode, prior, s, w, answer, filled);
    StepTouchesOwnState(encode, prior, s, w, answer, filled);
    StepNames(encode, prior, s, w, answer, filled);
    hide StepOf, RecorderOk;
  }

  lemma StepKeeps(encode: ApplyRecord -> Bytes, prior: map<string, Bytes>, s: Store, w: RecorderId,
                  answer: Answer, filled: nat)
    requires Sound(encode, prior, s) && w in s.recorders
    ensures Sound(encode, prior, StepOf(s, w, answer, filled))
  {
    var t := StepOf(s, w, answer, filled);
    StepTouchesOwnState(encode, prior, s, w, answer, filled);
    forall v | v in t.recorders
      ensures RecorderOk(t, v) && t.recorders[v].bytes == encode(t.recorders[v].record)
    {
      StepKeepsRecorders(encode, prior, s, w, answer, filled, v);
    }
    StepKeepsNames(encode, prior, s, w, answer, filled);
    StepKeepsPrior(encode, prior, s, w, answer, filled);
    hide StepOf, RecorderOk, Holds;
  }

  lemma HeldAreThere(encode: ApplyRecord -> Bytes, prior: map<string, Bytes>, s: Store)
    requires Sound(encode, prior, s)
    ensures forall v, id :: Holds(s, v, id) ==> Json(id) in s.files
  {
    forall v, id | Holds(s, v, id)
      ensures Json(id) in s.files
    {
      assert RecorderOk(s, v);
    }
  }

  lemma OthersKeep(encode: ApplyRecord -> Bytes, prior: map<string, Bytes>, s: Store, a: Action)
    requires Sound(encode, prior, s) && Enabled(s, a) && !a.Step?
    ensures Sound(encode, prior, Apply(encode, s, a))
  {
    var t := Apply(encode, s, a);
    forall v | v in t.recorders
      ensures RecorderOk(t, v) && t.recorders[v].bytes == encode(t.recorders[v].record)
    {
      OtherKeepsRecorder(encode, prior, s, a, v);
    }
    assert forall v, id :: Holds(t, v, id) <==> Holds(s, v, id);
    hide StepOf, RecorderOk, Holds;
  }

  lemma OtherKeepsRecorder(encode: ApplyRecord -> Bytes, prior: map<string, Bytes>, s: Store, a: Action, v: RecorderId)
    requires Sound(encode, prior, s) && Enabled(s, a) && !a.Step?
    requires v in Apply(encode, s, a).recorders
    ensures var t := Apply(encode, s, a); RecorderOk(t, v) && t.recorders[v].bytes == encode(t.recorders[v].record)
  {
    var t := Apply(encode, s, a);
    if v in s.recorders {
      assert RecorderOk(s, v);
      hide Sound;
      if t.recorders[v] == s.recorders[v] {
        FrameKeeps(s, t, v);
      }
    }
    hide StepOf, RecordName, Sound;
  }

  // Whatever happens next, crashes and reclaimed temporary files included, the
  // store stays sound.
  lemma ActionKeeps(encode: ApplyRecord -> Bytes, prior: map<string, Bytes>, s: Store, a: Action)
    requires Sound(encode, prior, s) && Enabled(s, a)
    ensures Sound(encode, prior, Apply(encode, s, a))
  {
    if a.Step? {
      StepKeeps(encode, prior, s, a.w, a.answer, a.filled);
    } else {
      OthersKeep(encode, prior, s, a);
    }
    hide Sound, StepOf;
  }

  ghost predicate Run(encode: ApplyRecord -> Bytes, s: Store, actions: seq<Action>, t: Store)
    decreases |actions|
  {
    if actions == [] then s == t
    else Enabled(s, actions[0]) && Run(encode, Apply(encode, s, actions[0]), actions[1..], t)
  }

  // The store a run starts from: records from before, and nobody recording.
  ghost predicate Start(prior: map<string, Bytes>, s: Store) {
    && s.recorders == map[]
    && (forall id :: Json(id) in s.files <==> id in prior)
    && (forall id :: id in prior ==> s.files[Json(id)] == prior[id])
  }

  lemma {:induction false} EveryRunIsSound(encode: ApplyRecord -> Bytes, prior: map<string, Bytes>, s: Store,
                                           actions: seq<Action>, t: Store)
    requires Sound(encode, prior, s) && Run(encode, s, actions, t)
    ensures Sound(encode, prior, t)
    decreases |actions|
  {
    if actions != [] {
      ActionKeeps(encode, prior, s, actions[0]);
      hide Sound, Enabled, Apply;
      EveryRunIsSound(encode, prior, Apply(encode, s, actions[0]), actions[1..], t);
    }
  }

  lemma StartIsSound(encode: ApplyRecord -> Bytes, prior: map<string, Bytes>, s: Store)
    requires Start(prior, s)
    ensures Sound(encode, prior, s)
  {
  }

  // Every record file is one from before, as it was, or belongs to one recorder's
  // record, whose name it has, and is empty or that record complete.
  lemma RecordFilesAreWhole(encode: ApplyRecord -> Bytes, prior: map<string, Bytes>, s: Store, actions: seq<Action>,
                            t: Store, id: string)
    requires Start(prior, s) && Run(encode, s, actions, t) && Json(id) in t.files
    ensures if id in prior then t.files[Json(id)] == prior[id]
            else exists w, sequence :: w in t.recorders && 0 <= sequence < MAX_SEQUENCE
                   && id == RecordName(t.recorders[w].record.plan, t.recorders[w].record.takenAt, sequence)
                   && (t.files[Json(id)] == [] || t.files[Json(id)] == encode(t.recorders[w].record))
  {
    StartIsSound(encode, prior, s);
    EveryRunIsSound(encode, prior, s, actions, t);
    hide Run, RecordName;
    if id !in prior {
      var w :| Holds(t, w, id);
      assert RecorderOk(t, w);
    }
  }

  // Ids handed out are distinct, and the file under each is that record, complete.
  lemma ReturnedIdsAreRecords(encode: ApplyRecord -> Bytes, prior: map<string, Bytes>, s: Store, actions: seq<Action>,
                              t: Store, v: RecorderId, w: RecorderId)
    requires Start(prior, s) && Run(encode, s, actions, t)
    requires v in t.recorders && t.recorders[v].pc.Done? && t.recorders[v].pc.result.Ok?
    requires w in t.recorders && t.recorders[w].pc.Done? && t.recorders[w].pc.result.Ok?
    ensures v != w ==> t.recorders[v].pc.result != t.recorders[w].pc.result
    ensures var id := t.recorders[w].pc.result.value;
            id !in prior && Json(id) in t.files && t.files[Json(id)] == encode(t.recorders[w].record)
  {
    StartIsSound(encode, prior, s);
    EveryRunIsSound(encode, prior, s, actions, t);
    hide Run, RecordName;
    assert RecorderOk(t, v) && RecorderOk(t, w);
    assert Holds(t, v, t.recorders[v].pc.result.value) && Holds(t, w, t.recorders[w].pc.result.value);
  }

  // A failed record leaves no name: every record file that was not there before
  // is held by a recorder that has not failed.
  lemma FailureLeavesNoName(encode: ApplyRecord -> Bytes, prior: map<string, Bytes>, s: Store, actions: seq<Action>,
                            t: Store, id: string)
    requires Start(prior, s) && Run(encode, s, actions, t) && Json(id) in t.files && id !in prior
    ensures exists w :: Holds(t, w, id) && !(t.recorders[w].pc.Done? && t.recorders[w].pc.result.Err?)
  {
    StartIsSound(encode, prior, s);
    EveryRunIsSound(encode, prior, s, actions, t);
    hide Run, RecordName;
    var w :| Holds(t, w, id);
    assert RecorderOk(t, w);
  }

  // A completed record is never replaced or removed, whatever anyone does next.
  lemma CompletedStays(encode: ApplyRecord -> Bytes, prior: map<string, Bytes>, s: Store, a: Action, w: RecorderId)
    requires Sound(encode, prior, s) && Enabled(s, a) && w in s.recorders && s.recorders[w].published
    ensures var t := Apply(encode, s, a);
            && w in t.recorders && t.recorders[w].published && t.recorders[w].id == s.recorders[w].id
            && t.recorders[w].record == s.recorders[w].record && s.recorders[w].id.Some?
            && Json(s.recorders[w].id.value) in t.files
            && t.files[Json(s.recorders[w].id.value)] == encode(s.recorders[w].record)
  {
    ActionKeeps(encode, prior, s, a);
    var t := Apply(encode, s, a);
    assert RecorderOk(s, w);
    if a.Step? {
      StepTouchesOwnState(encode, prior, s, a.w, a.answer, a.filled);
      hide StepOf;
    }
    assert RecorderOk(t, w);
    hide StepOf, RecordName;
  }
}
