// What every interleaving of definition writes and outside edits keeps.
module DefinitionWriterLaws {
  import opened Basics
  import opened DefinitionWriter

  // Different contents never share a digest.
  ghost predicate Injective(digest: Bytes -> Digest) {
    forall a, b :: digest(a) == digest(b) ==> a == b
  }

  // A write that has made its temporary file and not yet published it.
  predicate HoldsTemp(pc: Pc) {
    pc.Setting? || pc.Filling? || pc.Rechecking? || pc.Reopening? || pc.Refreshing? || pc.Rereading?
    || pc.Correcting? || pc.Publishing?
  }

  predicate Filled(pc: Pc) {
    HoldsTemp(pc) && !pc.Setting? && !pc.Filling?
  }

  predicate Bare(pc: Pc) {
    pc.Starting? || pc.Opening? || pc.Deciding? || pc.Creating? || pc.Done?
  }

  // The second check has passed and nothing is published yet.
  predicate Checked2(pc: Pc) {
    pc.Refreshing? || pc.Rereading? || pc.Correcting? || pc.Publishing?
  }

  // The permission rule, over what was read right before publishing; the bits of
  // the first check stand in under `Keep` for a target not read again.
  predicate ModeRight(policy: ModePolicy, mode: Bits, seen: Seen) {
    match policy
    case Keep => mode == if seen.target.Some? then seen.target.value else ModeOr(seen.first)
    case NoWiderThan =>
      && seen.source.Some?
      && mode == if seen.target.Some? then seen.target.value * seen.source.value else seen.source.value
  }

  predicate ResultRight(digest: Bytes -> Digest, writer: Writer, result: Result<Digest, WriteError>) {
    match result
    case Ok(d) =>
      && writer.landing.Some? && d == digest(writer.request.bytes)
      && writer.readBack.Some? && digest(writer.readBack.value) == d
    case Err(e) => (e == ReadBackMismatch ==> writer.landing.Some?)
                   && (writer.landing.Some? ==> e == ReadBackMismatch || e == Io)
  }

  // What the name and the permission source hold at one moment.
  datatype Sight = Sight(found: Fingerprint, bits: Option<Bits>, source: Option<Bits>)

  function SightOf(digest: Bytes -> Digest, s: World): Sight {
    Sight(FingerprintOf(digest, s, s.target), ModeOfTarget(s), s.source)
  }

  // What one write promises at every moment, given its temporary file and what
  // the name holds.
  predicate WriterOk(digest: Bytes -> Digest, writer: Writer, temp: Option<Inode>, sight: Sight) {
    var pc, request := writer.pc, writer.request;
    && (Bare(pc) ==> temp.None?)
    && (HoldsTemp(pc) ==> temp.Some?)
    && (Filled(pc) ==> temp.Some? && temp.value.content == request.bytes)
    && (!pc.Starting? && !pc.Done? ==> !request.expected.SymlinkTo? && !request.expected.Irregular?)
    && (pc.ReadingBack? || pc.OpeningBack? ==> writer.landing.Some?)
    && ((Bare(pc) && !pc.Done?) || HoldsTemp(pc) ==> writer.landing.None?)
    && SightOk(writer, sight)
    && ModesOk(writer, temp)
    && (writer.landing.Some? ==> LandingOk(writer, writer.landing.value))
    && (pc.Cleaning? ==> ResultRight(digest, writer, pc.result))
    && (pc.Done? ==> ResultRight(digest, writer, pc.result))
  }

  predicate LandingOk(writer: Writer, landing: Landing) {
    var expected, seen := writer.request.expected, writer.seen;
    && (expected == Absent ==> landing.replaced == Absent && seen.first.None? && seen.target.None?)
    && (expected != Absent && !seen.raced ==> (landing.replaced == expected <==> !seen.viaSpecial))
    && (expected.Sha256? && !seen.raced ==> (landing.bits.Some? <==> !seen.viaSpecial))
    && (expected.Sha256? && !seen.raced && !seen.viaSpecial ==>
          seen.first.Some? && seen.target == if seen.statFailed then None else landing.bits)
    && ModeRight(writer.request.policy, landing.mode, seen)
  }

  // The bits of the target have been read again.
  predicate Refreshed(pc: Pc) {
    pc.Rereading? || pc.Correcting? || pc.Publishing?
  }

  // What the last looks at the name and the source saw still holds, unless
  // somebody else changed it since.
  predicate SightOk(writer: Writer, sight: Sight) {
    var pc := writer.pc;
    && (Checked2(pc) && !writer.seen.raced ==>
          sight.found == if writer.seen.viaSpecial then Irregular else writer.request.expected)
    && (Checked2(pc) && writer.seen.viaSpecial ==> writer.request.expected.Sha256?)
    && (Checked2(pc) && !writer.seen.raced && writer.request.expected.Sha256? ==>
          (sight.bits.Some? <==> !writer.seen.viaSpecial))
    && (Refreshed(pc) && writer.request.expected.Sha256? && !writer.seen.raced && !writer.seen.statFailed ==>
          writer.seen.target == sight.bits)
    && (Refreshed(pc) && (writer.seen.statFailed || writer.request.expected == Absent) ==> writer.seen.target.None?)
    && ((pc.Correcting? || pc.Publishing?) && !writer.seen.sourceMoved ==> writer.seen.source == sight.source)
  }

  // The bits the temporary file is made with go back to the first check.
  predicate InitialOk(writer: Writer, initial: Option<Bits>) {
    && (writer.request.policy == Keep ==> initial == writer.seen.first)
    && FirstOk(writer)
  }

  predicate FirstOk(writer: Writer) {
    && (writer.request.expected.Sha256? ==> writer.seen.first.Some?)
    && (writer.request.expected == Absent ==> writer.seen.first.None?)
  }

  // How the permission bits are arrived at, up to the publishing step.
  predicate ModesOk(writer: Writer, temp: Option<Inode>) {
    var pc, policy := writer.pc, writer.request.policy;
    match pc
    case Deciding(current) =>
      && (writer.request.expected.Sha256? ==> current.Some?)
      && (writer.request.expected == Absent ==> current.None?)
    case Creating(initial) => InitialOk(writer, initial)
    case Setting(initial) =>
      && temp.Some? && temp.value == Inode([], if initial.Some? then OWNER_ONLY else DEFAULT_MODE)
      && InitialOk(writer, initial)
    case Filling(initial) => temp.Some? && temp.value.mode == ModeOr(initial) && InitialOk(writer, initial)
    case Rechecking(initial) => temp.Some? && temp.value.mode == ModeOr(initial) && InitialOk(writer, initial)
    case Reopening(initial) => temp.Some? && temp.value.mode == ModeOr(initial) && InitialOk(writer, initial)
    case Refreshing(initial) => temp.Some? && temp.value.mode == ModeOr(initial) && InitialOk(writer, initial)
    case Rereading(initial, current) =>
      && temp.Some? && temp.value.mode == ModeOr(initial) && InitialOk(writer, initial)
      && writer.seen.target == current
    case Correcting(initial, latest) =>
      && temp.Some? && temp.value.mode == ModeOr(initial) && InitialOk(writer, initial)
      && PublishedMode(policy, writer.seen.target, writer.seen.source) == Ok(latest)
    case Publishing =>
      && temp.Some? && ModeRight(policy, temp.value.mode, writer.seen)
      && FirstOk(writer)
    case _ => true
  }

  function TempOf(s: World, w: WriterId): Option<Inode> {
    if w in s.temps && s.temps[w] in s.inodes then Some(s.inodes[s.temps[w]]) else None
  }

  // The directory itself: temporary names are distinct files nobody else has.
  ghost predicate Tidy(s: World) {
    && (forall w :: w in s.temps ==> w in s.writers && s.temps[w] in s.inodes)
    && (forall v, w :: v in s.temps && w in s.temps && v != w ==> s.temps[v] != s.temps[w])
    && (s.target.File? ==> s.target.ino in s.inodes)
    && (forall w :: w in s.temps && w in s.writers && s.writers[w].landing.None? ==> s.target != File(s.temps[w]))
  }

  // The last write to land is what the name holds, whole.
  predicate LandedWhole(s: World) {
    match s.origin
    case Outside => true
    case By(w) =>
      && w in s.writers && s.writers[w].landing.Some?
      && s.target.File? && s.target.ino in s.inodes && s.inodes[s.target.ino].content == s.writers[w].request.bytes
  }

  ghost predicate Safe(digest: Bytes -> Digest, s: World) {
    && Tidy(s)
    && LandedWhole(s)
    && forall w :: w in s.writers ==> WriterOk(digest, s.writers[w], TempOf(s, w), SightOf(digest, s))
  }

  ghost predicate Start(s: World) {
    && s.writers == map[] && s.temps == map[] && s.origin == Outside && s.creates == 0 && s.removals == 0
    && (s.target.File? ==> s.target.ino in s.inodes)
  }

  // `t` is where the actions, each possible when its turn comes, lead from `s`.
  ghost predicate Run(digest: Bytes -> Digest, s: World, actions: seq<Action>, t: World)
    decreases |actions|
  {
    if actions == [] then s == t
    else Enabled(s, actions[0]) && Run(digest, Apply(digest, s, actions[0]), actions[1..], t)
  }

  // ---- One write's own step ------------------------------------------------

  // Each look keeps the write's promise.
  lemma StartKeeps(digest: Bytes -> Digest, s: World, writer: Writer, temp: Option<Inode>, answer: Answer)
    requires writer.pc.Starting? && (s.target.File? ==> s.target.ino in s.inodes)
    requires WriterOk(digest, writer, temp, SightOf(digest, s))
    ensures WriterOk(digest, FirstCheck(digest, s, writer, answer), temp, SightOf(digest, s))
  {
  }

  lemma OpenKeeps(digest: Bytes -> Digest, s: World, writer: Writer, temp: Option<Inode>, answer: Answer)
    requires writer.pc.Opening? && (s.target.File? ==> s.target.ino in s.inodes)
    requires WriterOk(digest, writer, temp, SightOf(digest, s))
    ensures WriterOk(digest, FirstCheck(digest, s, writer, answer), temp, SightOf(digest, s))
  {
  }

  lemma DecideKeeps(digest: Bytes -> Digest, s: World, writer: Writer, temp: Option<Inode>, answer: Answer)
    requires writer.pc.Deciding? && (s.target.File? ==> s.target.ino in s.inodes)
    requires WriterOk(digest, writer, temp, SightOf(digest, s))
    ensures WriterOk(digest, FirstCheck(digest, s, writer, answer), temp, SightOf(digest, s))
  {
  }

  lemma RecheckKeeps(digest: Bytes -> Digest, s: World, writer: Writer, temp: Option<Inode>, answer: Answer)
    requires writer.pc.Rechecking? && (s.target.File? ==> s.target.ino in s.inodes)
    requires WriterOk(digest, writer, temp, SightOf(digest, s))
    ensures WriterOk(digest, SecondCheck(digest, s, writer, answer), temp, SightOf(digest, s))
  {
  }

  lemma ReopenKeeps(digest: Bytes -> Digest, s: World, writer: Writer, temp: Option<Inode>, answer: Answer)
    requires writer.pc.Reopening? && (s.target.File? ==> s.target.ino in s.inodes)
    requires WriterOk(digest, writer, temp, SightOf(digest, s))
    ensures WriterOk(digest, SecondCheck(digest, s, writer, answer), temp, SightOf(digest, s))
  {
  }

  lemma RefreshKeeps(digest: Bytes -> Digest, s: World, writer: Writer, temp: Option<Inode>, answer: Answer)
    requires writer.pc.Refreshing? && (s.target.File? ==> s.target.ino in s.inodes)
    requires WriterOk(digest, writer, temp, SightOf(digest, s))
    ensures WriterOk(digest, RefreshMode(s, writer, answer), temp, SightOf(digest, s))
  {
  }

  lemma RereadKeeps(digest: Bytes -> Digest, s: World, writer: Writer, temp: Option<Inode>, answer: Answer)
    requires writer.pc.Rereading? && (s.target.File? ==> s.target.ino in s.inodes)
    requires WriterOk(digest, writer, temp, SightOf(digest, s))
    ensures WriterOk(digest, RefreshMode(s, writer, answer), temp, SightOf(digest, s))
  {
  }

  lemma ReadBackKeeps(digest: Bytes -> Digest, s: World, writer: Writer, temp: Option<Inode>, answer: Answer)
    requires writer.pc.ReadingBack? && (s.target.File? ==> s.target.ino in s.inodes)
    requires WriterOk(digest, writer, temp, SightOf(digest, s))
    ensures WriterOk(digest, ReadBack(digest, s, writer, answer), temp, SightOf(digest, s))
  {
  }

  lemma OpenBackKeeps(digest: Bytes -> Digest, s: World, writer: Writer, temp: Option<Inode>, answer: Answer)
    requires writer.pc.OpeningBack? && (s.target.File? ==> s.target.ino in s.inodes)
    requires WriterOk(digest, writer, temp, SightOf(digest, s))
    ensures WriterOk(digest, ReadBack(digest, s, writer, answer), temp, SightOf(digest, s))
  {
  }

  // A step that only looks keeps the write's promise.
  lemma LookKeeps(digest: Bytes -> Digest, s: World, writer: Writer, temp: Option<Inode>, answer: Answer)
    requires IsLook(writer.pc)
    requires s.target.File? ==> s.target.ino in s.inodes
    requires WriterOk(digest, writer, temp, SightOf(digest, s))
    ensures WriterOk(digest, Look(digest, s, writer, answer), temp, SightOf(digest, s))
    ensures Look(digest, s, writer, answer).request == writer.request
    ensures Look(digest, s, writer, answer).landing == writer.landing
  {
    hide FirstCheck, SecondCheck, RefreshMode, ReadBack, WriterOk, SightOf;
    if !Goes(answer) && !writer.pc.Refreshing? {
      IoKeeps(digest, writer, temp, SightOf(digest, s));
    } else {
      match writer.pc
      case Starting => StartKeeps(digest, s, writer, temp, answer);
      case Opening(_) => OpenKeeps(digest, s, writer, temp, answer);
      case Deciding(_) => DecideKeeps(digest, s, writer, temp, answer);
      case Rechecking(_) => RecheckKeeps(digest, s, writer, temp, answer);
      case Reopening(_) => ReopenKeeps(digest, s, writer, temp, answer);
      case Refreshing(_) => RefreshKeeps(digest, s, writer, temp, answer);
      case Rereading(_, _) => RereadKeeps(digest, s, writer, temp, answer);
      case ReadingBack => ReadBackKeeps(digest, s, writer, temp, answer);
      case OpeningBack => OpenBackKeeps(digest, s, writer, temp, answer);
    }
  }

  lemma IoKeeps(digest: Bytes -> Digest, writer: Writer, temp: Option<Inode>, sight: Sight)
    requires IsLook(writer.pc) && WriterOk(digest, writer, temp, sight)
    ensures WriterOk(digest, Refuse(writer, Io), temp, sight)
    ensures Refuse(writer, Io).request == writer.request && Refuse(writer, Io).landing == writer.landing
  {
  }

  // Anyone else's change of the name, or of a published file, leaves a write's
  // promise standing.
  lemma RacedKeeps(digest: Bytes -> Digest, writer: Writer, temp: Option<Inode>, sight: Sight,
                   left: Option<Inode>, now: Sight)
    requires WriterOk(digest, writer, temp, sight)
    requires left == temp || (writer.landing.Some? && left.Some? == temp.Some?)
    requires now.source == sight.source
    ensures WriterOk(digest, if writer.landing.Some? then writer else Late(writer), left, now)
    ensures now == sight ==> WriterOk(digest, writer, left, now)
  {
  }

  lemma SourceMovedKeeps(digest: Bytes -> Digest, writer: Writer, temp: Option<Inode>, sight: Sight,
                         source: Option<Bits>)
    requires WriterOk(digest, writer, temp, sight)
    ensures WriterOk(digest,
                     if writer.landing.Some? then writer else writer.(seen := writer.seen.(sourceMoved := true)),
                     temp, sight.(source := source))
  {
  }

  // Whether this step of `w` is the one that publishes.
  predicate Publishes(digest: Bytes -> Digest, s: World, w: WriterId, answer: Answer, ino: Ino, filled: nat)
    requires w in s.writers
  {
    var t := StepOf(digest, s, w, answer, ino, filled);
    s.writers[w].pc.Publishing? && w in t.writers && t.writers[w].landing.Some?
  }

  // The step that publishes puts the write's own complete file at the name, and
  // a create does so only when the name is free.
  lemma PublishingPutsWholeFile(digest: Bytes -> Digest, s: World, w: WriterId, answer: Answer, ino: Ino, filled: nat)
    requires Safe(digest, s) && Enabled(s, Step(w, answer, ino, filled))
    requires Publishes(digest, s, w, answer, ino, filled)
    ensures var t := StepOf(digest, s, w, answer, ino, filled);
            && w in s.temps && t.target == File(s.temps[w]) && t.inodes == s.inodes
            && t.inodes[s.temps[w]] == Inode(s.writers[w].request.bytes, t.writers[w].landing.value.mode)
            && t.origin == By(w) && t.removals == s.removals
            && (s.writers[w].request.expected == Absent ==> s.target == Nothing && t.creates == s.creates + 1)
            && (s.writers[w].request.expected != Absent ==> !s.target.Directory? && t.creates == s.creates)
  {
    hide Look, ModesOk, SightOk, ResultRight, LandedWhole, FingerprintOf;
  }

  // Every other step leaves the name and every file that is not the write's own
  // temporary file exactly as they were.
  lemma OtherStepsTouchNothing(digest: Bytes -> Digest, s: World, w: WriterId, answer: Answer, ino: Ino, filled: nat)
    requires Safe(digest, s) && Enabled(s, Step(w, answer, ino, filled))
    requires !Publishes(digest, s, w, answer, ino, filled)
    ensures var t := StepOf(digest, s, w, answer, ino, filled);
            && t.target == s.target && t.origin == s.origin && t.creates == s.creates && t.removals == s.removals
            && (forall i :: i in s.inodes ==> i in t.inodes)
            && (forall i :: i in s.inodes && !(HoldsTemp(s.writers[w].pc) && w in s.temps && s.temps[w] == i) ==>
                  t.inodes[i] == s.inodes[i])
  {
    hide Look, ModesOk, SightOk, ResultRight, LandedWhole, FingerprintOf;
    assert s.writers[w].pc.Publishing? ==> s.writers[w].landing.None?;
    hide Safe, WriterOk;
  }

  // Nor does it touch another write or its temporary name.
  lemma OtherStepsKeepOtherWrites(digest: Bytes -> Digest, s: World, w: WriterId, answer: Answer, ino: Ino, filled: nat)
    requires Safe(digest, s) && Enabled(s, Step(w, answer, ino, filled))
    requires !Publishes(digest, s, w, answer, ino, filled)
    ensures var t := StepOf(digest, s, w, answer, ino, filled);
            && w in t.writers && t.writers == s.writers[w := t.writers[w]]
            && t.temps - {w} == s.temps - {w}
  {
    hide Look, ModesOk, SightOk, ResultRight, LandedWhole, FingerprintOf;
    assert s.writers[w].pc.Publishing? ==> s.writers[w].landing.None?;
    hide Safe, WriterOk, Refuse, Tidy;
  }

  // Each step on the temporary file keeps the write's promise.
  lemma SetKeeps(digest: Bytes -> Digest, writer: Writer, temp: Inode, sight: Sight, answer: Answer, filled: nat)
    requires writer.pc.Setting? && WriterOk(digest, writer, Some(temp), sight)
    ensures var step := OnTemp(writer, temp, answer, filled); WriterOk(digest, step.0, Some(step.1), sight)
  {
  }

  lemma FillKeeps(digest: Bytes -> Digest, writer: Writer, temp: Inode, sight: Sight, answer: Answer, filled: nat)
    requires writer.pc.Filling? && WriterOk(digest, writer, Some(temp), sight)
    ensures var step := OnTemp(writer, temp, answer, filled); WriterOk(digest, step.0, Some(step.1), sight)
  {
  }

  lemma CorrectKeeps(digest: Bytes -> Digest, writer: Writer, temp: Inode, sight: Sight, answer: Answer, filled: nat)
    requires writer.pc.Correcting? && WriterOk(digest, writer, Some(temp), sight)
    ensures var step := OnTemp(writer, temp, answer, filled); WriterOk(digest, step.0, Some(step.1), sight)
  {
  }

  lemma OnTempKeeps(digest: Bytes -> Digest, writer: Writer, temp: Inode, sight: Sight, answer: Answer, filled: nat)
    requires writer.pc.Setting? || writer.pc.Filling? || writer.pc.Correcting?
    requires WriterOk(digest, writer, Some(temp), sight)
    ensures var step := OnTemp(writer, temp, answer, filled);
            && step.0.request == writer.request && step.0.landing == writer.landing
            && WriterOk(digest, step.0, Some(step.1), sight)
  {
    hide WriterOk, OnTemp;
    match writer.pc
    case Setting(_) => SetKeeps(digest, writer, temp, sight, answer, filled);
    case Filling(_) => FillKeeps(digest, writer, temp, sight, answer, filled);
    case Correcting(_, _) => CorrectKeeps(digest, writer, temp, sight, answer, filled);
  }

  // Giving up before publishing keeps the write's promise, whatever the reason.
  lemma RefuseKeeps(digest: Bytes -> Digest, writer: Writer, temp: Option<Inode>, sight: Sight, error: WriteError)
    requires writer.pc.Creating? || writer.pc.Publishing?
    requires error != ReadBackMismatch && WriterOk(digest, writer, temp, sight)
    ensures WriterOk(digest, Refuse(writer, error), temp, sight)
  {
  }

  // Publishing keeps the write's promise: what it replaced is what it expected,
  // unless the name changed after the second check.
  lemma PublishedKeeps(digest: Bytes -> Digest, writer: Writer, temp: Inode, sight: Sight,
                       left: Option<Inode>, now: Sight)
    requires writer.pc.Publishing? && WriterOk(digest, writer, Some(temp), sight)
    requires writer.request.expected == Absent ==> sight.found == Absent
    ensures WriterOk(digest, WithPc(writer, ReadingBack).(
                         landing := Some(Landing(sight.found, sight.bits, temp.mode))), left, now)
  {
  }

  // A write's own promise survives its own step.
  ghost predicate OwnKept(digest: Bytes -> Digest, s: World, t: World, w: WriterId)
    requires w in s.writers
  {
    && w in t.writers && t.writers[w].request == s.writers[w].request
    && (s.writers[w].landing.Some? ==> t.writers[w].landing.Some?)
    && WriterOk(digest, t.writers[w], TempOf(t, w), SightOf(digest, t))
  }

  lemma OwnPublishKeeps(digest: Bytes -> Digest, s: World, w: WriterId, answer: Answer)
    requires Safe(digest, s) && w in s.writers && s.writers[w].pc.Publishing?
    requires w in s.temps && s.temps[w] in s.inodes
    ensures OwnKept(digest, s, Publish(digest, s, w, answer), w)
  {
    var writer, temp, sight := s.writers[w], s.inodes[s.temps[w]], SightOf(digest, s);
    assert WriterOk(digest, writer, Some(temp), sight);
    RefuseKeeps(digest, writer, Some(temp), sight, Io);
    RefuseKeeps(digest, writer, Some(temp), sight, Stale);
    RefuseKeeps(digest, writer, Some(temp), sight, ExclusiveCreateRefused);
    var t := Publish(digest, s, w, answer);
    if writer.request.expected == Absent ==> sight.found == Absent {
      PublishedKeeps(digest, writer, temp, sight, TempOf(t, w), SightOf(digest, t));
    }
    hide WriterOk, Safe, Tidy;
  }

  lemma OwnStepKeeps(digest: Bytes -> Digest, s: World, w: WriterId, answer: Answer, ino: Ino, filled: nat)
    requires Safe(digest, s) && Enabled(s, Step(w, answer, ino, filled))
    ensures OwnKept(digest, s, StepOf(digest, s, w, answer, ino, filled), w)
  {
    hide Look, Publish, OnTemp;
    var writer, temp, sight := s.writers[w], TempOf(s, w), SightOf(digest, s);
    if IsLook(writer.pc) {
      LookKeeps(digest, s, writer, temp, answer);
      hide WriterOk;
    } else if writer.pc.Publishing? {
      OwnPublishKeeps(digest, s, w, answer);
      hide WriterOk;
    } else if writer.pc.Creating? {
      OwnStartKeeps(digest, s, w, answer, ino, filled);
      hide WriterOk;
    } else if writer.pc.Cleaning? || writer.pc.Done? {
      OwnEndKeeps(digest, s, w, answer, ino, filled);
      hide WriterOk;
    } else {
      OnTempKeeps(digest, writer, temp.value, sight, answer, filled);
      hide WriterOk;
    }
  }

  // Making the temporary file keeps the write's promise ...
  lemma OwnStartKeeps(digest: Bytes -> Digest, s: World, w: WriterId, answer: Answer, ino: Ino, filled: nat)
    requires Safe(digest, s) && Enabled(s, Step(w, answer, ino, filled)) && s.writers[w].pc.Creating?
    ensures OwnKept(digest, s, StepOf(digest, s, w, answer, ino, filled), w)
  {
    hide Look, Publish, OnTemp;
  }

  // ... and so does removing it.
  lemma OwnEndKeeps(digest: Bytes -> Digest, s: World, w: WriterId, answer: Answer, ino: Ino, filled: nat)
    requires Safe(digest, s) && Enabled(s, Step(w, answer, ino, filled))
    requires s.writers[w].pc.Cleaning? || s.writers[w].pc.Done?
    ensures OwnKept(digest, s, StepOf(digest, s, w, answer, ino, filled), w)
  {
    hide Look, Publish, OnTemp;
  }

  // ---- Every action keeps every promise --------------------------------------

  ghost predicate AllOk(digest: Bytes -> Digest, s: World) {
    forall w :: w in s.writers ==> WriterOk(digest, s.writers[w], TempOf(s, w), SightOf(digest, s))
  }

  // A directory stays tidy when only `w` may have gained or lost its temporary name.
  lemma TidyFrame(s: World, t: World, w: WriterId, ino: Ino)
    requires Tidy(s) && ino !in s.inodes && t.target == s.target
    requires s.inodes.Keys <= t.inodes.Keys && t.writers.Keys == s.writers.Keys
    requires w in s.writers && (s.writers[w].landing.Some? ==> t.writers[w].landing.Some?)
    requires forall v :: v in s.writers && v != w ==> t.writers[v] == s.writers[v]
    requires forall v :: v != w && v in t.temps ==> v in s.temps && t.temps[v] == s.temps[v]
    requires w in t.temps ==> t.temps[w] in t.inodes && t.temps[w] == if w in s.temps then s.temps[w] else ino
    ensures Tidy(t)
  {
    assert forall v :: v in t.temps && v != w ==> t.temps[v] in s.inodes;
  }

  lemma QuietStepTidy(digest: Bytes -> Digest, s: World, w: WriterId, answer: Answer, ino: Ino, filled: nat)
    requires Safe(digest, s) && Enabled(s, Step(w, answer, ino, filled))
    requires !Publishes(digest, s, w, answer, ino, filled)
    ensures Tidy(StepOf(digest, s, w, answer, ino, filled))
  {
    OtherStepsTouchNothing(digest, s, w, answer, ino, filled);
    OtherStepsKeepOtherWrites(digest, s, w, answer, ino, filled);
    OwnStepKeeps(digest, s, w, answer, ino, filled);
    TempsAfter(digest, s, w, answer, ino, filled);
    var t := StepOf(digest, s, w, answer, ino, filled);
    hide WriterOk, StepOf, Publishes, LandedWhole, FingerprintOf, TempOf, Tidy, TempOf;
    forall v | v != w && v in t.temps
      ensures v in s.temps && t.temps[v] == s.temps[v]
    {
      assert v in t.temps - {w};
      assert (t.temps - {w})[v] == (s.temps - {w})[v];
    }
    TidyFrame(s, t, w, ino);
  }

  lemma QuietStepLandedWhole(digest: Bytes -> Digest, s: World, w: WriterId, answer: Answer, ino: Ino, filled: nat)
    requires Safe(digest, s) && Enabled(s, Step(w, answer, ino, filled))
    requires !Publishes(digest, s, w, answer, ino, filled)
    ensures LandedWhole(StepOf(digest, s, w, answer, ino, filled))
  {
    OtherStepsTouchNothing(digest, s, w, answer, ino, filled);
    OtherStepsKeepOtherWrites(digest, s, w, answer, ino, filled);
    OwnStepKeeps(digest, s, w, answer, ino, filled);
    TempsAfter(digest, s, w, answer, ino, filled);
    hide WriterOk, StepOf, Publishes, FingerprintOf, TempOf;
  }

  // Where the write's temporary name leads after its step.
  lemma TempsAfter(digest: Bytes -> Digest, s: World, w: WriterId, answer: Answer, ino: Ino, filled: nat)
    requires Safe(digest, s) && Enabled(s, Step(w, answer, ino, filled))
    ensures var t := StepOf(digest, s, w, answer, ino, filled);
            && (w in t.temps ==> t.temps[w] in t.inodes)
            && (w in t.temps ==> if w in s.temps then t.temps[w] == s.temps[w] else t.temps[w] == ino)
            && (w in t.temps && w !in s.temps ==> s.writers[w].pc.Creating? && s.writers[w].landing.None?)
            && (HoldsTemp(s.writers[w].pc) ==> w in s.temps && s.writers[w].landing.None?)
  {
    hide Look, ModesOk, ResultRight, OnTemp, LandedWhole;
  }

  lemma QuietStepKeepsOthers(digest: Bytes -> Digest, s: World, w: WriterId, answer: Answer, ino: Ino, filled: nat)
    requires Safe(digest, s) && Enabled(s, Step(w, answer, ino, filled))
    requires !Publishes(digest, s, w, answer, ino, filled)
    ensures AllOk(digest, StepOf(digest, s, w, answer, ino, filled))
  {
    var t := StepOf(digest, s, w, answer, ino, filled);
    OtherStepsTouchNothing(digest, s, w, answer, ino, filled);
    OtherStepsKeepOtherWrites(digest, s, w, answer, ino, filled);
    OwnStepKeeps(digest, s, w, answer, ino, filled);
    TempsAfter(digest, s, w, answer, ino, filled);
    hide WriterOk, StepOf, Publishes;
    forall v | v in t.writers
      ensures WriterOk(digest, t.writers[v], TempOf(t, v), SightOf(digest, t))
    {
      if v != w {
        assert v in t.temps - {w} <==> v in s.temps - {w};
        assert TempOf(t, v) == TempOf(s, v);
        assert SightOf(digest, t) == SightOf(digest, s);
      }
    }
  }

  lemma NotPublishedYet(digest: Bytes -> Digest, s: World, w: WriterId)
    requires Safe(digest, s) && w in s.writers && s.writers[w].pc.Publishing?
    ensures s.writers[w].landing.None?
  {
  }

  // Publishing takes at most the write's own temporary name away, and only
  // marks the other writes.
  lemma PublishMarks(digest: Bytes -> Digest, s: World, w: WriterId, answer: Answer)
    requires w in s.writers && w in s.temps && s.temps[w] in s.inodes && s.writers[w].landing.None?
    ensures var t := Publish(digest, s, w, answer);
            w in t.writers && t.writers[w].landing.Some? ==>
              && t.writers.Keys == s.writers.Keys
              && (forall v :: v in t.temps ==> v in s.temps && t.temps[v] == s.temps[v])
              && (forall v :: v != w && v in s.temps ==> v in t.temps)
              && (forall v :: v != w && v in s.writers ==>
                    t.writers[v] == if s.writers[v].landing.Some? then s.writers[v] else Late(s.writers[v]))
  {
    hide FingerprintOf;
  }

  lemma PublishingMarksOthers(digest: Bytes -> Digest, s: World, w: WriterId, answer: Answer, ino: Ino, filled: nat)
    requires Safe(digest, s) && Enabled(s, Step(w, answer, ino, filled))
    requires Publishes(digest, s, w, answer, ino, filled)
    ensures var t := StepOf(digest, s, w, answer, ino, filled);
            && t.writers.Keys == s.writers.Keys
            && (forall v :: v in t.temps ==> v in s.temps && t.temps[v] == s.temps[v])
            && (forall v :: v != w && v in s.temps ==> v in t.temps)
            && (forall v :: v != w && v in s.writers ==>
                  t.writers[v] == if s.writers[v].landing.Some? then s.writers[v] else Late(s.writers[v]))
  {
    hide WriterOk, LandedWhole, Look, OnTemp, Publish, FingerprintOf;
    NotPublishedYet(digest, s, w);
    if w in s.temps && s.temps[w] in s.inodes {
      PublishMarks(digest, s, w, answer);
    }
    hide Safe, Tidy;
  }

  lemma PublishingKeepsTidy(digest: Bytes -> Digest, s: World, w: WriterId, answer: Answer, ino: Ino, filled: nat)
    requires Safe(digest, s) && Enabled(s, Step(w, answer, ino, filled))
    requires Publishes(digest, s, w, answer, ino, filled)
    ensures var t := StepOf(digest, s, w, answer, ino, filled); Tidy(t) && LandedWhole(t)
  {
    PublishingPutsWholeFile(digest, s, w, answer, ino, filled);
    PublishingMarksOthers(digest, s, w, answer, ino, filled);
    OwnStepKeeps(digest, s, w, answer, ino, filled);
    var t := StepOf(digest, s, w, answer, ino, filled);
    assert t.writers[w].landing.Some?;
    hide WriterOk, StepOf, Publishes, FingerprintOf, TempOf;
  }

  lemma PublishingKeepsOthers(digest: Bytes -> Digest, s: World, w: WriterId, answer: Answer, ino: Ino, filled: nat)
    requires Safe(digest, s) && Enabled(s, Step(w, answer, ino, filled))
    requires Publishes(digest, s, w, answer, ino, filled)
    ensures AllOk(digest, StepOf(digest, s, w, answer, ino, filled))
  {
    var t := StepOf(digest, s, w, answer, ino, filled);
    PublishingPutsWholeFile(digest, s, w, answer, ino, filled);
    PublishingMarksOthers(digest, s, w, answer, ino, filled);
    OwnStepKeeps(digest, s, w, answer, ino, filled);
    hide WriterOk, StepOf, Publishes, FingerprintOf, LandedWhole, Tidy;
    forall v | v in t.writers
      ensures WriterOk(digest, t.writers[v], TempOf(t, v), SightOf(digest, t))
    {
      if v != w {
        assert TempOf(t, v) == TempOf(s, v);
        RacedKeeps(digest, s.writers[v], TempOf(s, v), SightOf(digest, s),
                   TempOf(t, v), SightOf(digest, t));
      }
    }
  }

  lemma EditKeepsTidy(digest: Bytes -> Digest, s: World, a: Action)
    requires Safe(digest, s) && Enabled(s, a) && !a.Step?
    ensures var t := Apply(digest, s, a); Tidy(t) && LandedWhole(t)
  {
    hide WriterOk, StepOf, FingerprintOf;
  }

  lemma EditKeeps(digest: Bytes -> Digest, s: World, a: Action)
    requires Safe(digest, s) && Enabled(s, a) && !a.Step?
    ensures Safe(digest, Apply(digest, s, a))
  {
    var t := Apply(digest, s, a);
    EditKeepsTidy(digest, s, a);
    hide WriterOk, StepOf, LandedWhole;
    if a.Arrive? {
      ArrivesOk(digest, a.request, SightOf(digest, t));
      assert forall v :: v in s.writers ==> TempOf(t, v) == TempOf(s, v);
    } else if a.EditSource? {
      forall v | v in t.writers
        ensures WriterOk(digest, t.writers[v], TempOf(t, v), SightOf(digest, t))
      {
        SourceMovedKeeps(digest, s.writers[v], TempOf(s, v), SightOf(digest, s), a.source);
      }
    } else {
      forall v | v in t.writers
        ensures WriterOk(digest, t.writers[v], TempOf(t, v), SightOf(digest, t))
      {
        RacedKeeps(digest, s.writers[v], TempOf(s, v), SightOf(digest, s),
                   TempOf(t, v), SightOf(digest, t));
      }
    }
  }

  lemma ArrivesOk(digest: Bytes -> Digest, request: Request, sight: Sight)
    ensures WriterOk(digest, NewWriter(request), None, sight)
  {
  }

  // Whatever happens next, every promise stands.
  lemma ActionKeeps(digest: Bytes -> Digest, s: World, a: Action)
    requires Safe(digest, s) && Enabled(s, a)
    ensures Safe(digest, Apply(digest, s, a))
  {
    if !a.Step? {
      EditKeeps(digest, s, a);
    } else if Publishes(digest, s, a.w, a.answer, a.ino, a.filled) {
      PublishingKeepsTidy(digest, s, a.w, a.answer, a.ino, a.filled);
      PublishingKeepsOthers(digest, s, a.w, a.answer, a.ino, a.filled);
    } else {
      QuietStepTidy(digest, s, a.w, a.answer, a.ino, a.filled);
      QuietStepLandedWhole(digest, s, a.w, a.answer, a.ino, a.filled);
      QuietStepKeepsOthers(digest, s, a.w, a.answer, a.ino, a.filled);
    }
    hide WriterOk, StepOf, Publishes, Tidy, LandedWhole;
  }

  // In every run of any number of writes and outside edits, every promise stands
  // at the end, and so, runs being closed under prefixes, at every moment.
  lemma {:induction false} EveryRunIsSafe(digest: Bytes -> Digest, s: World, actions: seq<Action>, t: World)
    requires Safe(digest, s) && Run(digest, s, actions, t)
    ensures Safe(digest, t)
    decreases |actions|
  {
    if actions != [] {
      ActionKeeps(digest, s, actions[0]);
      EveryRunIsSafe(digest, Apply(digest, s, actions[0]), actions[1..], t);
    }
  }

  // ---- What the writes promise ------------------------------------------------

  lemma StartIsSafe(digest: Bytes -> Digest, s: World)
    requires Start(s)
    ensures Safe(digest, s)
  {
  }

  // `Ok` is returned only for a published write whose name was then read back
  // holding exactly the bytes asked for.
  lemma OkMeansWritten(digest: Bytes -> Digest, s: World, actions: seq<Action>, t: World, w: WriterId)
    requires Injective(digest) && Start(s) && Run(digest, s, actions, t)
    requires w in t.writers && t.writers[w].pc.Done? && t.writers[w].pc.result.Ok?
    ensures t.writers[w].landing.Some? && t.writers[w].readBack == Some(t.writers[w].request.bytes)
    ensures t.writers[w].pc.result == Ok(digest(t.writers[w].request.bytes))
  {
    StartIsSafe(digest, s);
    EveryRunIsSafe(digest, s, actions, t);
    hide Run;
  }

  // A finished write leaves no temporary name, and no refusal but a failed read
  // back comes after the write was published.
  lemma FinishedIsClean(digest: Bytes -> Digest, s: World, actions: seq<Action>, t: World, w: WriterId)
    requires Start(s) && Run(digest, s, actions, t)
    requires w in t.writers && t.writers[w].pc.Done?
    ensures w !in t.temps
    ensures var result := t.writers[w].pc.result;
            result.Err? && result.error != Io ==> (t.writers[w].landing.Some? <==> result.error == ReadBackMismatch)
  {
    StartIsSafe(digest, s);
    EveryRunIsSafe(digest, s, actions, t);
    hide Run;
  }

  // What a published write replaced is what it expected: always for a create; for
  // a replace, unless the name changed after the second check, exactly when what
  // that check opened was a regular file. A created file has the source's bits as
  // last read, or the default ones; a replacing one is within the source's, and as
  // `BitsAsPromised` says of the replaced file's.
  lemma PublishedAsPlanned(digest: Bytes -> Digest, s: World, actions: seq<Action>, t: World, w: WriterId)
    requires Start(s) && Run(digest, s, actions, t)
    requires w in t.writers && t.writers[w].landing.Some?
    ensures var writer, landing := t.writers[w], t.writers[w].landing.value;
            && (writer.request.policy == NoWiderThan ==>
                  writer.seen.source.Some? && landing.mode <= writer.seen.source.value)
            && (writer.request.expected == Absent ==>
                  && landing.replaced == Absent
                  && landing.mode == if writer.request.policy == Keep then DEFAULT_MODE else ModeOr(writer.seen.source))
            && (writer.request.expected != Absent && !writer.seen.raced ==>
                  (landing.replaced == writer.request.expected <==> !writer.seen.viaSpecial))
            && (writer.seen.target.Some? ==> landing.mode <= writer.seen.target.value)
            && (writer.seen.target.Some? && writer.request.policy == Keep ==>
                  landing.mode == writer.seen.target.value)
            && (writer.request.expected.Sha256? && !writer.seen.raced && !writer.seen.viaSpecial ==>
                  landing.bits.Some? && BitsAsPromised(writer, landing.bits.value, landing.mode))
  {
    StartIsSafe(digest, s);
    EveryRunIsSafe(digest, s, actions, t);
    hide Run;
  }

  // The bits published over a regular file that had `bits`. A copy publishes those
  // it shares with the source, and a `Keep` write that file's own, when the last
  // `lstat` goes through; when it fails, all of the source's, or those the first
  // check read. So no bit is added exactly when it went through or the source has
  // no other, and a file keeps its bits exactly when it went through or they are
  // still those of the first check.
  predicate BitsAsPromised(writer: Writer, bits: Bits, mode: Bits) {
    var seen := writer.seen;
    match writer.request.policy
    case NoWiderThan =>
      && seen.source.Some?
      && mode == (if seen.statFailed then seen.source.value else bits * seen.source.value)
      && (mode <= bits <==> !seen.statFailed || seen.source.value <= bits)
    case Keep =>
      && seen.first.Some?
      && mode == (if seen.statFailed then seen.first.value else bits)
      && (mode == bits <==> !seen.statFailed || seen.first.value == bits)
  }

  lemma LookNeverRaces(digest: Bytes -> Digest, s: World, writer: Writer, answer: Answer)
    requires IsLook(writer.pc) && !writer.seen.raced
    ensures !Look(digest, s, writer, answer).seen.raced
  {
    hide FingerprintOf, PublishedMode, Opened, Refusal;
  }

  lemma PublishNeverRaces(digest: Bytes -> Digest, s: World, w: WriterId, answer: Answer)
    requires w in s.writers && w in s.temps && s.temps[w] in s.inodes && !s.writers[w].seen.raced
    ensures var t := Publish(digest, s, w, answer); w in t.writers && !t.writers[w].seen.raced
  {
    hide FingerprintOf;
  }

  lemma OwnStepNeverRaces(digest: Bytes -> Digest, s: World, w: WriterId, answer: Answer, ino: Ino, filled: nat)
    requires w in s.writers && !s.writers[w].seen.raced
    ensures var t := StepOf(digest, s, w, answer, ino, filled); w in t.writers && !t.writers[w].seen.raced
  {
    hide FingerprintOf, Look, OnTemp, Publish;
    if IsLook(s.writers[w].pc) {
      LookNeverRaces(digest, s, s.writers[w], answer);
    } else if w in s.temps && s.temps[w] in s.inodes {
      PublishNeverRaces(digest, s, w, answer);
    }
  }

  // A write counts as raced only when, between its second check and its
  // publishing step, someone else changed what the name holds.
  lemma RacedOnlyByOthers(digest: Bytes -> Digest, s: World, a: Action, v: WriterId)
    requires Safe(digest, s) && Enabled(s, a) && v in s.writers && !s.writers[v].seen.raced
    requires var t := Apply(digest, s, a); v in t.writers && t.writers[v].seen.raced
    ensures s.writers[v].landing.None?
    ensures a.EditName? || (a.EditFile? && s.target == File(a.ino))
            || (a.Step? && a.w != v && Publishes(digest, s, a.w, a.answer, a.ino, a.filled))
  {
    if a.Step? {
      if a.w == v {
        OwnStepNeverRaces(digest, s, v, a.answer, a.ino, a.filled);
      } else if Publishes(digest, s, a.w, a.answer, a.ino, a.filled) {
        PublishingMarksOthers(digest, s, a.w, a.answer, a.ino, a.filled);
      } else {
        OtherStepsKeepOtherWrites(digest, s, a.w, a.answer, a.ino, a.filled);
      }
    }
    hide WriterOk, Tidy, LandedWhole, FingerprintOf, Publishes, StepOf;
  }

  function NameIsFree(s: World): nat {
    if s.target == Nothing then 1 else 0
  }

  lemma ActionCounts(digest: Bytes -> Digest, s: World, a: Action)
    requires Safe(digest, s) && Enabled(s, a)
    ensures var t := Apply(digest, s, a);
            t.creates + NameIsFree(t) + s.removals <= t.removals + s.creates + NameIsFree(s)
  {
    if a.Step? {
      if Publishes(digest, s, a.w, a.answer, a.ino, a.filled) {
        PublishingPutsWholeFile(digest, s, a.w, a.answer, a.ino, a.filled);
      } else {
        OtherStepsTouchNothing(digest, s, a.w, a.answer, a.ino, a.filled);
      }
    }
    hide WriterOk, StepOf, Tidy, LandedWhole, Publishes;
  }

  // However many writes race to create the name, at most one goes through, and
  // one more for every time somebody empties it again.
  lemma {:induction false} CreatesExcludeEachOther(digest: Bytes -> Digest, s: World, actions: seq<Action>, t: World)
    requires Safe(digest, s) && Run(digest, s, actions, t)
    ensures t.creates - s.creates <= t.removals - s.removals + NameIsFree(s) - NameIsFree(t)
    decreases |actions|
  {
    if actions != [] {
      ActionKeeps(digest, s, actions[0]);
      ActionCounts(digest, s, actions[0]);
      hide Safe, Enabled, Apply;
      CreatesExcludeEachOther(digest, Apply(digest, s, actions[0]), actions[1..], t);
    }
  }

  // A step that does not publish leaves the write as published as it was.
  lemma OnlyPublishingPublishes(digest: Bytes -> Digest, s: World, w: WriterId, answer: Answer, ino: Ino, filled: nat)
    requires Safe(digest, s) && Enabled(s, Step(w, answer, ino, filled))
    ensures var t := StepOf(digest, s, w, answer, ino, filled);
            w in t.writers && (t.writers[w].pc != ReadingBack ==> t.writers[w].landing == s.writers[w].landing)
  {
    hide Look, OnTemp, ModesOk, SightOk, LandedWhole, FingerprintOf;
    var writer, pc := s.writers[w], s.writers[w].pc;
    if IsLook(pc) {
      LookKeeps(digest, s, writer, TempOf(s, w), answer);
    } else if pc.Setting? || pc.Filling? || pc.Correcting? {
      OnTempKeeps(digest, writer, TempOf(s, w).value, SightOf(digest, s), answer, filled);
    }
    hide WriterOk, Safe;
  }

  // The step that ends a write with `Io` leaves it published exactly when what
  // failed was the inspection reading the published file back.
  lemma IoAfterPublishingIff(digest: Bytes -> Digest, s: World, w: WriterId, answer: Answer, ino: Ino, filled: nat)
    requires Safe(digest, s) && Enabled(s, Step(w, answer, ino, filled)) && !s.writers[w].pc.Cleaning?
    requires !s.writers[w].pc.Done?
    requires var t := StepOf(digest, s, w, answer, ino, filled);
             w in t.writers && (t.writers[w].pc == Cleaning(Err(Io)) || t.writers[w].pc == Done(Err(Io)))
    ensures StepOf(digest, s, w, answer, ino, filled).writers[w].landing.Some?
            <==> s.writers[w].pc.ReadingBack? || s.writers[w].pc.OpeningBack?
  {
    hide StepOf, ModesOk, SightOk, ResultRight, LandedWhole, Tidy;
    OnlyPublishingPublishes(digest, s, w, answer, ino, filled);
  }

  lemma LookEndsOk(digest: Bytes -> Digest, s: World, writer: Writer, answer: Answer)
    requires IsLook(writer.pc)
    ensures var now := Look(digest, s, writer, answer);
            now.pc.Cleaning? && now.pc.result.Ok? ==>
              && writer.pc.OpeningBack? && OpenedBytes(s, answer).Some?
              && digest(OpenedBytes(s, answer).value) == digest(writer.request.bytes)
  {
    hide FirstCheck, SecondCheck, RefreshMode;
  }

  lemma PublishEndsErr(digest: Bytes -> Digest, s: World, w: WriterId, answer: Answer)
    requires w in s.writers && w in s.temps && s.temps[w] in s.inodes && s.writers[w].pc.Publishing?
    ensures var t := Publish(digest, s, w, answer);
            w in t.writers && (t.writers[w].pc.Cleaning? ==> t.writers[w].pc.result.Err?)
  {
    hide FingerprintOf;
  }

  // No other step ends with `Ok`.
  lemma OnlyLooksEndOk(digest: Bytes -> Digest, s: World, w: WriterId, answer: Answer, ino: Ino, filled: nat)
    requires w in s.writers && !IsLook(s.writers[w].pc) && !s.writers[w].pc.Cleaning?
    ensures var t := StepOf(digest, s, w, answer, ino, filled);
            w in t.writers && (t.writers[w].pc.Cleaning? ==> t.writers[w].pc.result.Err?)
  {
    hide FingerprintOf, OnTemp, Publish, Look;
    if s.writers[w].pc.Publishing? && w in s.temps && s.temps[w] in s.inodes {
      PublishEndsErr(digest, s, w, answer);
    }
  }

  // The name holds exactly these bytes, in a regular file.
  predicate NameHolds(s: World, bytes: Bytes) {
    s.target.File? && s.target.ino in s.inodes && s.inodes[s.target.ino].content == bytes
  }

  // `Ok` is decided by the bytes that opening the name gives at that very step:
  // the name holds them exactly when what opened is a regular file; otherwise it
  // is a special file that streamed them.
  lemma OkReadsTheName(digest: Bytes -> Digest, s: World, w: WriterId, answer: Answer, ino: Ino, filled: nat)
    requires Injective(digest) && w in s.writers && !s.writers[w].pc.Cleaning?
    requires var t := StepOf(digest, s, w, answer, ino, filled);
             w in t.writers && t.writers[w].pc.Cleaning? && t.writers[w].pc.result.Ok?
    ensures OpenedBytes(s, answer) == Some(s.writers[w].request.bytes)
    ensures NameHolds(s, s.writers[w].request.bytes) <==> !s.target.Other?
  {
    hide Look, Publish, OnTemp;
    if IsLook(s.writers[w].pc) {
      LookEndsOk(digest, s, s.writers[w], answer);
    } else {
      OnlyLooksEndOk(digest, s, w, answer, ino, filled);
    }
  }

  // What a publishing step replaces, read off the name itself. Unless someone else
  // touched the name since the second check, it is the content that was expected,
  // a regular file, exactly when that check opened one; the bits published over it
  // are then as `BitsAsPromised` says. Unless the source's bits were changed since
  // they were read again, they are those meant there, and the bits published are
  // within them.
  lemma ReplacedIsWhatWasChecked(digest: Bytes -> Digest, s: World, w: WriterId, answer: Answer, ino: Ino, filled: nat)
    requires Safe(digest, s) && Enabled(s, Step(w, answer, ino, filled))
    requires Publishes(digest, s, w, answer, ino, filled)
    ensures var writer, t := s.writers[w], StepOf(digest, s, w, answer, ino, filled);
            var mode := t.writers[w].landing.value.mode;
            && (!writer.seen.raced ==>
                  (FingerprintOf(digest, s, s.target) == writer.request.expected <==> !writer.seen.viaSpecial))
            && (writer.request.expected.Sha256? && !writer.seen.raced ==>
                  (ModeOfTarget(s).Some? <==> !writer.seen.viaSpecial))
            && (writer.request.expected.Sha256? && !writer.seen.raced && !writer.seen.viaSpecial ==>
                  BitsAsPromised(writer, ModeOfTarget(s).value, mode))
            && (writer.request.policy == NoWiderThan && !writer.seen.sourceMoved ==>
                  s.source.Some? && s.source == writer.seen.source && mode <= s.source.value)
  {
    hide Look, OnTemp, LandedWhole, ResultRight, FingerprintOf, Tidy;
  }
}
