// The definition writer as a protocol: any number of writes to one name, each a
// sequence of atomic file-system steps, interleaved with outside edits.
module DefinitionWriter {
  import opened Basics

  type Digest = Bytes
  // The permission bits that are set.
  type Bits = set<nat>
  type WriterId = nat
  type Ino = nat

  datatype Inode = Inode(content: Bytes, mode: Bits)

  // What a directory entry is; `Other` is a FIFO, a device or a socket.
  datatype Entry = Nothing | File(ino: Ino) | Symlink(to: Bytes) | Directory | Other

  datatype Fingerprint = Absent | Sha256(digest: Digest) | SymlinkTo(to: Bytes) | Irregular

  datatype ModePolicy = Keep | NoWiderThan

  datatype Request = Request(bytes: Bytes, expected: Fingerprint, policy: ModePolicy)

  datatype WriteError =
    | NotWritable
    | NotRegular
    | Stale
    | SourceUnavailable
    | ReadBackMismatch
    | ExclusiveCreateRefused
    | Io

  // Where one write stands; each step is one atomic file-system operation.
  datatype Pc =
    | Starting
    | Opening(lstatMode: Bits)
    | Deciding(current: Option<Bits>)
    | Creating(initial: Option<Bits>)
    | Setting(initial: Option<Bits>)
    | Filling(initial: Option<Bits>)
    | Rechecking(initial: Option<Bits>)
    | Reopening(initial: Option<Bits>)
    | Refreshing(initial: Option<Bits>)
    | Rereading(initial: Option<Bits>, current: Option<Bits>)
    | Correcting(initial: Option<Bits>, latest: Option<Bits>)
    | Publishing
    | ReadingBack
    | OpeningBack
    | Cleaning(result: Result<Digest, WriteError>)
    | Done(result: Result<Digest, WriteError>)

  // What the looks before the publishing step saw, and whether it may be out of
  // date: the name touched by anyone else since the second check, the source's
  // bits changed since they were read again. `viaSpecial`: what the second check
  // opened was no regular file. `first` are the target's bits as the first check
  // read them, `target` as they were read again, unless that `lstat` failed.
  datatype Seen = Seen(raced: bool, viaSpecial: bool, statFailed: bool, sourceMoved: bool,
                       source: Option<Bits>, first: Option<Bits>, target: Option<Bits>)

  // What the publishing step put in place of what, with which bits.
  datatype Landing = Landing(replaced: Fingerprint, bits: Option<Bits>, mode: Bits)

  // One write; what it has seen, published and read back is for the claims.
  datatype Writer = Writer(request: Request, pc: Pc, seen: Seen, landing: Option<Landing>, readBack: Option<Bytes>)

  // Who last wrote what the name holds.
  datatype Origin = Outside | By(w: WriterId)

  datatype World = World(
    inodes: map<Ino, Inode>,
    target: Entry,
    temps: map<WriterId, Ino>,
    source: Option<Bits>,
    writers: map<WriterId, Writer>,
    origin: Origin,
    // Creates that went through, and times an occupied name was emptied.
    creates: nat,
    removals: nat)

  // How the file system answers one step. Opening and reading what is no regular
  // file may stream any bytes; where it does not, such a name cannot be opened.
  datatype Answer = Fine | Streams(bytes: Bytes) | Fails | LinkRefused

  predicate Goes(answer: Answer) {
    answer.Fine? || answer.Streams?
  }

  datatype Action =
    | Arrive(w: WriterId, request: Request)
    | Step(w: WriterId, answer: Answer, ino: Ino, filled: nat)
    | EditName(entry: Entry)
    | EditFile(ino: Ino, inode: Inode)
    | EditSource(source: Option<Bits>)

  // What a file starts with: owner-only when a policy will set its bits, the
  // platform default otherwise.
  const OWNER_ONLY: Bits := {8, 7}
  const DEFAULT_MODE: Bits := {8, 7, 5, 2}

  function ModeOr(mode: Option<Bits>): Bits {
    if mode.Some? then mode.value else DEFAULT_MODE
  }

  function FingerprintOf(digest: Bytes -> Digest, s: World, entry: Entry): Fingerprint {
    match entry
    case Nothing => Absent
    case File(ino) => if ino in s.inodes then Sha256(digest(s.inodes[ino].content)) else Absent
    case Symlink(to) => SymlinkTo(to)
    case Directory => Irregular
    case Other => Irregular
  }

  // `verify`, on what the inspection found.
  function Refusal(expected: Fingerprint, found: Fingerprint): Option<WriteError> {
    if expected.Sha256? && (found.SymlinkTo? || found.Irregular?) then Some(NotRegular)
    else if found != expected then Some(Stale)
    else None
  }

  // The bytes that opening the name without following a link, and reading what
  // opened, gives; nothing asks what kind of file that is.
  function OpenedBytes(s: World, answer: Answer): Option<Bytes> {
    match s.target
    case File(ino) => if ino in s.inodes then Some(s.inodes[ino].content) else None
    case Other => if answer.Streams? then Some(answer.bytes) else None
    case _ => None
  }

  // The inspection's second half, on the name that `lstat` called a regular file;
  // a directory opens and cannot be read.
  function Opened(digest: Bytes -> Digest, s: World, answer: Answer): Result<Fingerprint, WriteError> {
    var bytes := OpenedBytes(s, answer);
    if bytes.Some? then Ok(Sha256(digest(bytes.value)))
    else match s.target
      case Directory => Err(Io)
      case Symlink(_) => Ok(Irregular)
      case Other => Ok(Irregular)
      case _ => Ok(Absent)
  }

  function WithPc(writer: Writer, pc: Pc): Writer {
    writer.(pc := pc)
  }

  // Before the temporary file is guarded an error is simply returned.
  function Refuse(writer: Writer, error: WriteError): Writer {
    writer.(pc := if writer.pc.Starting? || writer.pc.Opening? || writer.pc.Deciding?
                  then Done(Err(error)) else Cleaning(Err(error)))
  }

  function ModeOfTarget(s: World): Option<Bits> {
    if s.target.File? && s.target.ino in s.inodes then Some(s.inodes[s.target.ino].mode) else None
  }

  // `published_mode`, once the source has been read.
  function PublishedMode(policy: ModePolicy, current: Option<Bits>, source: Option<Bits>)
    : Result<Option<Bits>, WriteError>
  {
    if policy == Keep then Ok(current)
    else match source
      case None => Err(SourceUnavailable)
      case Some(bits) => Ok(Some(if current.Some? then current.value * bits else bits))
  }

  // The writer after a check's inspection found `found`.
  function Checked(writer: Writer, found: Fingerprint, next: Pc): Writer {
    match Refusal(writer.request.expected, found)
    case Some(error) => Refuse(writer, error)
    case None => WithPc(writer, next)
  }

  // The first `verify`, and the bits it leads to.
  function FirstCheck(digest: Bytes -> Digest, s: World, writer: Writer, answer: Answer): (now: Writer)
    requires writer.pc.Starting? || writer.pc.Opening? || writer.pc.Deciding?
    ensures now.request == writer.request && now.landing == writer.landing
    ensures now.pc.Cleaning? ==> now.pc.result.Err?
  {
    var request := writer.request;
    match writer.pc
    case Starting =>
      if request.expected.SymlinkTo? || request.expected.Irregular? then Refuse(writer, NotWritable)
      else if s.target.File? && ModeOfTarget(s).Some? then WithPc(writer, Opening(ModeOfTarget(s).value))
      else Checked(writer, FingerprintOf(digest, s, s.target), Deciding(None))
    case Opening(mode) =>
      (match Opened(digest, s, answer)
       case Err(e) => Refuse(writer, e)
       case Ok(found) => Checked(writer, found, Deciding(if found.Sha256? then Some(mode) else None)))
    case Deciding(current) =>
      match PublishedMode(request.policy, current, s.source)
      case Err(e) => Refuse(writer, e)
      case Ok(mode) => WithPc(writer, Creating(mode)).(seen := writer.seen.(first := current))
  }

  // The second `verify`.
  function SecondCheck(digest: Bytes -> Digest, s: World, writer: Writer, answer: Answer): (now: Writer)
    requires writer.pc.Rechecking? || writer.pc.Reopening?
    ensures now.request == writer.request && now.landing == writer.landing
    ensures now.pc.Cleaning? ==> now.pc.result.Err?
  {
    if writer.pc.Rechecking? && s.target.File? && ModeOfTarget(s).Some?
    then WithPc(writer, Reopening(writer.pc.initial))
    else
      var found := if writer.pc.Reopening? then Opened(digest, s, answer) else Ok(FingerprintOf(digest, s, s.target));
      match found
      case Err(e) => Refuse(writer, e)
      case Ok(fingerprint) =>
        Checked(writer, fingerprint, Refreshing(writer.pc.initial)).(
          seen := writer.seen.(raced := false, viaSpecial := writer.pc.Reopening? && s.target.Other?))
  }

  // `refresh_mode`, up to the correction; a failed `lstat` counts as no regular
  // file, like a missing name.
  function RefreshMode(s: World, writer: Writer, answer: Answer): (now: Writer)
    requires writer.pc.Refreshing? || writer.pc.Rereading?
    ensures now.request == writer.request && now.landing == writer.landing
    ensures now.pc.Cleaning? ==> now.pc.result.Err?
  {
    match writer.pc
    case Refreshing(initial) =>
      var current := if writer.request.expected.Sha256? && Goes(answer) then ModeOfTarget(s) else None;
      WithPc(writer, Rereading(initial, current)).(
        seen := writer.seen.(target := current, statFailed := writer.request.expected.Sha256? && !Goes(answer)))
    case Rereading(initial, current) =>
      match PublishedMode(writer.request.policy, current, s.source)
      case Err(e) => Refuse(writer, e)
      case Ok(latest) =>
        WithPc(writer, Correcting(initial, latest)).(seen := writer.seen.(source := s.source, sourceMoved := false))
  }

  // `read_back`
  function ReadBack(digest: Bytes -> Digest, s: World, writer: Writer, answer: Answer): (now: Writer)
    requires writer.pc.ReadingBack? || writer.pc.OpeningBack?
    ensures now.request == writer.request && now.landing == writer.landing
  {
    if writer.pc.ReadingBack? then
      if ModeOfTarget(s).Some? then WithPc(writer, OpeningBack) else Refuse(writer, ReadBackMismatch)
    else match Opened(digest, s, answer)
      case Err(e) => Refuse(writer, e)
      case Ok(found) =>
        if found != Sha256(digest(writer.request.bytes)) then Refuse(writer, ReadBackMismatch)
        else WithPc(writer, Cleaning(Ok(digest(writer.request.bytes)))).(readBack := OpenedBytes(s, answer))
  }

  // The steps that only look at the file system; the name is untouched.
  function Look(digest: Bytes -> Digest, s: World, writer: Writer, answer: Answer): Writer
    requires IsLook(writer.pc)
  {
    var pc := writer.pc;
    if !Goes(answer) && !pc.Refreshing? then Refuse(writer, Io)
    else if pc.Starting? || pc.Opening? || pc.Deciding? then FirstCheck(digest, s, writer, answer)
    else if pc.Rechecking? || pc.Reopening? then SecondCheck(digest, s, writer, answer)
    else if pc.Refreshing? || pc.Rereading? then RefreshMode(s, writer, answer)
    else ReadBack(digest, s, writer, answer)
  }

  // The steps that change the write's own temporary file: its bits are set, its
  // bytes written (a failing write may leave some of them), its bits corrected.
  function OnTemp(writer: Writer, temp: Inode, answer: Answer, filled: nat): (r: (Writer, Inode))
    requires writer.pc.Setting? || writer.pc.Filling? || writer.pc.Correcting?
    ensures r.0.request == writer.request && r.0.landing == writer.landing && r.0.seen == writer.seen
    ensures r.0.pc.Cleaning? ==> r.0.pc.result.Err?
  {
    match writer.pc
    case Setting(initial) =>
      if initial.None? then (WithPc(writer, Filling(initial)), temp)
      else if !Goes(answer) then (Refuse(writer, Io), temp)
      else (WithPc(writer, Filling(initial)), temp.(mode := initial.value))
    case Filling(initial) =>
      var bytes := writer.request.bytes;
      var part := temp.(content := if filled < |bytes| then bytes[..filled] else bytes);
      if !Goes(answer) then (Refuse(writer, Io), part)
      else (if filled < |bytes| then writer else WithPc(writer, Rechecking(initial)), part)
    case Correcting(initial, latest) =>
      if latest.None? || latest == initial then (WithPc(writer, Publishing), temp)
      else if !Goes(answer) then (Refuse(writer, Io), temp)
      else (WithPc(writer, Publishing), temp.(mode := latest.value))
  }

  function Late(writer: Writer): Writer {
    writer.(seen := writer.seen.(raced := true))
  }

  // Every check still to be acted on is stale once the name holds something new.
  function Raced(writers: map<WriterId, Writer>): map<WriterId, Writer> {
    map v | v in writers :: if writers[v].landing.Some? then writers[v] else Late(writers[v])
  }

  function SourceMoved(writers: map<WriterId, Writer>): map<WriterId, Writer> {
    map v | v in writers
      :: if writers[v].landing.Some? then writers[v] else writers[v].(seen := writers[v].seen.(sourceMoved := true))
  }

  // The link or the rename.
  function Publish(digest: Bytes -> Digest, s: World, w: WriterId, answer: Answer): World
    requires w in s.writers && w in s.temps && s.temps[w] in s.inodes
  {
    var writer, ino := s.writers[w], s.temps[w];
    var create := writer.request.expected == Absent;
    if answer == Fails then s.(writers := s.writers[w := Refuse(writer, Io)])
    else if create && s.target != Nothing then s.(writers := s.writers[w := Refuse(writer, Stale)])
    else if create && answer == LinkRefused then s.(writers := s.writers[w := Refuse(writer, ExclusiveCreateRefused)])
    else if !create && (s.target.Directory? || answer == LinkRefused)
      then s.(writers := s.writers[w := Refuse(writer, Io)])
    else
      var now := WithPc(writer, ReadingBack).(
        landing := Some(Landing(FingerprintOf(digest, s, s.target), ModeOfTarget(s), s.inodes[ino].mode)));
      s.(target := File(ino), temps := if create then s.temps else s.temps - {w},
         writers := Raced(s.writers)[w := now], origin := By(w), creates := s.creates + if create then 1 else 0)
  }

  predicate IsLook(pc: Pc) {
    pc.Starting? || pc.Opening? || pc.Deciding? || pc.Rechecking? || pc.Reopening? || pc.Refreshing?
    || pc.Rereading? || pc.ReadingBack? || pc.OpeningBack?
  }

  // One step of write `w`.
  function StepOf(digest: Bytes -> Digest, s: World, w: WriterId, answer: Answer, ino: Ino, filled: nat): World
    requires w in s.writers
  {
    var writer := s.writers[w];
    var writable := w in s.temps && s.temps[w] in s.inodes;
    if IsLook(writer.pc) then s.(writers := s.writers[w := Look(digest, s, writer, answer)])
    else if writer.pc.Creating? then
      var initial := writer.pc.initial;
      if !Goes(answer) then s.(writers := s.writers[w := Refuse(writer, Io)])
      else
        s.(inodes := s.inodes[ino := Inode([], if initial.Some? then OWNER_ONLY else DEFAULT_MODE)],
           temps := s.temps[w := ino], writers := s.writers[w := WithPc(writer, Setting(initial))])
    else if writer.pc.Cleaning? then
      s.(temps := s.temps - {w}, writers := s.writers[w := WithPc(writer, Done(writer.pc.result))])
    else if writer.pc.Done? || !writable then s
    else if writer.pc.Publishing? then Publish(digest, s, w, answer)
    else
      var step := OnTemp(writer, s.inodes[s.temps[w]], answer, filled);
      s.(inodes := s.inodes[s.temps[w] := step.1], writers := s.writers[w := step.0])
  }

  function NewWriter(request: Request): Writer {
    Writer(request, Starting, Seen(false, false, false, false, None, None, None), None, None)
  }

  // A file only a temporary name leads to; nobody else knows that name.
  ghost predicate Private(s: World, ino: Ino) {
    exists w :: w in s.temps && w in s.writers && s.temps[w] == ino && s.writers[w].landing.None?
  }

  // What outsiders and the system can do at any moment.
  ghost predicate Enabled(s: World, a: Action) {
    match a
    case Arrive(w, _) => w !in s.writers && w !in s.temps
    case Step(w, _, ino, _) => w in s.writers && ino !in s.inodes
    case EditName(entry) => entry.File? ==> entry.ino in s.inodes && !Private(s, entry.ino)
    case EditFile(ino, _) => !Private(s, ino)
    case EditSource(_) => true
  }

  function Apply(digest: Bytes -> Digest, s: World, a: Action): World
    requires a.Step? ==> a.w in s.writers
  {
    match a
    case Arrive(w, request) => s.(writers := s.writers[w := NewWriter(request)])
    case Step(w, answer, ino, filled) => StepOf(digest, s, w, answer, ino, filled)
    case EditName(entry) =>
      s.(target := entry, origin := Outside, writers := Raced(s.writers),
         removals := s.removals + if entry == Nothing && s.target != Nothing then 1 else 0)
    case EditFile(ino, inode) =>
      var there := s.target == File(ino);
      s.(inodes := s.inodes[ino := inode], origin := if there then Outside else s.origin,
         writers := if there then Raced(s.writers) else s.writers)
    case EditSource(source) => s.(source := source, writers := SourceMoved(s.writers))
  }
}
