// Which error a definition write ends with, and what at the name, or which answer of
// the system, makes it so.
module DefinitionWriterErrors {
  import opened Basics
  import opened DefinitionWriter
  import opened DefinitionWriterLaws

  // The error a write has ended with, or is about to.
  function ErrorOf(writer: Writer): Option<WriteError> {
    match writer.pc
    case Cleaning(Err(e)) => Some(e)
    case Done(Err(e)) => Some(e)
    case _ => None
  }

  // Nothing but a fingerprint of a file, or of nothing, can be asked for.
  predicate CanAsk(request: Request) {
    request.expected == Absent || request.expected.Sha256?
  }

  // A request for anything else is turned down at the first step, before anything is
  // looked at.
  lemma NotWritableIff(digest: Bytes -> Digest, s: World, writer: Writer, answer: Answer)
    requires writer.pc.Starting? && Goes(answer)
    ensures ErrorOf(Look(digest, s, writer, answer)) == Some(NotWritable) <==> !CanAsk(writer.request)
  {
    hide FingerprintOf;
  }

  // What an outsider put at the name, or left there, as the first half of either check
  // meets it: a create is stale beside anything but nothing and a file, which is opened
  // first; a replace is stale beside nothing, and refuses what is no file.
  lemma CheckRefuses(digest: Bytes -> Digest, s: World, writer: Writer, answer: Answer)
    requires (writer.pc.Starting? || writer.pc.Rechecking?) && Goes(answer) && CanAsk(writer.request)
    requires s.target.File? ==> s.target.ino in s.inodes
    ensures ErrorOf(Look(digest, s, writer, answer)) ==
            match s.target
            case File(_) => None
            case Nothing => if writer.request.expected == Absent then None else Some(Stale)
            case Symlink(_) => if writer.request.expected == Absent then Some(Stale) else Some(NotRegular)
            case Directory => if writer.request.expected == Absent then Some(Stale) else Some(NotRegular)
            case Other => if writer.request.expected == Absent then Some(Stale) else Some(NotRegular)
  {
  }

  // And the second half, which opens it: stale exactly when the bytes that opening
  // gives are not the expected ones, or a create meets any.
  lemma OpenRefuses(digest: Bytes -> Digest, s: World, writer: Writer, answer: Answer)
    requires (writer.pc.Opening? || writer.pc.Reopening?) && Goes(answer) && CanAsk(writer.request)
    requires s.target.File? ==> s.target.ino in s.inodes
    ensures var error, bytes := ErrorOf(Look(digest, s, writer, answer)), OpenedBytes(s, answer);
            var create := writer.request.expected == Absent;
            if bytes.Some?
            then error == if create || digest(bytes.value) != writer.request.expected.digest then Some(Stale) else None
            else match s.target
              case Nothing => error == if create then None else Some(Stale)
              case Directory => error == Some(Io)
              case _ => error == if create then Some(Stale) else Some(NotRegular)
  {
  }

  // The source is unavailable exactly when the policy needs it and it cannot be read.
  lemma SourceRefuses(digest: Bytes -> Digest, s: World, writer: Writer, answer: Answer)
    requires (writer.pc.Deciding? || writer.pc.Rereading?) && Goes(answer)
    ensures ErrorOf(Look(digest, s, writer, answer)) ==
            if writer.request.policy == NoWiderThan && s.source.None? then Some(SourceUnavailable) else None
  {
  }

  lemma HasTemp(digest: Bytes -> Digest, s: World, w: WriterId)
    requires Safe(digest, s) && w in s.writers && HoldsTemp(s.writers[w].pc)
    ensures w in s.temps && s.temps[w] in s.inodes && s.writers[w].landing.None?
  {
  }

  // The publishing step. A create finds the name taken, however lately and by whatever,
  // and is stale; or the system will not link, and it is refused as such. A replace goes
  // over anything but a directory.
  lemma PublishRefuses(digest: Bytes -> Digest, s: World, w: WriterId, answer: Answer, ino: Ino, filled: nat)
    requires Safe(digest, s) && w in s.writers && s.writers[w].pc.Publishing?
    ensures var t := StepOf(digest, s, w, answer, ino, filled);
            var create := s.writers[w].request.expected == Absent;
            && w in t.writers
            && ErrorOf(t.writers[w]) == (if answer.Fails? then Some(Io)
                                         else if create && s.target != Nothing then Some(Stale)
                                         else if create && answer.LinkRefused? then Some(ExclusiveCreateRefused)
                                         else if !create && (s.target.Directory? || answer.LinkRefused?) then Some(Io)
                                         else None)
            && (ErrorOf(t.writers[w]).Some? <==> !Publishes(digest, s, w, answer, ino, filled))
  {
    hide Safe, Look, OnTemp, FingerprintOf, OpenedBytes;
    HasTemp(digest, s, w);
  }

  // The read-back fails with a mismatch exactly when the name holds no file by then, or
  // opening it gives other bytes; and with `Io` when that cannot be found out.
  lemma ReadBackRefuses(digest: Bytes -> Digest, s: World, writer: Writer, answer: Answer)
    requires Injective(digest) && (writer.pc.ReadingBack? || writer.pc.OpeningBack?)
    requires s.target.File? ==> s.target.ino in s.inodes
    ensures ErrorOf(Look(digest, s, writer, answer)) ==
            if !Goes(answer) then Some(Io)
            else if writer.pc.ReadingBack? then (if s.target.File? then None else Some(ReadBackMismatch))
            else if s.target.Directory? then Some(Io)
            else if OpenedBytes(s, answer) != Some(writer.request.bytes) then Some(ReadBackMismatch)
            else None
  {
  }

  // Every other step fails with `Io`, exactly when the system does not answer.
  lemma StepFails(digest: Bytes -> Digest, s: World, w: WriterId, answer: Answer, ino: Ino, filled: nat)
    requires Safe(digest, s) && w in s.writers
    requires var pc := s.writers[w].pc;
             pc.Creating? || pc.Filling? || (pc.Setting? && pc.initial.Some?)
             || (pc.Correcting? && pc.latest.Some? && pc.latest != pc.initial)
    ensures var t := StepOf(digest, s, w, answer, ino, filled);
            w in t.writers && ErrorOf(t.writers[w]) == if Goes(answer) then None else Some(Io)
  {
    hide Safe, Look, Publish;
    if HoldsTemp(s.writers[w].pc) {
      HasTemp(digest, s, w);
    }
  }

  // Until the bits a policy decides on are set, the temporary file is its owner's only,
  // and empty.
  lemma TempIsGuarded(digest: Bytes -> Digest, s: World, w: WriterId)
    requires Safe(digest, s) && w in s.writers && HoldsTemp(s.writers[w].pc)
    ensures var temp := TempOf(s, w);
            && temp.Some?
            && (s.writers[w].pc.Setting? ==>
                  && temp.value.content == []
                  && (s.writers[w].pc.initial.Some? ==> temp.value.mode == {8, 7}))
            && (s.writers[w].pc.Filling? ==> temp.value.mode == ModeOr(s.writers[w].pc.initial))
  {
  }
}
