// Particular runs of the definition writer: a write left alone goes through, and
// the runs in which its documented promises fail.
module DefinitionWriterRuns {
  import opened Basics
  import opened DefinitionWriter
  import opened DefinitionWriterLaws

  lemma Onward(digest: Bytes -> Digest, s: World, a: Action, next: World, actions: seq<Action>, t: World)
    requires Enabled(s, a) && Apply(digest, s, a) == next && Run(digest, next, actions, t)
    ensures Run(digest, s, [a] + actions, t)
  {
    assert ([a] + actions)[1..] == actions;
  }

  lemma {:induction false} RunAppend(digest: Bytes -> Digest, s: World, a: seq<Action>, m: World,
                                     b: seq<Action>, t: World)
    requires Run(digest, s, a, m) && Run(digest, m, b, t)
    ensures Run(digest, s, a + b, t)
    decreases |a|
  {
    if a == [] {
      assert a + b == b;
    } else {
      assert (a + b)[1..] == a[1..] + b;
      RunAppend(digest, Apply(digest, s, a[0]), a[1..], m, b, t);
    }
  }

  // Actions of one write, and of nobody else.
  predicate Only(actions: seq<Action>, w: WriterId) {
    forall a :: a in actions ==> (a.Arrive? && a.w == w) || (a.Step? && a.w == w)
  }

  function Put(s: World, w: WriterId, writer: Writer): World {
    s.(writers := s.writers[w := writer])
  }

  // A step that only looks, as a run.
  lemma LookRuns(digest: Bytes -> Digest, s: World, w: WriterId, from: Writer, to: Writer, answer: Answer, ino: Ino)
      returns (actions: seq<Action>)
    requires IsLook(from.pc) && Look(digest, Put(s, w, from), from, answer) == to && ino !in s.inodes
    ensures Run(digest, Put(s, w, from), actions, Put(s, w, to)) && Only(actions, w)
  {
    hide Look;
    var a := Step(w, answer, ino, 0);
    var u := Put(s, w, from);
    assert u.writers[w := to] == s.writers[w := to];
    assert Run(digest, Put(s, w, to), [], Put(s, w, to));
    Onward(digest, u, a, Put(s, w, to), [], Put(s, w, to));
    actions := [a] + [];
  }

  // What the first check and the mode policy make of what is at the name.
  function InitialMode(s: World, request: Request): Result<Option<Bits>, WriteError> {
    PublishedMode(request.policy, ModeOfTarget(s), s.source)
  }

  // The name is as the request expects, and the bits it asks for can be read.
  predicate Ready(digest: Bytes -> Digest, s: World, request: Request) {
    && (s.target.File? ==> s.target.ino in s.inodes)
    && (request.expected == Absent || request.expected.Sha256?)
    && FingerprintOf(digest, s, s.target) == request.expected
    && (request.policy == NoWiderThan ==> s.source.Some?)
  }

  // A write past its first check, which read these bits.
  function At(request: Request, first: Option<Bits>, pc: Pc): Writer {
    Writer(request, pc, Seen(false, false, false, false, None, first, None), None, None)
  }

  // From the call to the temporary file.
  lemma RunsToCreating(digest: Bytes -> Digest, s: World, w: WriterId, request: Request, ino: Ino)
      returns (actions: seq<Action>)
    requires Ready(digest, s, request) && w !in s.writers && w !in s.temps && ino !in s.inodes
    ensures InitialMode(s, request).Ok?
    ensures var decided := At(request, ModeOfTarget(s), Creating(InitialMode(s, request).value));
            Run(digest, s, actions, Put(s, w, decided)) && Only(actions, w)
  {
    var mode := ModeOfTarget(s);
    var decided := At(request, ModeOfTarget(s), Creating(InitialMode(s, request).value));
    actions := LookRuns(digest, s, w, At(request, None, Deciding(mode)), decided, Fine, ino);
    if mode.Some? {
      var opening, deciding := At(request, None, Opening(mode.value)), At(request, None, Deciding(mode));
      var looked := LookRuns(digest, s, w, opening, deciding, Fine, ino);
      RunAppend(digest, Put(s, w, opening), looked, Put(s, w, deciding), actions, Put(s, w, decided));
      actions := looked + actions;
    }
    var next := At(request, None, if mode.Some? then Opening(mode.value) else Deciding(mode));
    var started := LookRuns(digest, s, w, At(request, None, Starting), next, Fine, ino);
    RunAppend(digest, Put(s, w, At(request, None, Starting)), started, Put(s, w, next), actions, Put(s, w, decided));
    actions := started + actions;
    Onward(digest, s, Arrive(w, request), Put(s, w, At(request, None, Starting)), actions, Put(s, w, decided));
    actions := [Arrive(w, request)] + actions;
  }

  // The write's temporary file beside everything else.
  function WithTemp(s: World, w: WriterId, ino: Ino, temp: Inode): World {
    s.(inodes := s.inodes[ino := temp], temps := s.temps[w := ino])
  }

  // One step on the temporary file, as a run.
  lemma TempRuns(digest: Bytes -> Digest, s: World, w: WriterId, ino: Ino, temp: Inode, from: Writer, to: Writer,
                 now: Inode, spare: Ino, filled: nat)
    requires from.pc.Setting? || from.pc.Filling? || from.pc.Correcting?
    requires OnTemp(from, temp, Fine, filled) == (to, now) && spare !in s.inodes && spare != ino
    ensures Run(digest, Put(WithTemp(s, w, ino, temp), w, from), [Step(w, Fine, spare, filled)] + [],
                Put(WithTemp(s, w, ino, now), w, to))
  {
    hide OnTemp;
    var u, t := Put(WithTemp(s, w, ino, temp), w, from), Put(WithTemp(s, w, ino, now), w, to);
    assert u.inodes[ino := now] == t.inodes && u.writers[w := to] == t.writers;
    assert Run(digest, t, [], t);
    Onward(digest, u, Step(w, Fine, spare, filled), t, [], t);
  }

  // Making the temporary file, as a run.
  lemma CreateRuns(digest: Bytes -> Digest, s: World, w: WriterId, request: Request, first: Option<Bits>,
                   initial: Option<Bits>, ino: Ino)
    requires ino !in s.inodes
    ensures var start := Inode([], if initial.Some? then OWNER_ONLY else DEFAULT_MODE);
            Run(digest, Put(s, w, At(request, first, Creating(initial))), [Step(w, Fine, ino, 0)] + [],
                Put(WithTemp(s, w, ino, start), w, At(request, first, Setting(initial))))
  {
    var u := Put(s, w, At(request, first, Creating(initial)));
    var start := Inode([], if initial.Some? then OWNER_ONLY else DEFAULT_MODE);
    var t := Put(WithTemp(s, w, ino, start), w, At(request, first, Setting(initial)));
    assert u.writers[w := t.writers[w]] == t.writers;
    assert Run(digest, t, [], t);
    Onward(digest, u, Step(w, Fine, ino, 0), t, [], t);
  }

  // From the temporary file's creation to its last byte.
  lemma RunsToRechecking(digest: Bytes -> Digest, s: World, w: WriterId, request: Request, first: Option<Bits>,
                         initial: Option<Bits>, ino: Ino, spare: Ino) returns (actions: seq<Action>)
    requires ino !in s.inodes && spare !in s.inodes && spare != ino
    ensures Run(digest, Put(s, w, At(request, first, Creating(initial))), actions,
                Put(WithTemp(s, w, ino, Inode(request.bytes, ModeOr(initial))), w,
                    At(request, first, Rechecking(initial))))
    ensures Only(actions, w)
  {
    var n := |request.bytes|;
    var empty := Inode([], if initial.Some? then OWNER_ONLY else DEFAULT_MODE);
    var bare, full := Inode([], ModeOr(initial)), Inode(request.bytes, ModeOr(initial));
    var setting, filling := At(request, first, Setting(initial)), At(request, first, Filling(initial));
    var done := At(request, first, Rechecking(initial));
    CreateRuns(digest, s, w, request, first, initial, ino);
    TempRuns(digest, s, w, ino, empty, setting, filling, bare, spare, n);
    TempRuns(digest, s, w, ino, bare, filling, done, full, spare, n);
    hide Run, Put, WithTemp;
    var a, b := [Step(w, Fine, ino, 0)] + [], [Step(w, Fine, spare, n)] + [];
    var made := Put(WithTemp(s, w, ino, empty), w, setting);
    var last := Put(WithTemp(s, w, ino, full), w, done);
    RunAppend(digest, made, b, Put(WithTemp(s, w, ino, bare), w, filling), b, last);
    RunAppend(digest, Put(s, w, At(request, first, Creating(initial))), a, made, b + b, last);
    actions := a + (b + b);
  }

  // What the looks before the publishing step see when nobody interferes.
  function SeenNow(s: World): Seen {
    Seen(false, false, false, false, s.source, ModeOfTarget(s), ModeOfTarget(s))
  }

  function Looked(d: World, request: Request, pc: Pc): Writer {
    Writer(request, pc, SeenNow(d), None, None)
  }

  // From the second check to the publishing step.
  lemma RunsToPublishing(digest: Bytes -> Digest, d: World, w: WriterId, request: Request,
                         initial: Option<Bits>, spare: Ino)
      returns (actions: seq<Action>)
    requires Ready(digest, d, request) && InitialMode(d, request) == Ok(initial) && spare !in d.inodes
    requires w in d.temps && d.temps[w] in d.inodes
    ensures Run(digest, Put(d, w, At(request, ModeOfTarget(d), Rechecking(initial))), actions,
                Put(d, w, Looked(d, request, Publishing)))
    ensures Only(actions, w)
  {
    var bits := ModeOfTarget(d);
    var t := Put(d, w, Looked(d, request, Publishing));
    var correcting := Looked(d, request, Correcting(initial, initial));
    var rereading := Looked(d, request, Rereading(initial, bits)).(seen := SeenNow(d).(source := None));
    var refreshing := At(request, ModeOfTarget(d), Refreshing(initial));
    CorrectingRuns(digest, d, w, request, initial, spare);
    actions := [Step(w, Fine, spare, 0)] + [];
    var reread := LookRuns(digest, d, w, rereading, correcting, Fine, spare);
    var refreshed := LookRuns(digest, d, w, refreshing, rereading, Fine, spare);
    var checked := CheckRuns(digest, d, w, request, initial, spare);
    hide Run, Look, Ready;
    RunAppend(digest, Put(d, w, rereading), reread, Put(d, w, correcting), actions, t);
    actions := reread + actions;
    RunAppend(digest, Put(d, w, refreshing), refreshed, Put(d, w, rereading), actions, t);
    actions := refreshed + actions;
    RunAppend(digest, Put(d, w, At(request, bits, Rechecking(initial))), checked, Put(d, w, refreshing), actions, t);
    actions := checked + actions;
  }

  lemma CorrectingRuns(digest: Bytes -> Digest, d: World, w: WriterId, request: Request,
                       initial: Option<Bits>, spare: Ino)
    requires w in d.temps && d.temps[w] in d.inodes && spare !in d.inodes
    ensures Run(digest, Put(d, w, Looked(d, request, Correcting(initial, initial))),
                [Step(w, Fine, spare, 0)] + [], Put(d, w, Looked(d, request, Publishing)))
  {
    var u := Put(d, w, Looked(d, request, Correcting(initial, initial)));
    var t := Put(d, w, Looked(d, request, Publishing));
    assert u.writers[w := t.writers[w]] == t.writers;
    assert u.inodes[u.temps[w] := u.inodes[u.temps[w]]] == u.inodes;
    assert Run(digest, t, [], t);
    Onward(digest, u, Step(w, Fine, spare, 0), t, [], t);
  }

  lemma CheckRuns(digest: Bytes -> Digest, d: World, w: WriterId, request: Request, initial: Option<Bits>, spare: Ino)
      returns (actions: seq<Action>)
    requires Ready(digest, d, request) && spare !in d.inodes
    ensures Run(digest, Put(d, w, At(request, ModeOfTarget(d), Rechecking(initial))), actions,
                Put(d, w, At(request, ModeOfTarget(d), Refreshing(initial))))
    ensures Only(actions, w)
  {
    var refreshing := At(request, ModeOfTarget(d), Refreshing(initial));
    if ModeOfTarget(d).Some? {
      var reopening := At(request, ModeOfTarget(d), Reopening(initial));
      actions := LookRuns(digest, d, w, reopening, refreshing, Fine, spare);
      var rechecking := At(request, ModeOfTarget(d), Rechecking(initial));
      var rechecked := LookRuns(digest, d, w, rechecking, reopening, Fine, spare);
      RunAppend(digest, Put(d, w, At(request, ModeOfTarget(d), Rechecking(initial))), rechecked, Put(d, w, reopening),
                actions, Put(d, w, refreshing));
      actions := rechecked + actions;
    } else {
      actions := LookRuns(digest, d, w, At(request, ModeOfTarget(d), Rechecking(initial)), refreshing, Fine, spare);
    }
  }

  // The world after an undisturbed publishing step.
  function Landed(digest: Bytes -> Digest, d: World, w: WriterId, request: Request, pc: Pc,
                  readBack: Option<Bytes>): World
    requires w in d.temps && d.temps[w] in d.inodes
  {
    var create := request.expected == Absent;
    var writer := Writer(request, pc, SeenNow(d),
                         Some(Landing(FingerprintOf(digest, d, d.target), ModeOfTarget(d),
                              d.inodes[d.temps[w]].mode)), readBack);
    d.(target := File(d.temps[w]), temps := if create then d.temps else d.temps - {w},
       writers := Raced(Put(d, w, At(request, None, Starting)).writers)[w := writer], origin := By(w),
       creates := d.creates + if create then 1 else 0)
  }

  lemma RacedAnyway(d: World, w: WriterId, one: Writer, other: Writer, last: Writer)
    ensures Raced(Put(d, w, one).writers)[w := last] == Raced(Put(d, w, other).writers)[w := last]
  {
  }

  lemma PublishRuns(digest: Bytes -> Digest, d: World, w: WriterId, request: Request, spare: Ino)
    requires Ready(digest, d, request) && w in d.temps && d.temps[w] in d.inodes && spare !in d.inodes
    ensures Run(digest, Put(d, w, Looked(d, request, Publishing)), [Step(w, Fine, spare, 0)] + [],
                Landed(digest, d, w, request, ReadingBack, None))
  {
    hide Look, OnTemp, Raced, Refuse;
    var u := Put(d, w, Looked(d, request, Publishing));
    var t := Landed(digest, d, w, request, ReadingBack, None);
    RacedAnyway(d, w, At(request, None, Starting), u.writers[w], t.writers[w]);
    assert FingerprintOf(digest, u, u.target) == FingerprintOf(digest, d, d.target);
    assert Run(digest, t, [], t);
    Onward(digest, u, Step(w, Fine, spare, 0), t, [], t);
  }

  // From the publishing step to the open that reads back.
  lemma RunsToOpeningBack(digest: Bytes -> Digest, d: World, w: WriterId, request: Request, spare: Ino)
      returns (actions: seq<Action>)
    requires Ready(digest, d, request) && w in d.temps && d.temps[w] in d.inodes && spare !in d.inodes
    ensures Run(digest, Put(d, w, Looked(d, request, Publishing)), actions,
                Landed(digest, d, w, request, OpeningBack, None))
    ensures Only(actions, w)
  {
    var from, to := Landed(digest, d, w, request, ReadingBack, None), Landed(digest, d, w, request, OpeningBack, None);
    PublishRuns(digest, d, w, request, spare);
    assert Put(from, w, from.writers[w]) == from && Put(from, w, to.writers[w]) == to;
    var looked := LookRuns(digest, from, w, from.writers[w], to.writers[w], Fine, spare);
    RunAppend(digest, Put(d, w, Looked(d, request, Publishing)), [Step(w, Fine, spare, 0)] + [],
              from, looked, to);
    actions := [Step(w, Fine, spare, 0)] + [] + looked;
  }

  // The end of a write whose read-back gives the bytes, whatever gives them.
  lemma ReadBackRuns(digest: Bytes -> Digest, u: World, w: WriterId, answer: Answer, spare: Ino)
      returns (actions: seq<Action>, t: World)
    requires w in u.writers && u.writers[w].pc == OpeningBack && Goes(answer) && spare !in u.inodes
    requires OpenedBytes(u, answer) == Some(u.writers[w].request.bytes)
    ensures Run(digest, u, actions, t) && Only(actions, w)
    ensures w in t.writers && t.writers[w].pc == Done(Ok(digest(u.writers[w].request.bytes)))
    ensures t.target == u.target && t.inodes == u.inodes && t.temps == u.temps - {w}
    ensures t.writers[w].landing == u.writers[w].landing && t.writers[w].seen == u.writers[w].seen
  {
    var read := StepOf(digest, u, w, answer, spare, 0);
    t := StepOf(digest, read, w, Fine, spare, 0);
    assert Run(digest, t, [], t);
    Onward(digest, read, Step(w, Fine, spare, 0), t, [], t);
    Onward(digest, u, Step(w, answer, spare, 0), read, [Step(w, Fine, spare, 0)] + [], t);
    actions := [Step(w, answer, spare, 0)] + ([Step(w, Fine, spare, 0)] + []);
  }

  // Up to the open that reads back, the run of a write nobody disturbs.
  lemma RunsToReadBack(digest: Bytes -> Digest, s: World, w: WriterId, request: Request, ino: Ino, spare: Ino)
      returns (actions: seq<Action>)
    requires Ready(digest, s, request) && w !in s.writers && w !in s.temps
    requires ino !in s.inodes && spare !in s.inodes && spare != ino
    ensures InitialMode(s, request).Ok? && Only(actions, w)
    ensures var d := WithTemp(s, w, ino, Inode(request.bytes, ModeOr(InitialMode(s, request).value)));
            Run(digest, s, actions, Landed(digest, d, w, request, OpeningBack, None))
  {
    var a := RunsToCreating(digest, s, w, request, ino);
    var initial := InitialMode(s, request).value;
    var b := RunsToRechecking(digest, s, w, request, ModeOfTarget(s), initial, ino, spare);
    var d := WithTemp(s, w, ino, Inode(request.bytes, ModeOr(initial)));
    assert Ready(digest, d, request) && InitialMode(d, request) == Ok(initial);
    var c := RunsToPublishing(digest, d, w, request, initial, spare);
    var e := RunsToOpeningBack(digest, d, w, request, spare);
    hide Run, Landed, Ready, InitialMode, WithTemp;
    var ready := Put(d, w, Looked(d, request, Publishing));
    var end := Landed(digest, d, w, request, OpeningBack, None);
    var bits := ModeOfTarget(d);
    RunAppend(digest, Put(d, w, At(request, bits, Rechecking(initial))), c, ready, e, end);
    var creating, rechecking := At(request, ModeOfTarget(s), Creating(initial)), At(request, bits, Rechecking(initial));
    RunAppend(digest, Put(s, w, creating), b, Put(d, w, rechecking), c + e, end);
    RunAppend(digest, s, a, Put(s, w, creating), b + (c + e), end);
    actions := a + (b + (c + e));
  }

  // The bits the policy prescribes.
  function Prescribed(policy: ModePolicy, target: Option<Bits>, source: Option<Bits>): Bits {
    match policy
    case Keep => if target.Some? then target.value else DEFAULT_MODE
    case NoWiderThan =>
      if source.None? then DEFAULT_MODE
      else if target.Some? then target.value * source.value else source.value
  }

  lemma {:induction false} FreshInode(some: set<Ino>) returns (ino: Ino)
    ensures forall i :: i in some ==> i < ino
    decreases |some|
  {
    if some == {} {
      ino := 0;
    } else {
      var i :| i in some;
      ino := FreshInode(some - {i});
      assert forall k :: k in some ==> k == i || k in some - {i};
      ino := if ino <= i then i + 1 else ino;
    }
  }

  // From any world in which the name is as the request expects and the source,
  // if the policy asks for one, can be read, the write left alone ends with `Ok`:
  // the name holds its bytes with the bits the policy prescribes, no other file
  // has changed and the temporary name is gone. So creates and replaces both do
  // go through.
  lemma AloneEndsOk(digest: Bytes -> Digest, s: World, w: WriterId, request: Request)
      returns (actions: seq<Action>, t: World)
    requires Ready(digest, s, request) && w !in s.writers && w !in s.temps
    ensures Run(digest, s, actions, t) && Only(actions, w)
    ensures w in t.writers && t.writers[w].pc == Done(Ok(digest(request.bytes)))
    ensures t.target.File? && t.target.ino !in s.inodes && t.target.ino in t.inodes
    ensures t.inodes[t.target.ino] == Inode(request.bytes, Prescribed(request.policy, ModeOfTarget(s), s.source))
    ensures t.inodes == s.inodes[t.target.ino := t.inodes[t.target.ino]] && t.temps == s.temps
  {
    var ino := FreshInode(s.inodes.Keys);
    actions := RunsToReadBack(digest, s, w, request, ino, ino + 1);
    var d := WithTemp(s, w, ino, Inode(request.bytes, ModeOr(InitialMode(s, request).value)));
    var u := Landed(digest, d, w, request, OpeningBack, None);
    LandedHolds(digest, s, w, request, ino);
    hide Run, Landed, WithTemp, InitialMode, Prescribed, Ready;
    var rest;
    rest, t := ReadBackRuns(digest, u, w, Fine, ino + 1);
    RunAppend(digest, s, actions, u, rest, t);
    actions := actions + rest;
  }

  lemma LandedHolds(digest: Bytes -> Digest, s: World, w: WriterId, request: Request, ino: Ino)
    requires Ready(digest, s, request) && w !in s.temps && ino !in s.inodes
    ensures InitialMode(s, request).Ok?
    ensures var d := WithTemp(s, w, ino, Inode(request.bytes, ModeOr(InitialMode(s, request).value)));
            var u := Landed(digest, d, w, request, OpeningBack, None);
            && w in u.writers && u.writers[w].pc == OpeningBack && u.writers[w].request == request
            && OpenedBytes(u, Fine) == Some(request.bytes) && u.target == File(ino)
            && u.inodes == s.inodes[ino := Inode(request.bytes, Prescribed(request.policy, ModeOfTarget(s), s.source))]
            && u.temps - {w} == s.temps
  {
    hide Raced;
  }

  // ---- Runs in which a documented promise fails --------------------------------

  const EMPTY_DIRECTORY: World := World(map[], Nothing, map[], None, map[], Outside, 0, 0)

  // `Io` does not mean that nothing was published: a create in an empty directory
  // ends with the file in place and `Io`.
  lemma IoMayFollowPublishing(digest: Bytes -> Digest, bytes: Bytes) returns (actions: seq<Action>, t: World)
    ensures Start(EMPTY_DIRECTORY) && Run(digest, EMPTY_DIRECTORY, actions, t)
    ensures 0 in t.writers && t.writers[0].pc == Done(Err(Io)) && NameHolds(t, bytes)
  {
    var request := Request(bytes, Absent, Keep);
    actions := RunsToReadBack(digest, EMPTY_DIRECTORY, 0, request, 0, 1);
    var d := WithTemp(EMPTY_DIRECTORY, 0, 0, Inode(bytes, DEFAULT_MODE));
    var u := Landed(digest, d, 0, request, OpeningBack, None);
    var failed := StepOf(digest, u, 0, Fails, 1, 0);
    t := StepOf(digest, failed, 0, Fine, 1, 0);
    assert Run(digest, t, [], t);
    Onward(digest, failed, Step(0, Fine, 1, 0), t, [], t);
    Onward(digest, u, Step(0, Fails, 1, 0), failed, [Step(0, Fine, 1, 0)] + [], t);
    hide Run;
    RunAppend(digest, EMPTY_DIRECTORY, actions, u, [Step(0, Fails, 1, 0)] + ([Step(0, Fine, 1, 0)] + []), t);
    actions := actions + ([Step(0, Fails, 1, 0)] + ([Step(0, Fine, 1, 0)] + []));
  }

  // `Ok` does not mean that the name holds the file: a FIFO or a device swapped in
  // between the two halves of the last inspection and streaming the same bytes
  // passes for it.
  lemma OkOverASpecialFile(digest: Bytes -> Digest, bytes: Bytes) returns (actions: seq<Action>, t: World)
    ensures Start(EMPTY_DIRECTORY) && Run(digest, EMPTY_DIRECTORY, actions, t)
    ensures 0 in t.writers && t.writers[0].pc == Done(Ok(digest(bytes))) && t.target == Other
  {
    var request := Request(bytes, Absent, Keep);
    actions := RunsToReadBack(digest, EMPTY_DIRECTORY, 0, request, 0, 1);
    var d := WithTemp(EMPTY_DIRECTORY, 0, 0, Inode(bytes, DEFAULT_MODE));
    var u := Landed(digest, d, 0, request, OpeningBack, None);
    var swapped := Apply(digest, u, EditName(Other));
    var rest;
    rest, t := ReadBackRuns(digest, swapped, 0, Streams(bytes), 1);
    Onward(digest, u, EditName(Other), swapped, rest, t);
    hide Run;
    RunAppend(digest, EMPTY_DIRECTORY, actions, u, [EditName(Other)] + rest, t);
    actions := actions + ([EditName(Other)] + rest);
  }

  // The world right before such a replace opens the name for its second check, and
  // right after the swap.
  function BeforeSwap(before: Bytes, bytes: Bytes, mode: Bits): World {
    World(map[0 := Inode(before, mode), 1 := Inode(bytes, mode)], File(0), map[0 := 1], None, map[], Outside, 0, 0)
  }

  function AfterSwap(before: Bytes, bytes: Bytes, mode: Bits): World {
    BeforeSwap(before, bytes, mode).(target := Other)
  }

  // The swapped-in file streams the expected bytes, and the write publishes.
  lemma SwappedThenReplaced(digest: Bytes -> Digest, before: Bytes, bytes: Bytes, mode: Bits)
      returns (actions: seq<Action>, t: World)
    ensures var request := Request(bytes, Sha256(digest(before)), Keep);
            var raced := Late(At(request, Some(mode), Reopening(Some(mode))));
            && Run(digest, Put(AfterSwap(before, bytes, mode), 0, raced), actions, t) && Only(actions, 0)
            && 0 in t.writers && t.writers[0].request == request && t.writers[0].landing.Some?
            && !t.writers[0].seen.raced && t.writers[0].landing.value.replaced == Irregular
  {
    var e := AfterSwap(before, bytes, mode);
    var request := Request(bytes, Sha256(digest(before)), Keep);
    var reopening := Late(At(request, Some(mode), Reopening(Some(mode))));
    var refreshing := reopening.(pc := Refreshing(Some(mode)),
                                 seen := Seen(false, true, false, false, None, Some(mode), None));
    var rereading := refreshing.(pc := Rereading(Some(mode), None));
    var correcting := refreshing.(pc := Correcting(Some(mode), None));
    var a := LookRuns(digest, e, 0, reopening, refreshing, Streams(before), 2);
    var b := LookRuns(digest, e, 0, refreshing, rereading, Fine, 2);
    var c := LookRuns(digest, e, 0, rereading, correcting, Fine, 2);
    var rest;
    rest, t := CorrectedThenReplaced(digest, before, bytes, mode, correcting);
    hide Run, Look;
    RunAppend(digest, Put(e, 0, rereading), c, Put(e, 0, correcting), rest, t);
    RunAppend(digest, Put(e, 0, refreshing), b, Put(e, 0, rereading), c + rest, t);
    RunAppend(digest, Put(e, 0, reopening), a, Put(e, 0, refreshing), b + (c + rest), t);
    actions := a + (b + (c + rest));
  }

  lemma CorrectedThenReplaced(digest: Bytes -> Digest, before: Bytes, bytes: Bytes, mode: Bits, writer: Writer)
      returns (actions: seq<Action>, t: World)
    requires writer.pc == Correcting(Some(mode), None) && writer.request.expected.Sha256? && !writer.seen.raced
    ensures Run(digest, Put(AfterSwap(before, bytes, mode), 0, writer), actions, t) && Only(actions, 0)
    ensures 0 in t.writers && t.writers[0].request == writer.request && t.writers[0].landing.Some?
    ensures !t.writers[0].seen.raced && t.writers[0].landing.value.replaced == Irregular
  {
    var u := Put(AfterSwap(before, bytes, mode), 0, writer);
    var ready := StepOf(digest, u, 0, Fine, 2, 0);
    t := StepOf(digest, ready, 0, Fine, 2, 0);
    assert Run(digest, t, [], t);
    Onward(digest, ready, Step(0, Fine, 2, 0), t, [], t);
    Onward(digest, u, Step(0, Fine, 2, 0), ready, [Step(0, Fine, 2, 0)] + [], t);
    actions := [Step(0, Fine, 2, 0)] + ([Step(0, Fine, 2, 0)] + []);
  }

  // Someone swaps the name for a special file while the write is about to open it.
  lemma SwapRuns(digest: Bytes -> Digest, before: Bytes, bytes: Bytes, mode: Bits)
      returns (actions: seq<Action>, t: World)
    ensures var request := Request(bytes, Sha256(digest(before)), Keep);
            var rechecking := At(request, Some(mode), Rechecking(Some(mode)));
            && Run(digest, Put(BeforeSwap(before, bytes, mode), 0, rechecking), actions, t)
            && 0 in t.writers && t.writers[0].request == request && t.writers[0].landing.Some?
            && !t.writers[0].seen.raced && t.writers[0].landing.value.replaced == Irregular
  {
    var request := Request(bytes, Sha256(digest(before)), Keep);
    var d, e := BeforeSwap(before, bytes, mode), AfterSwap(before, bytes, mode);
    var reopening := At(request, Some(mode), Reopening(Some(mode)));
    var looked := LookRuns(digest, d, 0, At(request, Some(mode), Rechecking(Some(mode))), reopening, Fine, 2);
    actions, t := SwappedThenReplaced(digest, before, bytes, mode);
    var u := Put(d, 0, reopening);
    assert Raced(u.writers) == map[0 := Late(reopening)];
    assert Apply(digest, u, EditName(Other)) == Put(e, 0, Late(reopening));
    Onward(digest, u, EditName(Other), Put(e, 0, Late(reopening)), actions, t);
    hide Run, Look, Apply;
    RunAppend(digest, Put(d, 0, At(request, Some(mode), Rechecking(Some(mode)))), looked,
              u, [EditName(Other)] + actions, t);
    actions := looked + ([EditName(Other)] + actions);
  }

  // A replace may replace what it never checked, with nobody touching the name
  // after its second check: a special file swapped in between the two halves of
  // that check and streaming the expected bytes is renamed over.
  lemma ReplacesASpecialFile(digest: Bytes -> Digest, before: Bytes, bytes: Bytes, mode: Bits)
      returns (actions: seq<Action>, s: World, t: World)
    ensures Start(s) && NameHolds(s, before) && Run(digest, s, actions, t)
    ensures 0 in t.writers && t.writers[0].request == Request(bytes, Sha256(digest(before)), Keep)
    ensures t.writers[0].landing.Some? && !t.writers[0].seen.raced && t.writers[0].landing.value.replaced == Irregular
  {
    var request := Request(bytes, Sha256(digest(before)), Keep);
    s := World(map[0 := Inode(before, mode)], File(0), map[], None, map[], Outside, 0, 0);
    var a := RunsToCreating(digest, s, 0, request, 1);
    var b := RunsToRechecking(digest, s, 0, request, Some(mode), Some(mode), 1, 2);
    var d := BeforeSwap(before, bytes, mode);
    assert WithTemp(s, 0, 1, Inode(bytes, mode)) == d;
    var rest;
    rest, t := SwapRuns(digest, before, bytes, mode);
    hide Run, Put, BeforeSwap, WithTemp;
    var creating := Put(s, 0, At(request, Some(mode), Creating(Some(mode))));
    RunAppend(digest, creating, b, Put(d, 0, At(request, Some(mode), Rechecking(Some(mode)))), rest, t);
    RunAppend(digest, s, a, creating, b + rest, t);
    actions := a + (b + rest);
  }

  // ---- A replaced file's bits, when the last `lstat` fails ----------------------

  // A replace of the file `before`, with its temporary file written.
  function Replacing(before: Inode, temp: Inode, source: Option<Bits>): World {
    World(map[0 := before, 1 := temp], File(0), map[0 := 1], source, map[], Outside, 0, 0)
  }

  // The bits such a write publishes when it cannot read the file's own again.
  function Unread(policy: ModePolicy, first: Bits, source: Option<Bits>): Bits {
    if policy == NoWiderThan && source.Some? then source.value else first
  }

  // What a write has seen then.
  function SeenUnread(first: Bits, source: Option<Bits>): Seen {
    Seen(false, false, true, false, source, Some(first), None)
  }

  function Unseeing(request: Request, first: Bits, pc: Pc): Writer {
    Writer(request, pc, SeenUnread(first, None), None, None)
  }

  // The four looks from the second check to the correction, the third failing.
  lemma LooksWithoutStat(digest: Bytes -> Digest, d: World, request: Request, first: Bits, initial: Bits, raced: bool)
    requires d.target == File(0) && 0 in d.inodes
    requires request.expected == Sha256(digest(d.inodes[0].content))
    requires request.policy == NoWiderThan ==> d.source.Some?
    ensures var at := At(request, Some(first), Rechecking(Some(initial)));
            var rechecking := at.(seen := at.seen.(raced := raced));
            var reopening := rechecking.(pc := Reopening(Some(initial)));
            var refreshing := at.(pc := Refreshing(Some(initial)));
            var rereading := Unseeing(request, first, Rereading(Some(initial), None));
            var latest := if request.policy == Keep then None else d.source;
            && Look(digest, Put(d, 0, rechecking), rechecking, Fine) == reopening
            && Look(digest, Put(d, 0, reopening), reopening, Fine) == refreshing
            && Look(digest, Put(d, 0, refreshing), refreshing, Fails) == rereading
            && Look(digest, Put(d, 0, rereading), rereading, Fine)
               == Writer(request, Correcting(Some(initial), latest), SeenUnread(first, d.source), None, None)
  {
  }

  // As a run.
  lemma StatFailsRuns(digest: Bytes -> Digest, d: World, request: Request, first: Bits, initial: Bits, raced: bool)
      returns (actions: seq<Action>)
    requires d.target == File(0) && 0 in d.inodes && 2 !in d.inodes
    requires request.expected == Sha256(digest(d.inodes[0].content))
    requires request.policy == NoWiderThan ==> d.source.Some?
    ensures var at := At(request, Some(first), Rechecking(Some(initial)));
            var latest := if request.policy == Keep then None else d.source;
            Run(digest, Put(d, 0, at.(seen := at.seen.(raced := raced))), actions,
                Put(d, 0, Writer(request, Correcting(Some(initial), latest), SeenUnread(first, d.source), None, None)))
    ensures Only(actions, 0)
  {
    hide Run, Look;
    var at := At(request, Some(first), Rechecking(Some(initial)));
    var rechecking := at.(seen := at.seen.(raced := raced));
    var reopening := rechecking.(pc := Reopening(Some(initial)));
    var refreshing := at.(pc := Refreshing(Some(initial)));
    var rereading := Unseeing(request, first, Rereading(Some(initial), None));
    var correcting := Writer(request, Correcting(Some(initial), if request.policy == Keep then None else d.source),
                             SeenUnread(first, d.source), None, None);
    LooksWithoutStat(digest, d, request, first, initial, raced);
    var a := LookRuns(digest, d, 0, rechecking, reopening, Fine, 2);
    var b := LookRuns(digest, d, 0, reopening, refreshing, Fine, 2);
    var c := LookRuns(digest, d, 0, refreshing, rereading, Fails, 2);
    actions := LookRuns(digest, d, 0, rereading, correcting, Fine, 2);
    RunAppend(digest, Put(d, 0, refreshing), c, Put(d, 0, rereading), actions, Put(d, 0, correcting));
    RunAppend(digest, Put(d, 0, reopening), b, Put(d, 0, refreshing), c + actions, Put(d, 0, correcting));
    RunAppend(digest, Put(d, 0, rechecking), a, Put(d, 0, reopening), b + (c + actions), Put(d, 0, correcting));
    actions := a + (b + (c + actions));
  }

  lemma CorrectionRuns(digest: Bytes -> Digest, before: Inode, temp: Inode, source: Option<Bits>, writer: Writer)
    requires writer.pc.Correcting? && writer.pc.initial == Some(temp.mode)
    ensures var mode := if writer.pc.latest.Some? then writer.pc.latest.value else temp.mode;
            Run(digest, Put(Replacing(before, temp, source), 0, writer), [Step(0, Fine, 2, 0)] + [],
                Put(Replacing(before, temp.(mode := mode), source), 0, writer.(pc := Publishing)))
  {
    var mode := if writer.pc.latest.Some? then writer.pc.latest.value else temp.mode;
    var u := Put(Replacing(before, temp, source), 0, writer);
    var t := Put(Replacing(before, temp.(mode := mode), source), 0, writer.(pc := Publishing));
    assert u.inodes[1 := temp.(mode := mode)] == t.inodes && u.writers[0 := writer.(pc := Publishing)] == t.writers;
    assert Run(digest, t, [], t);
    Onward(digest, u, Step(0, Fine, 2, 0), t, [], t);
  }

  // What the rename leaves.
  function Renamed(before: Inode, temp: Inode, source: Option<Bits>, writer: Writer): World {
    Replacing(before, temp, source).(target := File(1), temps := map[], writers := map[0 := writer], origin := By(0))
  }

  lemma RenameRuns(digest: Bytes -> Digest, before: Inode, temp: Inode, source: Option<Bits>, writer: Writer)
    requires writer.pc.Publishing? && writer.request.expected == Sha256(digest(before.content))
    ensures var landed := writer.(pc := ReadingBack,
                                  landing := Some(Landing(writer.request.expected, Some(before.mode), temp.mode)));
            Run(digest, Put(Replacing(before, temp, source), 0, writer), [Step(0, Fine, 2, 0)] + [],
                Renamed(before, temp, source, landed))
  {
    hide Look, OnTemp;
    var landed := writer.(pc := ReadingBack,
                          landing := Some(Landing(writer.request.expected, Some(before.mode), temp.mode)));
    var u, t := Put(Replacing(before, temp, source), 0, writer), Renamed(before, temp, source, landed);
    assert Raced(u.writers)[0 := landed] == t.writers && u.temps - {0} == t.temps;
    assert Run(digest, t, [], t);
    Onward(digest, u, Step(0, Fine, 2, 0), t, [], t);
  }

  // From the correction to the open that reads back.
  lemma CorrectedThenLands(digest: Bytes -> Digest, before: Inode, temp: Inode, source: Option<Bits>, writer: Writer)
      returns (actions: seq<Action>, t: World)
    requires writer.pc.Correcting? && writer.pc.initial == Some(temp.mode)
    requires writer.request.expected == Sha256(digest(before.content))
    ensures var mode := if writer.pc.latest.Some? then writer.pc.latest.value else temp.mode;
            && Run(digest, Put(Replacing(before, temp, source), 0, writer), actions, t) && Only(actions, 0)
            && t == Renamed(before, temp.(mode := mode), source, writer.(
                              pc := OpeningBack,
                              landing := Some(Landing(writer.request.expected, Some(before.mode), mode))))
  {
    var mode := if writer.pc.latest.Some? then writer.pc.latest.value else temp.mode;
    var now, ready := temp.(mode := mode), writer.(pc := Publishing);
    var reading := writer.(pc := ReadingBack,
                           landing := Some(Landing(writer.request.expected, Some(before.mode), mode)));
    var opening := reading.(pc := OpeningBack);
    var landed := Renamed(before, now, source, reading);
    t := Renamed(before, now, source, opening);
    CorrectionRuns(digest, before, temp, source, writer);
    RenameRuns(digest, before, now, source, ready);
    assert Put(landed, 0, reading) == landed && Put(landed, 0, opening) == t;
    actions := LookRuns(digest, landed, 0, reading, opening, Fine, 2);
    hide Run, Look, Put;
    var a := [Step(0, Fine, 2, 0)] + [];
    RunAppend(digest, Put(Replacing(before, now, source), 0, ready), a, landed, actions, t);
    RunAppend(digest, Put(Replacing(before, temp, source), 0, writer), a,
              Put(Replacing(before, now, source), 0, ready), a + actions, t);
    actions := a + (a + actions);
  }

  // The write ended with `Ok`, its bytes at the name under bits that never took the
  // replaced file's own into account, though nobody raced it.
  predicate EndsUnread(digest: Bytes -> Digest, t: World, before: Inode, request: Request, first: Bits,
                       source: Option<Bits>)
  {
    var mode := Unread(request.policy, first, source);
    && t.target == File(1) && t.inodes == map[0 := before, 1 := Inode(request.bytes, mode)]
    && 0 in t.writers && t.writers[0].pc == Done(Ok(digest(request.bytes)))
    && t.writers[0].landing == Some(Landing(request.expected, Some(before.mode), mode))
    && !t.writers[0].seen.raced && !t.writers[0].seen.viaSpecial && !t.writers[0].seen.sourceMoved
  }

  // From the open that reads back to `Ok`.
  lemma RenamedEndsOk(digest: Bytes -> Digest, before: Inode, request: Request, source: Option<Bits>, first: Bits)
      returns (actions: seq<Action>, t: World)
    ensures var mode := Unread(request.policy, first, source);
            var u := Renamed(before, Inode(request.bytes, mode), source,
                             Writer(request, OpeningBack, SeenUnread(first, source),
                                    Some(Landing(request.expected, Some(before.mode), mode)), None));
            Run(digest, u, actions, t) && Only(actions, 0)
    ensures EndsUnread(digest, t, before, request, first, source)
  {
    hide Run, Look;
    var mode := Unread(request.policy, first, source);
    var u := Renamed(before, Inode(request.bytes, mode), source,
                     Writer(request, OpeningBack, SeenUnread(first, source),
                            Some(Landing(request.expected, Some(before.mode), mode)), None));
    actions, t := ReadBackRuns(digest, u, 0, Fine, 2);
  }

  // From the second check to `Ok`.
  lemma StatFailsEndsOk(digest: Bytes -> Digest, before: Inode, request: Request, source: Option<Bits>,
                        first: Bits, initial: Bits, raced: bool) returns (actions: seq<Action>, t: World)
    requires request.expected == Sha256(digest(before.content))
    requires request.policy == NoWiderThan ==> source.Some?
    requires request.policy == Keep ==> initial == first
    ensures var at := At(request, Some(first), Rechecking(Some(initial)));
            var d := Replacing(before, Inode(request.bytes, initial), source);
            Run(digest, Put(d, 0, at.(seen := at.seen.(raced := raced))), actions, t) && Only(actions, 0)
    ensures EndsUnread(digest, t, before, request, first, source)
  {
    hide Run, Look, EndsUnread, Put, Renamed;
    var temp := Inode(request.bytes, initial);
    var d := Replacing(before, temp, source);
    var at := At(request, Some(first), Rechecking(Some(initial)));
    var correcting := Writer(request, Correcting(Some(initial), if request.policy == Keep then None else source),
                             SeenUnread(first, source), None, None);
    var a := StatFailsRuns(digest, d, request, first, initial, raced);
    var b, u := CorrectedThenLands(digest, before, temp, source, correcting);
    var c;
    c, t := RenamedEndsOk(digest, before, request, source, first);
    RunAppend(digest, Put(d, 0, correcting), b, u, c, t);
    RunAppend(digest, Put(d, 0, at.(seen := at.seen.(raced := raced))), a, Put(d, 0, correcting), b + c, t);
    actions := a + (b + c);
  }

  function OneFile(before: Inode, source: Option<Bits>): World {
    World(map[0 := before], File(0), map[], source, map[], Outside, 0, 0)
  }

  // A copy over a file can add bits that file never had: with nobody else acting
  // and the last `lstat` failing, it ends with `Ok` and all of the source's bits.
  lemma FailedStatWidens(digest: Bytes -> Digest, before: Inode, bytes: Bytes, source: Bits)
      returns (actions: seq<Action>, t: World)
    ensures var s := OneFile(before, Some(source));
            && Start(s) && NameHolds(s, before.content) && ModeOfTarget(s) == Some(before.mode)
            && Run(digest, s, actions, t) && Only(actions, 0)
    ensures EndsUnread(digest, t, before, Request(bytes, Sha256(digest(before.content)), NoWiderThan),
                       before.mode, Some(source))
    ensures ModeOfTarget(t) == Some(source)
  {
    var request := Request(bytes, Sha256(digest(before.content)), NoWiderThan);
    var s := OneFile(before, Some(source));
    var first, initial := before.mode, before.mode * source;
    var a := RunsToCreating(digest, s, 0, request, 1);
    var b := RunsToRechecking(digest, s, 0, request, Some(first), Some(initial), 1, 2);
    var d := Replacing(before, Inode(bytes, initial), Some(source));
    assert WithTemp(s, 0, 1, Inode(bytes, initial)) == d;
    var rest;
    rest, t := StatFailsEndsOk(digest, before, request, Some(source), first, initial, false);
    hide Run, Put, WithTemp, EndsUnread;
    var creating := Put(s, 0, At(request, Some(first), Creating(Some(initial))));
    RunAppend(digest, creating, b, Put(d, 0, At(request, Some(first), Rechecking(Some(initial)))), rest, t);
    RunAppend(digest, s, a, creating, b + rest, t);
    actions := a + (b + rest);
  }

  // So an owner-only file becomes one everybody can read.
  lemma OwnerOnlyBecomesReadable(digest: Bytes -> Digest, before: Bytes, bytes: Bytes)
      returns (actions: seq<Action>, t: World)
    ensures Run(digest, OneFile(Inode(before, OWNER_ONLY), Some({8, 7, 5, 2})), actions, t) && Only(actions, 0)
    ensures ModeOfTarget(t) == Some({8, 7, 5, 2}) && !({8, 7, 5, 2} <= OWNER_ONLY)
    ensures 0 in t.writers && t.writers[0].pc == Done(Ok(digest(bytes)))
  {
    hide Run;
    actions, t := FailedStatWidens(digest, Inode(before, OWNER_ONLY), bytes, {8, 7, 5, 2});
    assert 5 in {8, 7, 5, 2} && 5 !in OWNER_ONLY;
  }

  // A file replaced under `Keep` can get back bits it no longer had: changed after
  // the first check, they are not read again when the last `lstat` fails.
  lemma FailedStatRestores(digest: Bytes -> Digest, before: Inode, bytes: Bytes, now: Bits)
      returns (actions: seq<Action>, t: World)
    ensures var s := OneFile(before, None);
            && Start(s) && NameHolds(s, before.content) && Run(digest, s, actions, t)
    ensures EndsUnread(digest, t, before.(mode := now), Request(bytes, Sha256(digest(before.content)), Keep),
                       before.mode, None)
    ensures ModeOfTarget(t) == Some(before.mode)
  {
    var request := Request(bytes, Sha256(digest(before.content)), Keep);
    var s, first := OneFile(before, None), before.mode;
    var temp, changed := Inode(bytes, first), before.(mode := now);
    var a := RunsToCreating(digest, s, 0, request, 1);
    var b := RunsToRechecking(digest, s, 0, request, Some(first), Some(first), 1, 2);
    var at := At(request, Some(first), Rechecking(Some(first)));
    assert WithTemp(s, 0, 1, temp) == Replacing(before, temp, None);
    var rest;
    rest, t := StatFailsEndsOk(digest, changed, request, None, first, first, true);
    EditRuns(before, temp, changed, at);
    var u, v := Put(Replacing(before, temp, None), 0, at), Put(Replacing(changed, temp, None), 0, Late(at));
    assert Apply(digest, u, EditFile(0, changed)) == v;
    Onward(digest, u, EditFile(0, changed), v, rest, t);
    hide Run, Put, WithTemp, EndsUnread, Apply;
    var creating := Put(s, 0, At(request, Some(first), Creating(Some(first))));
    RunAppend(digest, creating, b, u, [EditFile(0, changed)] + rest, t);
    RunAppend(digest, s, a, creating, b + ([EditFile(0, changed)] + rest), t);
    actions := a + (b + ([EditFile(0, changed)] + rest));
  }

  lemma EditRuns(before: Inode, temp: Inode, changed: Inode, at: Writer)
    requires at.landing.None?
    ensures var u := Put(Replacing(before, temp, None), 0, at);
            && Raced(u.writers) == map[0 := Late(at)] && !Private(u, 0)
            && u.inodes[0 := changed] == map[0 := changed, 1 := temp]
  {
  }
}
