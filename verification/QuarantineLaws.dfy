// What the quarantine move promises, against what others do meanwhile.
module QuarantineLaws {
  import opened Basics
  import opened QuarantineMove

  // Once this call has linked the destination name, nobody else touches it.
  predicate KeepOffDest(others: Others, name: Name) {
    && name !in others.beforeDestCheck.dest && name !in others.beforeSourceCheck.dest
    && name !in others.beforeUnlink.dest && name !in others.beforeUndo.dest
  }

  predicate KeepOffSource(others: Others, name: Name) {
    && name !in others.beforeLink.source && name !in others.beforeDestCheck.source
    && name !in others.beforeSourceCheck.source && name !in others.beforeUnlink.source
    && name !in others.beforeUndo.source
  }

  predicate Holds(names: Names, name: Name, ino: Ino) {
    name in names && names[name] == ino
  }

  // The destination directory is what others alone would have made of it, with
  // at most a name added that nothing else held.
  predicate OnlyAdds(m: Moment, name: Name) {
    || m.dirs.dest == m.alone.dest
    || (name in m.dirs.dest && name !in m.alone.dest && m.dirs.dest == m.alone.dest[name := m.dirs.dest[name]])
  }

  // The name this call added, and the file under it.
  predicate Added(m: Moment, name: Name, ino: Ino) {
    name !in m.alone.dest && m.dirs.dest == m.alone.dest[name := ino]
  }

  lemma EditKeepsOff(names: Names, edit: Edit, name: Name, ino: Ino)
    requires name !in edit && name !in names
    ensures name !in EditedNames(names, edit)
    ensures EditedNames(names[name := ino], edit) == EditedNames(names, edit)[name := ino]
  {
  }

  lemma EditKeepsAdded(m: Moment, edits: Edits, name: Name, ino: Ino)
    requires name !in edits.dest && Added(m, name, ino)
    ensures Added(Edited(m, edits), name, ino)
  {
    EditKeepsOff(m.alone.dest, edits.dest, name, ino);
  }

  // The undo of an added name leaves what others alone made; a failed undo, the
  // name still added.
  lemma UndoIsExact(m: Moment, moments: seq<Moment>, call: Call, answers: Answers, others: Others, ino: Ino)
    requires call.destName !in others.beforeUndo.dest && Added(m, call.destName, ino)
    requires m.dirs.source == m.alone.source
    ensures var r := Undo(m, moments, call, answers, others);
            && r.outcome.Fallback?
            && (forall x :: x in r.moments ==> x in moments || OnlyAdds(x, call.destName))
            && (if answers.undoFails then Added(Last(r), call.destName, ino)
                else Last(r).dirs.dest == Last(r).alone.dest)
            && Last(r).dirs.source == Last(r).alone.source
  {
    EditKeepsAdded(m, others.beforeUndo, call.destName, ino);
  }

  // Others' edits elsewhere, and the unlink of the source name, keep the added name.
  lemma AddedToTheUnlink(m: Moment, call: Call, others: Others)
    requires KeepOffDest(others, call.destName) && Added(m, call.destName, call.held)
    ensures var atCheck := Edited(m, others.beforeSourceCheck);
            var atUnlink := Edited(atCheck, others.beforeUnlink);
            var unlinked := atUnlink.(dirs := atUnlink.dirs.(source := atUnlink.dirs.source - {call.sourceName}));
            && Added(atCheck, call.destName, call.held) && OnlyAdds(atCheck, call.destName)
            && Added(atUnlink, call.destName, call.held) && OnlyAdds(atUnlink, call.destName)
            && Added(unlinked, call.destName, call.held) && OnlyAdds(unlinked, call.destName)
  {
    hide EditedNames;
    var atCheck := Edited(m, others.beforeSourceCheck);
    EditKeepsAdded(m, others.beforeSourceCheck, call.destName, call.held);
    EditKeepsAdded(atCheck, others.beforeUnlink, call.destName, call.held);
  }

  lemma EditKeepsSource(m: Moment, edits: Edits)
    requires m.dirs.source == m.alone.source
    ensures Edited(m, edits).dirs.source == Edited(m, edits).alone.source
  {
  }

  // From the source check on, the destination name leads to the held file, and
  // still does when the call ends with `Renamed`.
  lemma FromSourceCheck(m: Moment, moments: seq<Moment>, call: Call, answers: Answers, others: Others)
    requires KeepOffDest(others, call.destName) && Added(m, call.destName, call.held)
    requires m.dirs.source == m.alone.source
    ensures Exact(AfterDestCheck(m, moments, call, answers, others), moments, call, answers)
  {
    hide Undo, Edited, Added, OnlyAdds, IdentityOf;
    var atCheck := Edited(m, others.beforeSourceCheck);
    var atUnlink := Edited(atCheck, others.beforeUnlink);
    AddedToTheUnlink(m, call, others);
    EditKeepsSource(m, others.beforeSourceCheck);
    EditKeepsSource(atCheck, others.beforeUnlink);
    UndoIsExact(atUnlink, moments + [atCheck] + [atUnlink], call, answers, others, call.held);
  }

  // From the destination check on: a link to another file is undone, and the
  // held file's own link goes on to the source check.
  lemma FromDestCheck(m: Moment, moments: seq<Moment>, call: Call, answers: Answers, others: Others, ino: Ino)
    requires KeepOffDest(others, call.destName) && Added(m, call.destName, ino)
    requires m.dirs.source == m.alone.source
    ensures Exact(AfterLink(m, moments, call, answers, others), moments, call, answers)
  {
    var atCheck := Edited(m, others.beforeDestCheck);
    EditKeepsAdded(m, others.beforeDestCheck, call.destName, ino);
    var checked := moments + [atCheck];
    if IdentityOf(atCheck.dirs.dest, call.destName, call.held, answers.destStatFails) == SameFile {
      FromSourceCheck(atCheck, checked, call, answers, others);
    } else {
      UndoIsExact(atCheck, checked, call, answers, others, ino);
    }
    hide Undo, AfterDestCheck, EditedNames;
  }

  // Every later moment only adds the name; `Renamed` ends with exactly the held
  // file added; a fallback leaves the directory exactly as others alone would
  // have, and the source directory too.
  ghost predicate Exact(r: Run, before: seq<Moment>, call: Call, answers: Answers)
    requires r.moments != []
  {
    && (forall m :: m in r.moments ==> m in before || OnlyAdds(m, call.destName))
    && (r.outcome == Renamed ==> Added(Last(r), call.destName, call.held))
    && (r.outcome.Fallback? ==> Last(r).dirs.source == Last(r).alone.source)
    && (r.outcome.Fallback? && !answers.undoFails ==> Last(r).dirs.dest == Last(r).alone.dest)
  }

  // What one whole call does: nothing others put in the destination directory is
  // ever replaced or removed, at any moment, and the call ends as `Exact` says.
  lemma MoveIsExact(dirs: Dirs, call: Call, answers: Answers, others: Others)
    requires KeepOffDest(others, call.destName)
    ensures Exact(Move(dirs, call, answers, others), [], call, answers)
  {
    hide AfterLink, EditedNames, IdentityOf;
    var start := Moment(dirs, dirs);
    var atLink := Edited(start, others.beforeLink);
    var linked := LinkedIn(atLink.dirs, call, answers.link);
    if linked.Some? {
      var m := atLink.(dirs := linked.value);
      FromDestCheck(m, [start] + [atLink] + [m], call, answers, others, atLink.dirs.source[call.sourceName]);
    }
  }

  // Whether the call removed the source name.
  predicate Unlinks(dirs: Dirs, call: Call, answers: Answers, others: Others) {
    var end := Last(Move(dirs, call, answers, others));
    call.sourceName in end.alone.source && call.sourceName !in end.dirs.source
  }

  // What an unlink removed: the name of the held file exactly when nobody bound
  // it to another file between the second identity check and the unlink.
  predicate RemovedOnlyTheHeld(end: Moment, call: Call, others: Others) {
    && end.dirs.source == end.alone.source - {call.sourceName}
    && (Holds(end.alone.source, call.sourceName, call.held)
        <==> (call.sourceName in others.beforeUnlink.source
              ==> others.beforeUnlink.source[call.sourceName] == Some(call.held)))
  }

  lemma SourceFromCheck(m: Moment, moments: seq<Moment>, call: Call, answers: Answers, others: Others)
    requires m.dirs.source == m.alone.source
    ensures var end := Last(AfterDestCheck(m, moments, call, answers, others));
            if call.sourceName in end.alone.source && call.sourceName !in end.dirs.source
            then RemovedOnlyTheHeld(end, call, others) else end.dirs.source == end.alone.source
  {
  }

  // The source directory loses nothing to the call but the source name, and that
  // only as `RemovedOnlyTheHeld` says.
  lemma OnlyTheHeldFileLosesItsName(dirs: Dirs, call: Call, answers: Answers, others: Others)
    ensures var end := Last(Move(dirs, call, answers, others));
            if Unlinks(dirs, call, answers, others)
            then RemovedOnlyTheHeld(end, call, others) else end.dirs.source == end.alone.source
  {
    var start := Moment(dirs, dirs);
    var atLink := Edited(start, others.beforeLink);
    var linked := LinkedIn(atLink.dirs, call, answers.link);
    if linked.Some? {
      var m := atLink.(dirs := linked.value);
      var atCheck := Edited(m, others.beforeDestCheck);
      SourceFromCheck(atCheck, [start] + [atLink] + [m] + [atCheck], call, answers, others);
    }
    hide AfterDestCheck, EditedNames, RemovedOnlyTheHeld;
  }

  const NOBODY := Edits(map[], map[])

  // Someone binding the source name to another file in that window loses it: the
  // call answers `Renamed`, and that file's name is gone.
  lemma AnotherFileLosesItsName(call: Call, other: Ino)
    requires other != call.held
    ensures var others := Others(NOBODY, NOBODY, NOBODY, Edits(map[call.sourceName := Some(other)], map[]), NOBODY);
            var r := Move(Dirs(map[call.sourceName := call.held], map[]), call,
                          Answers(Linked, false, false, false, false), others);
            && r.outcome == Renamed && Holds(Last(r).alone.source, call.sourceName, other)
            && Last(r).dirs == Dirs(map[], map[call.destName := call.held])
  {
  }

  // Left alone, a move goes through: from any directories in which the source name
  // holds the file and the destination name is free, exactly that name has moved.
  lemma AloneMoves(dirs: Dirs, call: Call)
    requires Holds(dirs.source, call.sourceName, call.held) && call.destName !in dirs.dest
    ensures var r := Move(dirs, call, Answers(Linked, false, false, false, false),
                          Others(NOBODY, NOBODY, NOBODY, NOBODY, NOBODY));
            && r.outcome == Renamed
            && Last(r).dirs == Dirs(dirs.source - {call.sourceName}, dirs.dest[call.destName := call.held])
  {
    hide EditedNames, Undo;
    var linked := dirs.(dest := dirs.dest[call.destName := call.held]);
    NobodyEdits(Moment(dirs, dirs));
    NobodyEdits(Moment(linked, dirs));
  }

  // `Renamed` leaves the file under its old name as well exactly when the stat of
  // the second check failed while the name still held it.
  lemma RenamedKeepsOldNameIff(dirs: Dirs, call: Call, answers: Answers, others: Others)
    requires Move(dirs, call, answers, others).outcome == Renamed
    ensures var end := Last(Move(dirs, call, answers, others));
            Holds(end.dirs.source, call.sourceName, call.held)
            <==> answers.sourceStatFails && Holds(end.alone.source, call.sourceName, call.held)
  {
  }

  // Nobody else acts and that one stat fails: the call answers `Renamed`, and the
  // file keeps both names.
  lemma BothNamesLeft(call: Call)
    ensures var r := Move(Dirs(map[call.sourceName := call.held], map[]), call,
                          Answers(Linked, false, true, false, false), Others(NOBODY, NOBODY, NOBODY, NOBODY, NOBODY));
            && r.outcome == Renamed
            && Last(r).dirs == Dirs(map[call.sourceName := call.held], map[call.destName := call.held])
  {
  }

  // The directories as the link, the two checks and the unlink each find them.
  function AtLink(dirs: Dirs, others: Others): Dirs {
    EditedDirs(dirs, others.beforeLink)
  }

  predicate Links(dirs: Dirs, call: Call, answers: Answers, others: Others) {
    var found := AtLink(dirs, others);
    answers.link == Linked && call.sourceName in found.source && call.destName !in found.dest
  }

  function AtDestCheck(dirs: Dirs, call: Call, others: Others): Dirs
    requires call.sourceName in AtLink(dirs, others).source
  {
    var found := AtLink(dirs, others);
    EditedDirs(Dirs(found.source, found.dest[call.destName := found.source[call.sourceName]]), others.beforeDestCheck)
  }

  // How a call ends, exactly. `DifferentVolume` is what the system says of the link;
  // a link that is refused, or that nothing can be linked by, is `Failed`. Past it the
  // call is `Renamed` when the destination is seen to hold the held file and either
  // the source is not seen to, or its name is removed; and `Failed` otherwise.
  lemma OutcomeIff(dirs: Dirs, call: Call, answers: Answers, others: Others)
    ensures var outcome := Move(dirs, call, answers, others).outcome;
            && (outcome == Fallback(DifferentVolume) <==> answers.link == OtherVolume)
            && (outcome == Renamed <==>
                  && Links(dirs, call, answers, others)
                  && !answers.destStatFails
                  && var first := AtDestCheck(dirs, call, others);
                     var second := EditedDirs(first, others.beforeSourceCheck);
                     var last := EditedDirs(second, others.beforeUnlink);
                     && Holds(first.dest, call.destName, call.held)
                     && (|| answers.sourceStatFails || !Holds(second.source, call.sourceName, call.held)
                         || (!answers.unlinkFails && call.sourceName in last.source)))
            && (outcome == Renamed || outcome == Fallback(DifferentVolume) || outcome == Fallback(Failed))
  {
    hide EditedNames;
  }

  predicate Named(m: Moment, call: Call) {
    Holds(m.dirs.source, call.sourceName, call.held) || Holds(m.dirs.dest, call.destName, call.held)
  }

  lemma UndoKeepsNamed(m: Moment, moments: seq<Moment>, call: Call, answers: Answers, others: Others)
    requires call.sourceName !in others.beforeUndo.source && Holds(m.dirs.source, call.sourceName, call.held)
    ensures forall x :: x in Undo(m, moments, call, answers, others).moments ==> x in moments || Named(x, call)
  {
  }

  // Both names lead to the file up to the unlink, and the new one after it.
  lemma BothNamesToTheUnlink(m: Moment, call: Call, others: Others)
    requires KeepOffSource(others, call.sourceName) && KeepOffDest(others, call.destName)
    requires Holds(m.dirs.source, call.sourceName, call.held) && Holds(m.dirs.dest, call.destName, call.held)
    ensures var atCheck := Edited(m, others.beforeSourceCheck);
            var atUnlink := Edited(atCheck, others.beforeUnlink);
            var unlinked := atUnlink.(dirs := atUnlink.dirs.(source := atUnlink.dirs.source - {call.sourceName}));
            && Named(atCheck, call) && Named(atUnlink, call) && Named(unlinked, call)
            && Holds(atUnlink.dirs.source, call.sourceName, call.held)
  {
  }

  lemma SourceCheckKeepsNamed(m: Moment, moments: seq<Moment>, call: Call, answers: Answers, others: Others)
    requires KeepOffSource(others, call.sourceName) && KeepOffDest(others, call.destName)
    requires Holds(m.dirs.source, call.sourceName, call.held) && Holds(m.dirs.dest, call.destName, call.held)
    ensures forall x :: x in AfterDestCheck(m, moments, call, answers, others).moments ==>
              x in moments || Named(x, call)
  {
    hide Undo, Edited, IdentityOf, Named;
    var atCheck := Edited(m, others.beforeSourceCheck);
    var atUnlink := Edited(atCheck, others.beforeUnlink);
    BothNamesToTheUnlink(m, call, others);
    UndoKeepsNamed(atUnlink, moments + [atCheck] + [atUnlink], call, answers, others);
  }

  lemma DestCheckKeepsNamed(m: Moment, moments: seq<Moment>, call: Call, answers: Answers, others: Others)
    requires KeepOffSource(others, call.sourceName) && KeepOffDest(others, call.destName)
    requires Holds(m.dirs.source, call.sourceName, call.held)
    ensures forall x :: x in AfterLink(m, moments, call, answers, others).moments ==> x in moments || Named(x, call)
  {
    var atCheck := Edited(m, others.beforeDestCheck);
    assert Named(atCheck, call);
    if IdentityOf(atCheck.dirs.dest, call.destName, call.held, answers.destStatFails) == SameFile {
      SourceCheckKeepsNamed(atCheck, moments + [atCheck], call, answers, others);
    } else {
      UndoKeepsNamed(atCheck, moments + [atCheck], call, answers, others);
    }
    hide Undo, AfterDestCheck, Edited, Named;
  }

  // The name holds the file up to the link, and with the link.
  lemma NamedToTheLink(dirs: Dirs, call: Call, answers: Answers, others: Others)
    requires KeepOffSource(others, call.sourceName) && Holds(dirs.source, call.sourceName, call.held)
    ensures var start := Moment(dirs, dirs);
            var atLink := Edited(start, others.beforeLink);
            && Named(start, call) && Named(atLink, call)
            && var linked := LinkedIn(atLink.dirs, call, answers.link);
               linked.Some? ==>
                 var m := atLink.(dirs := linked.value);
                 Named(m, call) && Holds(m.dirs.source, call.sourceName, call.held)
  {
  }

  // With the source name left alone by others, the held file has a name at every
  // moment of the call, however the system answers.
  lemma NamedThroughout(dirs: Dirs, call: Call, answers: Answers, others: Others)
    requires KeepOffSource(others, call.sourceName) && KeepOffDest(others, call.destName)
    requires Holds(dirs.source, call.sourceName, call.held)
    ensures forall m :: m in Move(dirs, call, answers, others).moments ==> Named(m, call)
  {
    hide AfterLink, Edited, Named, LinkedIn;
    var start := Moment(dirs, dirs);
    var atLink := Edited(start, others.beforeLink);
    NamedToTheLink(dirs, call, answers, others);
    var linked := LinkedIn(atLink.dirs, call, answers.link);
    if linked.Some? {
      var m := atLink.(dirs := linked.value);
      DestCheckKeepsNamed(m, [start] + [atLink] + [m], call, answers, others);
    }
  }

  // Someone removing the source name between the second check and the unlink is
  // outside that guarantee: the unlink fails, the undo takes the only name left.
  lemma LastNameLost(call: Call)
    ensures var others := Others(NOBODY, NOBODY, NOBODY, Edits(map[call.sourceName := None], map[]), NOBODY);
            var r := Move(Dirs(map[call.sourceName := call.held], map[]), call,
                          Answers(Linked, false, false, false, false), others);
            && r.outcome == Fallback(Failed) && Last(r).dirs == Dirs(map[], map[])
            && exists m :: m in r.moments && Holds(m.dirs.dest, call.destName, call.held)
  {
    hide EditedNames;
    var name := call.sourceName;
    var start := Dirs(map[name := call.held], map[]);
    var linked := start.(dest := map[call.destName := call.held]);
    NobodyEdits(Moment(start, start));
    NobodyEdits(Moment(linked, start));
    RemovesName(name, call.held);
    var unnamed := Moment(linked.(source := map[]), start.(source := map[]));
    assert Edited(Moment(linked, start), Edits(map[name := None], map[])) == unnamed;
    NobodyEdits(unnamed);
    assert unnamed.dirs.dest - {call.destName} == map[];
  }

  lemma RemovesName(name: Name, ino: Ino)
    ensures EditedNames(map[name := ino], map[name := None]) == map[]
  {
  }

  lemma NobodyEdits(m: Moment)
    ensures Edited(m, NOBODY) == m
    ensures EditedNames(m.dirs.dest, map[]) == m.dirs.dest && EditedNames(m.alone.dest, map[]) == m.alone.dest
  {
  }
}
