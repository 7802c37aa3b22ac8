// The quarantine move: link, check, check, unlink, with undo, while others change
// the same directories between any two calls.
module QuarantineMove {
  import opened Basics

  type Name = Bytes
  type Ino = nat
  type Names = map<Name, Ino>

  // The two directories, each by what its names hold.
  datatype Dirs = Dirs(source: Names, dest: Names)

  // The directories at one moment, and as they would be had only others acted.
  datatype Moment = Moment(dirs: Dirs, alone: Dirs)

  // The held file, the name it was found under, and the name it is to get.
  datatype Call = Call(sourceName: Name, held: Ino, destName: Name)

  datatype FallbackReason = DifferentVolume | Failed

  datatype Outcome = Renamed | Fallback(reason: FallbackReason)

  datatype Identity = SameFile | DifferentFile | Missing

  // What others do to one directory at one moment: names bound or removed.
  type Edit = map<Name, Option<Ino>>

  datatype Edits = Edits(source: Edit, dest: Edit)

  // What others do before each of this call's own calls.
  datatype Others = Others(beforeLink: Edits, beforeDestCheck: Edits, beforeSourceCheck: Edits, beforeUnlink: Edits,
                           beforeUndo: Edits)

  datatype LinkAnswer = Linked | OtherVolume | Refused

  // How the system answers this call's own calls.
  datatype Answers = Answers(link: LinkAnswer, destStatFails: bool, sourceStatFails: bool,
                             unlinkFails: bool, undoFails: bool)

  function EditedNames(names: Names, edit: Edit): Names {
    map n | n in names.Keys + edit.Keys && (n in edit ==> edit[n].Some?)
      :: if n in edit then edit[n].value else names[n]
  }

  function EditedDirs(dirs: Dirs, edits: Edits): Dirs {
    Dirs(EditedNames(dirs.source, edits.source), EditedNames(dirs.dest, edits.dest))
  }

  function Edited(m: Moment, edits: Edits): Moment {
    Moment(EditedDirs(m.dirs, edits), EditedDirs(m.alone, edits))
  }

  // The identity check: a stat that fails for any reason but a missing name
  // reads as another file.
  function IdentityOf(names: Names, name: Name, held: Ino, statFails: bool): Identity {
    if statFails then DifferentFile
    else if name !in names then Missing
    else if names[name] == held then SameFile
    else DifferentFile
  }

  // Where a call ends, and every moment on the way.
  datatype Run = Run(outcome: Outcome, moments: seq<Moment>)

  function Last(run: Run): Moment
    requires run.moments != []
  {
    run.moments[|run.moments| - 1]
  }

  function LinkedIn(dirs: Dirs, call: Call, answer: LinkAnswer): Option<Dirs> {
    if answer == Linked && call.sourceName in dirs.source && call.destName !in dirs.dest
    then Some(dirs.(dest := dirs.dest[call.destName := dirs.source[call.sourceName]]))
    else None
  }

  function Undone(dirs: Dirs, call: Call, answers: Answers): Dirs {
    if answers.undoFails then dirs else dirs.(dest := dirs.dest - {call.destName})
  }

  // The whole call, as a function of the directories, what others do and how
  // the system answers.
  function Move(dirs: Dirs, call: Call, answers: Answers, others: Others): (r: Run)
    ensures r.moments != []
  {
    var start := Moment(dirs, dirs);
    var atLink := Edited(start, others.beforeLink);
    var linked := LinkedIn(atLink.dirs, call, answers.link);
    var began := [start] + [atLink];
    if linked.None? then Run(Fallback(if answers.link == OtherVolume then DifferentVolume else Failed), began)
    else
      var m := atLink.(dirs := linked.value);
      AfterLink(m, began + [m], call, answers, others)
  }

  // From the destination check on.
  function AfterLink(m: Moment, moments: seq<Moment>, call: Call, answers: Answers, others: Others): (r: Run)
    ensures r.moments != []
  {
    var atCheck := Edited(m, others.beforeDestCheck);
    var checked := moments + [atCheck];
    if IdentityOf(atCheck.dirs.dest, call.destName, call.held, answers.destStatFails) != SameFile
    then Undo(atCheck, checked, call, answers, others)
    else AfterDestCheck(atCheck, checked, call, answers, others)
  }

  // From the source check on.
  function AfterDestCheck(m: Moment, moments: seq<Moment>, call: Call, answers: Answers, others: Others): (r: Run)
    ensures r.moments != []
  {
    var atCheck := Edited(m, others.beforeSourceCheck);
    var checked := moments + [atCheck];
    if IdentityOf(atCheck.dirs.source, call.sourceName, call.held, answers.sourceStatFails) != SameFile
    then Run(Renamed, checked)
    else
      var atUnlink := Edited(atCheck, others.beforeUnlink);
      var source := atUnlink.dirs.source;
      if !answers.unlinkFails && call.sourceName in source
      then Run(Renamed, checked + [atUnlink]
               + [atUnlink.(dirs := atUnlink.dirs.(source := source - {call.sourceName}))])
      else Undo(atUnlink, checked + [atUnlink], call, answers, others)
  }

  function Undo(m: Moment, moments: seq<Moment>, call: Call, answers: Answers, others: Others): (r: Run)
    ensures r.moments != []
  {
    var atUndo := Edited(m, others.beforeUndo);
    Run(Fallback(Failed), moments + [atUndo] + [atUndo.(dirs := Undone(atUndo.dirs, call, answers))])
  }

  // The directories as the call finds and leaves them.
  class Directories {
    var source: Names
    var dest: Names
    // What others alone would have made of them, and every moment so far.
    ghost var alone: Dirs
    ghost var moments: seq<Moment>

    ghost function Now(): Moment
      reads this
    {
      Moment(Dirs(source, dest), alone)
    }

    constructor (source: Names, dest: Names)
      ensures Now() == Moment(Dirs(source, dest), Dirs(source, dest)) && moments == [Now()]
    {
      this.source, this.dest, this.alone := source, dest, Dirs(source, dest);
      this.moments := [Moment(Dirs(source, dest), Dirs(source, dest))];
    }

    // Others at work.
    method Interfere(edits: Edits)
      modifies this
      ensures Now() == Edited(old(Now()), edits) && moments == old(moments) + [Now()]
    {
      source, dest := EditedNames(source, edits.source), EditedNames(dest, edits.dest);
      alone := EditedDirs(alone, edits);
      moments := moments + [Now()];
    }

    // `linkat`: an exclusive create of the destination name.
    method Link(call: Call, answer: LinkAnswer) returns (ok: bool)
      modifies this
      ensures ok <==> LinkedIn(old(Now().dirs), call, answer).Some?
      ensures ok ==> Now() == old(Now()).(dirs := LinkedIn(old(Now().dirs), call, answer).value)
                     && moments == old(moments) + [Now()]
      ensures !ok ==> Now() == old(Now()) && moments == old(moments)
    {
      ok := answer == Linked && call.sourceName in source && call.destName !in dest;
      if ok {
        dest := dest[call.destName := source[call.sourceName]];
        moments := moments + [Now()];
      }
    }

    // Removes the destination this call created.
    method UndoLink(call: Call, answers: Answers, others: Others) returns (outcome: Outcome)
      modifies this
      ensures Run(outcome, moments) == Undo(old(Now()), old(moments), call, answers, others)
      ensures Now() == Last(Run(outcome, moments))
    {
      hide Edited;
      Interfere(others.beforeUndo);
      if !answers.undoFails {
        dest := dest - {call.destName};
      }
      moments := moments + [Now()];
      outcome := Fallback(Failed);
    }

    // From the source check on.
    method RemoveSource(call: Call, answers: Answers, others: Others) returns (outcome: Outcome)
      modifies this
      ensures Run(outcome, moments) == AfterDestCheck(old(Now()), old(moments), call, answers, others)
      ensures Now() == Last(Run(outcome, moments))
    {
      hide Edited, Undone, IdentityOf;
      Interfere(others.beforeSourceCheck);
      if IdentityOf(source, call.sourceName, call.held, answers.sourceStatFails) != SameFile {
        return Renamed;
      }
      Interfere(others.beforeUnlink);
      if !answers.unlinkFails && call.sourceName in source {
        source := source - {call.sourceName};
        moments := moments + [Now()];
        return Renamed;
      }
      outcome := UndoLink(call, answers, others);
    }

    // The move itself, call by call.
    method RenameAnchored(call: Call, answers: Answers, others: Others) returns (outcome: Outcome)
      requires alone == Dirs(source, dest) && moments == [Now()]
      modifies this
      ensures Run(outcome, moments) == Move(old(Now()).dirs, call, answers, others)
      ensures Now() == Last(Run(outcome, moments))
    {
      hide Edited, Undone, IdentityOf, AfterDestCheck, Undo, LinkedIn;
      Interfere(others.beforeLink);
      var linked := Link(call, answers.link);
      if !linked {
        return Fallback(if answers.link == OtherVolume then DifferentVolume else Failed);
      }
      Interfere(others.beforeDestCheck);
      if IdentityOf(dest, call.destName, call.held, answers.destStatFails) != SameFile {
        outcome := UndoLink(call, answers, others);
      } else {
        outcome := RemoveSource(call, answers, others);
      }
    }
  }
}
