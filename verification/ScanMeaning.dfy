// What a scan owes each entry of the tree, told by the entry and the directories
// above it alone.
module ScanMeaning {
  import opened Basics
  import opened ScanReach
  import opened ScanWalk
  import Utf8

  // Everything under the outbox, and the outbox itself, is passed over.
  predicate InOutbox(request: Request, path: Path) {
    |request.outbox| <= |path| && path[..|request.outbox|] == request.outbox
  }

  // A directory called `.git` that holds `HEAD` and `objects`.
  predicate IsRepository(path: Path, node: Node) {
    && path != [] && path[|path| - 1] == [46, 103, 105, 116]
    && node.Directory? && node.holdsHead && node.holdsObjects
  }

  // A directory the walk goes into.
  predicate IsOpen(request: Request, path: Path, node: Node) {
    node.Directory? && node.access == Opens && !InOutbox(request, path) && !IsRepository(path, node)
  }

  // The entry found by going down the names, through directories the walk goes into.
  function EntryAt(request: Request, relative: Path, entries: seq<Entry>, names: seq<Name>): Option<Node>
    requires names != []
    decreases |names|
  {
    match Find(entries, names[0])
    case None => None
    case Some(node) =>
      if |names| == 1 then Some(node)
      else if IsOpen(request, relative + [names[0]], node)
      then EntryAt(request, relative + [names[0]], node.children, names[1..])
      else None
  }

  predicate IsText(path: Path) {
    forall i :: 0 <= i < |path| ==> Utf8.Decode(path[i]).Some?
  }

  // ---- Which entries are which ----------------------------------------------------

  // A file that can be read to its end, of a class and with a verdict that misplace
  // it.
  predicate IsMisplaced(request: Request, path: Path, node: Node, facts: Bytes) {
    && !InOutbox(request, path) && IsText(path)
    && node == RegularFile(Head(facts, true))
    && request.misplacedClass(path, facts) && request.finding(path, facts) == Misplaced
  }

  // A file examined and left: of no misplaced class, or with that verdict.
  predicate IsLeft(request: Request, path: Path, node: Node) {
    && !InOutbox(request, path) && IsText(path) && node.RegularFile? && node.probe.Head?
    && var facts := node.probe.facts;
       || !request.misplacedClass(path, facts)
       || (node.probe.digestible && request.finding(path, facts) == KeptWhereItIs)
  }

  // Passed over by a rule: the outbox, a link, a repository's own directory.
  predicate IsSkipped(request: Request, path: Path, node: Node) {
    || InOutbox(request, path)
    || node.Link?
    || (IsRepository(path, node) && node.access != OpenExhausted && node.access != OpenFails)
  }

  // Neither: no stat, no file and no directory, no readable file, no name a finding
  // could carry, or a directory that does not open or list.
  predicate IsUnread(request: Request, path: Path, node: Node) {
    && !InOutbox(request, path)
    && match node
       case NoStat => true
       case Other => true
       case Link => false
       case Directory(access, _, _, _) => access == OpenFails || (access == ListFails && !IsRepository(path, node))
       case RegularFile(probe) =>
         || !IsText(path)
         || probe.Refused?
         || (probe.Head? && request.misplacedClass(path, probe.facts)
             && (!probe.digestible || request.finding(path, probe.facts) == UnreportableName))
  }

  // What is left over: no descriptor was left for it.
  predicate IsExhausted(request: Request, path: Path, node: Node) {
    && !InOutbox(request, path)
    && match node
       case Directory(access, _, _, _) =>
         access == OpenExhausted || (access == ListExhausted && !IsRepository(path, node))
       case RegularFile(probe) => IsText(path) && probe.Exhausted?
       case _ => false
  }

  // The fate of an entry, without the bounds, is that of its kind.
  predicate IsItsFate(request: Request, path: Path, node: Node, fate: Fate) {
    match fate
    case Reported(facts) => IsMisplaced(request, path, node, facts)
    case Kept => IsLeft(request, path, node)
    case Excluded => IsSkipped(request, path, node)
    case Unreadable => IsUnread(request, path, node)
    case Descended(names) => IsOpen(request, path, node) && names == |node.children|
    case Cut => IsExhausted(request, path, node)
  }

  // Every entry is of exactly one kind, and meets that fate.
  lemma FateIsItsKind(request: Request, path: Path, node: Node, fate: Fate)
    requires path != []
    ensures Visit(request, false, path, node) == fate <==> IsItsFate(request, path, node, fate)
  {
    assert IsExcluded(path, request.outbox) <==> InOutbox(request, path);
    assert Nameable(path) <==> IsText(path);
    if node.RegularFile? && node.probe.Head? {
      match request.finding(path, node.probe.facts)
      case Misplaced =>
      case KeptWhereItIs =>
      case UnreportableName =>
    }
    hide InOutbox, IsExcluded, Nameable, IsText;
  }

  // Looking a path up by the walk's own fates and by kinds is the same.
  lemma {:induction false} FateAtIsKind(request: Request, relative: Path, entries: seq<Entry>, names: seq<Name>,
                                        fate: Fate)
    requires names != []
    ensures FateAt(request, false, relative, entries, names) == Some(fate) <==>
            && EntryAt(request, relative, entries, names).Some?
            && IsItsFate(request, relative + names, EntryAt(request, relative, entries, names).value, fate)
    decreases |names|
  {
    var path, found := relative + [names[0]], Find(entries, names[0]);
    if found.Some? {
      var node := found.value;
      if |names| == 1 {
        assert relative + names == path;
        FateIsItsKind(request, path, node, fate);
      } else {
        DescendsIffOpen(request, path, node);
        if IsOpen(request, path, node) {
          FateAtIsKind(request, path, node.children, names[1..], fate);
          assert path + names[1..] == relative + names;
        }
      }
    }
  }

  lemma DescendsIffOpen(request: Request, path: Path, node: Node)
    requires path != []
    ensures Visit(request, false, path, node).Descended? <==> IsOpen(request, path, node)
  {
    if node.Directory? {
      FateIsItsKind(request, path, node, Descended(|node.children|));
    }
  }
}
