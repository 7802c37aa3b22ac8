// How much of the tree a scan under its bounds covers, whether or not its report is
// complete.
module ScanCoverage {
  import opened Basics
  import opened ScanBounds
  import opened ScanLaws
  import opened ScanMeaning
  import opened ScanReach
  import opened ScanWalk
  import opened WrongRootScanner

  // ---- What the bounds leave in reach ----------------------------------------------

  // The names of a directory that a listing takes.
  function FirstNames(children: seq<Entry>): seq<Entry> {
    if |children| <= 20_000 then children else children[..20_000]
  }

  // The entry found by going down the names, through directories the walk goes into
  // at most 32 levels down, each among the first 20,000 names of the one above.
  function EntryWithin(request: Request, relative: Path, entries: seq<Entry>, names: seq<Name>): Option<Node>
    requires names != []
    decreases |names|
  {
    match Find(FirstNames(entries), names[0])
    case None => None
    case Some(node) =>
      if |names| == 1 then Some(node)
      else if IsOpen(request, relative + [names[0]], node) && |relative| < 32
      then EntryWithin(request, relative + [names[0]], node.children, names[1..])
      else None
  }

  // The fate of an entry is that of its kind, or, for a directory too deep, the cut.
  predicate IsFateWithin(request: Request, path: Path, node: Node, fate: Fate) {
    if node.Directory? && |path| > 32 && !InOutbox(request, path) then fate == Cut
    else IsItsFate(request, path, node, fate)
  }

  predicate LeadsWithin(request: Request, root: Node, path: Path, fate: Fate)
    requires root.Directory?
  {
    && path != [] && EntryWithin(request, [], root.children, path).Some?
    && IsFateWithin(request, path, EntryWithin(request, [], root.children, path).value, fate)
  }

  lemma FateWithin(request: Request, path: Path, node: Node, fate: Fate)
    requires path != []
    ensures Visit(request, true, path, node) == fate <==> IsFateWithin(request, path, node, fate)
    ensures Visit(request, true, path, node).Descended? <==> IsOpen(request, path, node) && |path| <= 32
  {
    assert IsExcluded(path, request.outbox) <==> InOutbox(request, path);
    FateIsItsKind(request, path, node, fate);
    DescendsIffOpen(request, path, node);
    hide InOutbox, IsExcluded, IsItsFate, VisitNode;
  }

  // Looking a path up by the limited walk's own fates and by kinds is the same.
  lemma {:induction false} FateAtWithin(request: Request, relative: Path, entries: seq<Entry>, names: seq<Name>,
                                        fate: Fate)
    requires names != []
    ensures FateAt(request, true, relative, Taken(true, entries), names) == Some(fate) <==>
            && EntryWithin(request, relative, entries, names).Some?
            && IsFateWithin(request, relative + names, EntryWithin(request, relative, entries, names).value, fate)
    decreases |names|
  {
    hide Visit, IsFateWithin, IsOpen;
    var path, found := relative + [names[0]], Find(Taken(true, entries), names[0]);
    assert Taken(true, entries) == FirstNames(entries);
    if found.Some? {
      FateWithin(request, path, found.value, fate);
      if |names| == 1 {
        assert relative + names == path;
      } else if IsOpen(request, path, found.value) && |relative| < 32 {
        OpenIsDirectory(request, path, found.value);
        FateAtWithin(request, path, found.value.children, names[1..], fate);
        assert path + names[1..] == relative + names;
      }
    }
  }

  lemma OpenIsDirectory(request: Request, path: Path, node: Node)
    requires IsOpen(request, path, node)
    ensures node.Directory?
  {
  }

  lemma LimitedIffLeads(request: Request, root: Node, path: Path, fate: Fate)
    requires root.Directory? && WellFormed(root) && path != []
    ensures Event(path, fate) in Walk(request, true, [], Listing(true, root.children))
       <==> LeadsWithin(request, root, path, fate)
  {
    hide Taken, IsFateWithin;
    ListingFacts(true, root.children);
    WalkMeets(request, true, [], Listing(true, root.children), path, fate);
    assert [] + path == path;
    FindInAnyOrder(Listing(true, root.children), Taken(true, root.children), path[0]);
    FateAtWithin(request, [], root.children, path, fate);
  }

  // ---- What the bound on entries leaves of that ---------------------------------------

  // The scan met 20,000 entries outside the outbox and stopped at the next one, which
  // is this path or comes before it.
  predicate StopsBy(outbox: Path, events: seq<Event>, left: nat, path: Path) {
    && events != [] && OutsideOf(outbox, events) == left + 1
    && var last := events[|events| - 1]; last.fate == Cut && (last.path == path || PathBefore(last.path, path))
  }

  lemma {:induction false} StoppedCovers(outbox: Path, events: seq<Event>, left: nat, e: Event)
    requires Increasing(events) && e in events
    ensures e in Stopped(outbox, events, left) || StopsBy(outbox, Stopped(outbox, events, left), left, e.path)
  {
    assert events == [events[0]] + events[1..];
    IncreasingAppend([events[0]], events[1..]);
    var out := IsExcluded(events[0].path, outbox);
    if out || left > 0 {
      var n := if out then left else left - 1;
      var rest := Stopped(outbox, events[1..], n);
      if e != events[0] {
        StoppedCovers(outbox, events[1..], n, e);
      }
      assert Stopped(outbox, events, left)[0] == events[0] && Stopped(outbox, events, left)[1..] == rest;
    } else {
      var stop := [Event(events[0].path, Cut)];
      assert Stopped(outbox, events, left) == stop && stop[1..] == [] && stop[|stop| - 1] == stop[0];
      assert OutsideOf(outbox, stop) == 1 + OutsideOf(outbox, []);
      assert events[0] in [events[0]];
    }
  }

  // Every scan, its report complete or not, meets what is in reach of its bounds, in
  // path order until it has met 20,000 entries, and nothing else.
  lemma TraceCovers(request: Request, root: Node, path: Path, fate: Fate)
    requires root.Directory? && WellFormed(root) && path != []
    ensures LeadsWithin(request, root, path, fate) ==>
              Event(path, fate) in Trace(request, root)
              || StopsBy(request.outbox, Trace(request, root), 20_000, path)
    ensures Event(path, fate) in Trace(request, root) ==>
              LeadsWithin(request, root, path, fate)
              || (fate == Cut && StopsBy(request.outbox, Trace(request, root), 20_000, path))
  {
    hide LeadsWithin, Listing;
    var walk := Walk(request, true, [], Listing(true, root.children));
    ListingFacts(true, root.children);
    WalkIncreasing(request, true, [], Listing(true, root.children));
    LimitedIffLeads(request, root, path, fate);
    var e := Event(path, fate);
    if e in walk {
      StoppedCovers(request.outbox, walk, 20_000, e);
    } else if e in Trace(request, root) {
      StoppedIsPart(request.outbox, walk, 20_000, e);
      var x :| x in walk && x.path == path;
      StoppedCovers(request.outbox, walk, 20_000, x);
      if x in Trace(request, root) {
        TraceIsReal(request, root);
        OnlyOne(Trace(request, root), x, e);
      }
    }
  }

  lemma OnlyOne(events: seq<Event>, x: Event, y: Event)
    requires Increasing(events) && x in events && y in events && x.path == y.path
    ensures x == y
  {
    PathBeforeIrreflexive(x.path);
    var i :| 0 <= i < |events| && events[i] == x;
    var j :| 0 <= j < |events| && events[j] == y;
  }

  // So a partial report misses only findings out of reach of its bounds: too deep, past
  // the 20,000th name of a directory, inside one that did not open, or after the
  // 20,000th entry.
  lemma PartialFindings(request: Request, root: Node, path: Path, facts: Bytes)
    requires root.Directory? && WellFormed(root) && path != []
    ensures var found := EntryWithin(request, [], root.children, path);
            && (Finding(path, facts) in Report(request, root).findings ==>
                  found.Some? && IsMisplaced(request, path, found.value, facts))
            && (found.Some? && IsMisplaced(request, path, found.value, facts) ==>
                  || Finding(path, facts) in Report(request, root).findings
                  || StopsBy(request.outbox, Trace(request, root), 20_000, path))
  {
    hide StopsBy, EntryWithin, IsMisplaced, Trace;
    var trace := Trace(request, root);
    TraceIsBounded(request, root);
    TallyCounts(trace, |root.children| > MAX_DIRECTORY_NAMES);
    FindingsAreReported(trace, path, facts);
    TraceCovers(request, root, path, Reported(facts));
    MisplacedIsFile(request, path, facts);
  }

  lemma MisplacedIsFile(request: Request, path: Path, facts: Bytes)
    ensures forall node :: IsMisplaced(request, path, node, facts) ==> !node.Directory?
  {
  }
}
