// What a scan's report says about the tree: exactly which trees give a complete
// one, and what a complete and a partial one hold.
module ScanLaws {
  import opened Basics
  import opened ScanBounds
  import opened ScanMeaning
  import opened ScanReach
  import opened ScanWalk
  import opened WrongRootScanner

  // The walk without bounds: every entry that can be reached, in path order.
  function FullWalk(request: Request, root: Node): seq<Event>
    requires root.Directory?
  {
    Walk(request, false, [], Ordered(root.children))
  }

  // ---- Complete or partial ----

  lemma {:induction false} TallyTruncated(start: ScanReport, events: seq<Event>)
    ensures Tally(start, events).truncated <==> start.truncated || !Clean(events)
  {
    if events != [] {
      var front, last := events[..|events| - 1], events[|events| - 1];
      TallyTruncated(start, front);
      assert events == front + [last];
      CleanAppend(front, [last]);
      assert last in [last];
    }
  }

  lemma ReachedInAnyOrder(request: Request, a: seq<Entry>, b: seq<Entry>)
    requires DistinctNames(a) && DistinctNames(b)
    requires forall e :: e in a <==> e in b
    requires ReachedFit(request, [], a)
    ensures ReachedFit(request, [], b)
  {
    forall names: seq<Name> | names != [] && NodeAt(request, [], b, names).Some?
      ensures NodeFits(request, [] + names, NodeAt(request, [], b, names).value)
    {
      FindInAnyOrder(a, b, names[0]);
      assert NodeAt(request, [], a, names) == NodeAt(request, [], b, names);
    }
  }

  // A report is complete exactly when no listing is cut short, nothing reached
  // exceeds a bound or finds no descriptor left, and the walk outside the outbox
  // has at most the bounded number of entries.
  lemma CompleteIff(request: Request, root: Node)
    requires root.Directory? && WellFormed(root)
    ensures !Report(request, root).truncated <==>
            && |root.children| <= 20_000
            && ReachedFit(request, [], root.children)
            && OutsideOf(request.outbox, FullWalk(request, root)) <= 20_000
  {
    TallyTruncated(EMPTY_REPORT.(truncated := |root.children| > MAX_DIRECTORY_NAMES), Trace(request, root));
    if |root.children| <= MAX_DIRECTORY_NAMES {
      var listing := Listing(true, root.children);
      StoppedIff(request.outbox, Walk(request, true, [], listing), MAX_SCANNED_ENTRIES);
      CleanIff(request, [], listing);
      AllFitIffReached(request, root.children);
      if OutsideOf(request.outbox, FullWalk(request, root)) > MAX_SCANNED_ENTRIES
         && Clean(Walk(request, true, [], listing)) {
        assert Walk(request, true, [], listing) == FullWalk(request, root);
      }
    }
  }

  lemma AllFitIffReached(request: Request, children: seq<Entry>)
    requires DistinctNames(children)
    ensures AllFit(request, [], Ordered(children)) <==> ReachedFit(request, [], children)
  {
    OrderedListing(children);
    if AllFit(request, [], Ordered(children)) {
      forall names: seq<Name> | names != [] && NodeAt(request, [], Ordered(children), names).Some?
        ensures NodeFits(request, [] + names, NodeAt(request, [], Ordered(children), names).value)
      {
        AllFitReached(request, [], Ordered(children), names);
      }
      ReachedInAnyOrder(request, Ordered(children), children);
    }
    if ReachedFit(request, [], children) {
      ReachedInAnyOrder(request, children, Ordered(children));
      ReachedAllFit(request, [], Ordered(children));
    }
  }

  // A complete report is that of the walk without bounds.
  lemma CompleteIsWhole(request: Request, root: Node)
    requires root.Directory? && WellFormed(root)
    requires !Report(request, root).truncated
    ensures Trace(request, root) == FullWalk(request, root)
  {
    CompleteIff(request, root);
    AllFitIffReached(request, root.children);
    var listing := Listing(true, root.children);
    CleanIff(request, [], listing);
    StoppedIff(request.outbox, Walk(request, true, [], listing), MAX_SCANNED_ENTRIES);
  }

  // Any report, partial or not, is of entries of that walk, in path order, so
  // none is met twice; only the cuts are the scan's own.
  lemma TraceIsReal(request: Request, root: Node)
    requires root.Directory? && WellFormed(root)
    ensures forall e :: e in Trace(request, root) && !e.fate.Cut? ==> e in FullWalk(request, root)
    ensures Increasing(Trace(request, root))
  {
    var listing := Listing(true, root.children);
    ListingFacts(true, root.children);
    OrderedListing(root.children);
    WalkIncreasing(request, true, [], listing);
    StoppedIncreasing(request.outbox, Walk(request, true, [], listing), MAX_SCANNED_ENTRIES);
    forall e | e in Trace(request, root) && !e.fate.Cut?
      ensures e in FullWalk(request, root)
    {
      StoppedIsPart(request.outbox, Walk(request, true, [], listing), MAX_SCANNED_ENTRIES, e);
      LimitedIsWithin(request, [], listing, e);
      WalkOfPart(request, [], listing, Ordered(root.children), e);
    }
  }

  // ---- How much a scan does ----

  // The walk never goes inside the outbox.
  lemma {:induction false} OnlyTheOutboxItself(request: Request, relative: Path, entries: seq<Entry>, e: Event)
    requires !IsExcluded(relative, request.outbox)
    requires e in Walk(request, true, relative, entries) && IsExcluded(e.path, request.outbox)
    ensures e.path == request.outbox
    decreases Size(entries)
  {
    var path, node := relative + [entries[0].name], entries[0].node;
    if e in Below(request, true, path, node) {
      OnlyTheOutboxItself(request, path, Listing(true, node.children), e);
    } else if e in Walk(request, true, relative, entries[1..]) {
      OnlyTheOutboxItself(request, relative, entries[1..], e);
    } else {
      assert path[..|path| - 1] == relative;
    }
  }

  lemma {:induction false} AllButOneOutside(outbox: Path, events: seq<Event>)
    requires Increasing(events)
    requires forall e :: e in events && IsExcluded(e.path, outbox) ==> e.path == outbox
    ensures |events| <= OutsideOf(outbox, events) + 1
    ensures (forall e :: e in events ==> e.path != outbox) ==> |events| == OutsideOf(outbox, events)
  {
    if events != [] {
      var first, rest := events[0], events[1..];
      assert forall e :: e in rest ==> e in events;
      assert forall i, j :: 0 <= i < j < |rest| ==> rest[i] == events[i + 1] && rest[j] == events[j + 1];
      AllButOneOutside(outbox, rest);
      if first.path == outbox {
        forall e | e in rest
          ensures e.path != outbox
        {
          var i :| 0 <= i < |rest| && rest[i] == e;
          assert events[i + 1] == e;
          PathBeforeIrreflexive(outbox);
        }
      }
    }
  }

  // Twenty thousand entries are examined at most, one more is what the scan stops
  // at, and the outbox is passed over once.
  lemma TraceIsBounded(request: Request, root: Node)
    requires root.Directory? && WellFormed(root)
    ensures |Trace(request, root)| <= 20_002
  {
    var walk := Walk(request, true, [], Listing(true, root.children));
    TraceIsReal(request, root);
    StoppedExamines(request.outbox, walk, MAX_SCANNED_ENTRIES);
    forall e | e in Trace(request, root) && IsExcluded(e.path, request.outbox)
      ensures e.path == request.outbox
    {
      StoppedIsPart(request.outbox, walk, MAX_SCANNED_ENTRIES, e);
      var x :| x in walk && x.path == e.path;
      OnlyTheOutboxItself(request, [], Listing(true, root.children), x);
    }
    AllButOneOutside(request.outbox, Trace(request, root));
  }

  lemma {:induction false} DeepestIsReached(events: seq<Event>)
    ensures Deepest(events) == 0
         || exists e :: e in events && e.fate.Descended? && |e.path| == Deepest(events)
  {
    if events != [] {
      var front, last := events[..|events| - 1], events[|events| - 1];
      DeepestIsReached(front);
      assert events == front + [last];
      if Deepest(events) == Deepest(front) != 0 {
        var e :| e in front && e.fate.Descended? && |e.path| == Deepest(front);
        assert e in events;
      } else {
        assert last in events;
      }
    }
  }

  lemma {:induction false} DescendsWithinDepth(request: Request, relative: Path, entries: seq<Entry>, e: Event)
    requires e in Walk(request, true, relative, entries) && e.fate.Descended?
    ensures |e.path| <= MAX_SCAN_DEPTH
    decreases Size(entries)
  {
    var path, node := relative + [entries[0].name], entries[0].node;
    if e in Below(request, true, path, node) {
      DescendsWithinDepth(request, path, Listing(true, node.children), e);
    } else if e in Walk(request, true, relative, entries[1..]) {
      DescendsWithinDepth(request, relative, entries[1..], e);
    }
  }

  // Never more than thirty-three directories are open at once.
  lemma FramesAreBounded(request: Request, root: Node)
    requires root.Directory?
    ensures 1 + Deepest(Trace(request, root)) <= 33
  {
    var walk := Walk(request, true, [], Listing(true, root.children));
    DeepestIsReached(Trace(request, root));
    if Deepest(Trace(request, root)) != 0 {
      var e :| e in Trace(request, root) && e.fate.Descended? && |e.path| == Deepest(Trace(request, root));
      StoppedIsPart(request.outbox, walk, MAX_SCANNED_ENTRIES, e);
      DescendsWithinDepth(request, [], Listing(true, root.children), e);
    }
  }

  // ---- The counters and the findings ----

  // Where an outcome is accounted for.
  datatype Bucket = Scanned | Skipped | Unread | Entered | Bounded

  function BucketOf(fate: Fate): Bucket {
    match fate
    case Reported(_) => Scanned
    case Kept => Scanned
    case Excluded => Skipped
    case Unreadable => Unread
    case Descended(_) => Entered
    case Cut => Bounded
  }

  function CountOf(events: seq<Event>, bucket: Bucket): nat {
    if events == [] then 0
    else CountOf(events[..|events| - 1], bucket) + if BucketOf(events[|events| - 1].fate) == bucket then 1 else 0
  }

  function FindingsOf(events: seq<Event>): seq<Finding> {
    if events == [] then []
    else
      var last := events[|events| - 1];
      FindingsOf(events[..|events| - 1]) + if last.fate.Reported? then [Finding(last.path, last.fate.facts)] else []
  }

  lemma {:induction false} TallyCounts(events: seq<Event>, cutShort: bool)
    requires |events| < 0x1_0000_0000
    ensures var report := Tally(EMPTY_REPORT.(truncated := cutShort), events);
            && report.findings == FindingsOf(events)
            && report.scanned == CountOf(events, Scanned)
            && report.excluded == CountOf(events, Skipped)
            && report.unreadable == CountOf(events, Unread)
            && report.scanned + report.excluded + report.unreadable
               + CountOf(events, Entered) + CountOf(events, Bounded) == |events|
  {
    if events != [] {
      TallyCounts(events[..|events| - 1], cutShort);
    }
  }

  // The three counters of a report are exact and disjoint: none saturates, and
  // every name drawn is in one of them, or entered, or cut.
  lemma ReportCounts(request: Request, root: Node)
    requires root.Directory? && WellFormed(root)
    ensures var report, trace := Report(request, root), Trace(request, root);
            && report.scanned == CountOf(trace, Scanned)
            && report.excluded == CountOf(trace, Skipped)
            && report.unreadable == CountOf(trace, Unread)
            && report.scanned + report.excluded + report.unreadable
               + CountOf(trace, Entered) + CountOf(trace, Bounded) == |trace|
            && |report.findings| <= report.scanned
            && (report.truncated <==> |root.children| > MAX_DIRECTORY_NAMES || exists e :: e in trace && IsPartial(e))
  {
    TraceIsBounded(request, root);
    TallyCounts(Trace(request, root), |root.children| > MAX_DIRECTORY_NAMES);
    FewerFindings(Trace(request, root));
    TallyTruncated(EMPTY_REPORT.(truncated := |root.children| > MAX_DIRECTORY_NAMES), Trace(request, root));
  }

  lemma {:induction false} FewerFindings(events: seq<Event>)
    ensures |FindingsOf(events)| <= CountOf(events, Scanned)
  {
    if events != [] {
      FewerFindings(events[..|events| - 1]);
    }
  }

  lemma {:induction false} FindingsAreReported(events: seq<Event>, path: Path, facts: Bytes)
    ensures Finding(path, facts) in FindingsOf(events) <==> Event(path, Reported(facts)) in events
  {
    if events != [] {
      var front, last := events[..|events| - 1], events[|events| - 1];
      FindingsAreReported(front, path, facts);
      assert events == front + [last];
    }
  }

  lemma {:induction false} FindingsInOrder(events: seq<Event>)
    requires Increasing(events)
    ensures forall i, j :: 0 <= i < j < |FindingsOf(events)| ==>
              PathBefore(FindingsOf(events)[i].path, FindingsOf(events)[j].path)
  {
    if events != [] {
      var front, last := events[..|events| - 1], events[|events| - 1];
      assert events == front + [last];
      IncreasingAppend(front, [last]);
      FindingsInOrder(front);
      forall f | f in FindingsOf(front)
        ensures PathBefore(f.path, last.path)
      {
        FindingsAreReported(front, f.path, f.facts);
        assert last in [last];
      }
    }
  }

  // The path leads to an entry of that fate's kind.
  predicate Leads(request: Request, root: Node, path: Path, fate: Fate)
    requires root.Directory?
  {
    && path != [] && EntryAt(request, [], root.children, path).Some?
    && IsItsFate(request, path, EntryAt(request, [], root.children, path).value, fate)
  }

  // Every finding of a report, partial or not, is a file that can be read to its end,
  // of a misplaced class and with that verdict, at a text path outside the outbox to
  // which every directory above it opens and is no repository's own; each is there
  // once, in path order; and a complete report has all of them.
  lemma FindingsExactly(request: Request, root: Node)
    requires root.Directory? && WellFormed(root)
    ensures var report := Report(request, root);
            && (forall path: Path, facts {:trigger Finding(path, facts)} ::
                  path != [] && Finding(path, facts) in report.findings ==>
                    EntryAt(request, [], root.children, path).Some?
                    && IsMisplaced(request, path, EntryAt(request, [], root.children, path).value, facts))
            && (!report.truncated ==>
                  forall path: Path, facts {:trigger Finding(path, facts)} :: path != [] ==>
                    (Finding(path, facts) in report.findings
                     <==> EntryAt(request, [], root.children, path).Some?
                          && IsMisplaced(request, path, EntryAt(request, [], root.children, path).value, facts)))
            && (forall i, j :: 0 <= i < j < |report.findings| ==>
                  PathBefore(report.findings[i].path, report.findings[j].path))
  {
    var report, trace := Report(request, root), Trace(request, root);
    TraceIsBounded(request, root);
    TallyCounts(trace, |root.children| > MAX_DIRECTORY_NAMES);
    TraceIsReal(request, root);
    FindingsInOrder(trace);
    forall path: Path, facts | path != []
      ensures Finding(path, facts) in report.findings ==> Leads(request, root, path, Reported(facts))
      ensures !report.truncated && Leads(request, root, path, Reported(facts)) ==>
                Finding(path, facts) in report.findings
    {
      FindingsAreReported(trace, path, facts);
      MetIffLeads(request, root, path, Reported(facts));
      if !report.truncated {
        CompleteIsWhole(request, root);
      }
    }
  }

  // The walk meets a path with a fate exactly when it leads to an entry of that kind.
  lemma MetIffLeads(request: Request, root: Node, path: Path, fate: Fate)
    requires root.Directory? && WellFormed(root) && path != []
    ensures Event(path, fate) in FullWalk(request, root) <==> Leads(request, root, path, fate)
  {
    OrderedListing(root.children);
    WalkMeets(request, false, [], Ordered(root.children), path, fate);
    assert [] + path == path;
    FindInAnyOrder(Ordered(root.children), root.children, path[0]);
    FateAtIsKind(request, [], root.children, path, fate);
  }

  // ---- Which entries a report counts where --------------------------------------

  // The paths of the events in one bucket.
  function PathsOf(events: seq<Event>, bucket: Bucket): set<Path> {
    set e | e in events && BucketOf(e.fate) == bucket :: e.path
  }

  lemma PathsNext(front: seq<Event>, last: Event, bucket: Bucket)
    ensures PathsOf(front + [last], bucket) ==
            PathsOf(front, bucket) + if BucketOf(last.fate) == bucket then {last.path} else {}
  {
    hide BucketOf;
    var all := front + [last];
    forall path
      ensures path in PathsOf(all, bucket) <==>
              path in PathsOf(front, bucket) || (BucketOf(last.fate) == bucket && path == last.path)
    {
      if path in PathsOf(front, bucket) {
        var e :| e in front && BucketOf(e.fate) == bucket && e.path == path;
        assert e in all;
      }
      if BucketOf(last.fate) == bucket && path == last.path {
        assert last in all;
      }
    }
  }

  lemma {:induction false} CountIsPaths(events: seq<Event>, bucket: Bucket)
    requires Increasing(events)
    ensures |PathsOf(events, bucket)| == CountOf(events, bucket)
  {
    hide BucketOf, Increasing, PathBefore;
    if events != [] {
      var front, last := events[..|events| - 1], events[|events| - 1];
      assert events == front + [last];
      IncreasingAppend(front, [last]);
      CountIsPaths(front, bucket);
      PathsNext(front, last, bucket);
      if last.path in PathsOf(front, bucket) {
        var e :| e in front && BucketOf(e.fate) == bucket && e.path == last.path;
        assert last in [last] && PathBefore(e.path, last.path);
        PathBeforeIrreflexive(last.path);
      }
    }
  }

  // A kind of entries a counter stands for.
  predicate Counts(request: Request, path: Path, node: Node, bucket: Bucket) {
    match bucket
    case Scanned =>
      || IsLeft(request, path, node)
      || (node.RegularFile? && node.probe.Head? && IsMisplaced(request, path, node, node.probe.facts))
    case Skipped => IsSkipped(request, path, node)
    case Unread => IsUnread(request, path, node)
    case Entered => IsOpen(request, path, node)
    case Bounded => IsExhausted(request, path, node)
  }

  predicate CountsAt(request: Request, root: Node, path: Path, bucket: Bucket)
    requires root.Directory?
  {
    && path != [] && EntryAt(request, [], root.children, path).Some?
    && Counts(request, path, EntryAt(request, [], root.children, path).value, bucket)
  }

  // `scanned` counts the files examined, misplaced or left; `excluded` what a rule
  // passes over; `unreadable` what could not be opened, read or named: as many of
  // each as the trace meets, every one of that kind, and in a complete report all of
  // that kind that a path leads to.
  lemma CountersExactly(request: Request, root: Node, bucket: Bucket) returns (paths: set<Path>)
    requires root.Directory? && WellFormed(root) && bucket != Bounded
    ensures var report := Report(request, root);
            && (bucket == Scanned ==> |paths| == report.scanned)
            && (bucket == Skipped ==> |paths| == report.excluded)
            && (bucket == Unread ==> |paths| == report.unreadable)
            && (forall path :: path in paths ==> CountsAt(request, root, path, bucket))
            && (!report.truncated ==> forall path :: path in paths <==> CountsAt(request, root, path, bucket))
  {
    var trace := Trace(request, root);
    paths := PathsOf(trace, bucket);
    TraceIsReal(request, root);
    ReportCounts(request, root);
    CountIsPaths(trace, bucket);
    forall path | path in paths
      ensures CountsAt(request, root, path, bucket)
    {
      var e :| e in trace && BucketOf(e.fate) == bucket && e.path == path;
      EventLeads(request, root, e);
      KindIsCounted(request, path, EntryAt(request, [], root.children, path).value, e.fate, bucket);
    }
    if !Report(request, root).truncated {
      CompleteIsWhole(request, root);
      forall path | CountsAt(request, root, path, bucket)
        ensures path in paths
      {
        var fate := FateOfKind(request, path, EntryAt(request, [], root.children, path).value, bucket);
        MetIffLeads(request, root, path, fate);
        assert Event(path, fate) in trace;
      }
    }
  }

  lemma EventLeads(request: Request, root: Node, e: Event)
    requires root.Directory? && WellFormed(root) && e in FullWalk(request, root)
    ensures Leads(request, root, e.path, e.fate)
  {
    WalkPaths(request, false, [], Ordered(root.children), e);
    MetIffLeads(request, root, e.path, e.fate);
    assert e == Event(e.path, e.fate);
  }

  lemma KindIsCounted(request: Request, path: Path, node: Node, fate: Fate, bucket: Bucket)
    requires IsItsFate(request, path, node, fate) && BucketOf(fate) == bucket
    ensures Counts(request, path, node, bucket)
  {
    hide IsLeft, IsSkipped, IsUnread, IsExhausted, IsOpen;
  }

  lemma FateOfKind(request: Request, path: Path, node: Node, bucket: Bucket) returns (fate: Fate)
    requires Counts(request, path, node, bucket) && bucket != Bounded
    ensures IsItsFate(request, path, node, fate) && BucketOf(fate) == bucket
  {
    hide IsLeft, IsSkipped, IsUnread, IsExhausted;
    fate :=
      match bucket
      case Scanned => if IsLeft(request, path, node) then Kept else Reported(node.probe.facts)
      case Skipped => Excluded
      case Unread => Unreadable
      case Entered => Descended(|node.children|)
      case Bounded => Cut;
  }
}
