// The bounded, explicit-stack scan, and that it is the limited walk, stopped at the
// bound on entries.
module WrongRootScanner {
  import opened Basics
  import opened ScanBounds
  import opened ScanWalk

  datatype Finding = Finding(path: Path, facts: Bytes)

  datatype ScanReport = ScanReport(findings: seq<Finding>, scanned: nat, excluded: nat, unreadable: nat,
                                   truncated: bool)

  datatype ScanError = RootUnreadable

  // One directory the walk is inside, and the names it has left there.
  datatype Frame = Frame(relative: Path, depth: nat, names: seq<Entry>)

  const EMPTY_REPORT := ScanReport([], 0, 0, 0, false)

  // A 32-bit counter that sticks at its end.
  function Saturating(n: nat): nat {
    if n < 0xFFFF_FFFF then n + 1 else n
  }

  // How one outcome enters the report.
  function Account(report: ScanReport, e: Event): ScanReport {
    match e.fate
    case Reported(facts) =>
      report.(findings := report.findings + [Finding(e.path, facts)], scanned := Saturating(report.scanned))
    case Kept => report.(scanned := Saturating(report.scanned))
    case Excluded => report.(excluded := Saturating(report.excluded))
    case Unreadable => report.(unreadable := Saturating(report.unreadable))
    case Descended(names) => report.(truncated := report.truncated || names > MAX_DIRECTORY_NAMES)
    case Cut => report.(truncated := true)
  }

  function Tally(start: ScanReport, events: seq<Event>): ScanReport {
    if events == [] then start
    else Account(Tally(start, events[..|events| - 1]), events[|events| - 1])
  }

  // ---- What a scan is to answer ----

  // Every name a scan draws, with its fate.
  function Trace(request: Request, root: Node): seq<Event>
    requires root.Directory?
  {
    Stopped(request.outbox, Walk(request, true, [], Listing(true, root.children)), MAX_SCANNED_ENTRIES)
  }

  function Report(request: Request, root: Node): ScanReport
    requires root.Directory?
  {
    Tally(EMPTY_REPORT.(truncated := |root.children| > MAX_DIRECTORY_NAMES), Trace(request, root))
  }

  // How many levels down the directories entered reach.
  function Deepest(events: seq<Event>): nat {
    if events == [] then 0
    else
      var last := events[|events| - 1];
      var before := Deepest(events[..|events| - 1]);
      if last.fate.Descended? && |last.path| > before then |last.path| else before
  }

  // ---- The stack ----

  // What the frames still hold, the innermost first.
  function Pending(request: Request, stack: seq<Frame>): seq<Event> {
    if stack == [] then []
    else
      var top := Top(stack);
      Walk(request, true, top.relative, top.names) + Pending(request, stack[..|stack| - 1])
  }

  function Weight(stack: seq<Frame>): nat {
    if stack == [] then 0
    else 1 + Size(Top(stack).names) + Weight(stack[..|stack| - 1])
  }

  function Top(stack: seq<Frame>): Frame
    requires stack != []
  {
    stack[|stack| - 1]
  }

  predicate CanDraw(stack: seq<Frame>) {
    stack != [] && Top(stack).names != []
  }

  function DrawnPath(stack: seq<Frame>): (path: Path)
    requires CanDraw(stack)
    ensures path != []
  {
    Top(stack).relative + [Top(stack).names[0].name]
  }

  function DrawnNode(stack: seq<Frame>): Node
    requires CanDraw(stack)
  {
    Top(stack).names[0].node
  }

  // The next event of the limited walk.
  function Drawn(request: Request, stack: seq<Frame>): Event
    requires CanDraw(stack)
  {
    Event(DrawnPath(stack), Visit(request, true, DrawnPath(stack), DrawnNode(stack)))
  }

  // The stack once the next name has been drawn from its top frame.
  function Left(stack: seq<Frame>): seq<Frame>
    requires CanDraw(stack)
  {
    stack[..|stack| - 1] + [Top(stack).(names := Top(stack).names[1..])]
  }

  // And once the directory at that name has been entered, if it is.
  function NextStack(request: Request, stack: seq<Frame>): seq<Frame>
    requires CanDraw(stack)
  {
    if Drawn(request, stack).fate.Descended?
    then Left(stack) + [Frame(DrawnPath(stack), Top(stack).depth + 1, Listing(true, DrawnNode(stack).children))]
    else Left(stack)
  }

  // One frame a level: the frames' paths are as long as they are deep.
  predicate Levels(stack: seq<Frame>) {
    forall k :: 0 <= k < |stack| ==> stack[k].depth == k == |stack[k].relative|
  }

  // The drawn name is the next event pending, and what it leaves is pending next.
  lemma NextPending(request: Request, stack: seq<Frame>)
    requires CanDraw(stack)
    ensures Pending(request, stack) == [Drawn(request, stack)] + Pending(request, NextStack(request, stack))
    ensures Weight(NextStack(request, stack)) < Weight(stack)
  {
    var path, node, left, next := DrawnPath(stack), DrawnNode(stack), Left(stack), NextStack(request, stack);
    var below, later := Below(request, true, path, node), Walk(request, true, Top(stack).relative, Top(left).names);
    var outer := Pending(request, stack[..|stack| - 1]);
    assert left[..|left| - 1] == stack[..|stack| - 1];
    assert Pending(request, left) == later + outer;
    assert [Drawn(request, stack)] + below + later + outer == [Drawn(request, stack)] + (below + (later + outer));
    if Drawn(request, stack).fate.Descended? {
      assert next[..|next| - 1] == left;
    } else {
      assert below + (later + outer) == later + outer;
    }
  }

  lemma NextLevels(request: Request, stack: seq<Frame>)
    requires CanDraw(stack) && Levels(stack)
    ensures Levels(NextStack(request, stack)) && |DrawnPath(stack)| == |stack|
  {
  }

  lemma PopPending(request: Request, stack: seq<Frame>)
    requires stack != [] && Top(stack).names == []
    ensures Pending(request, stack) == Pending(request, stack[..|stack| - 1])
  {
    var outer := Pending(request, stack[..|stack| - 1]);
    assert [] + outer == outer;
  }

  // ---- The loop and its parts ----

  // `sorted_names`
  method SortedNames(children: seq<Entry>) returns (names: seq<Entry>, complete: bool)
    ensures names == Listing(true, children)
    ensures complete <==> |children| <= MAX_DIRECTORY_NAMES
  {
    names, complete := [], true;
    var i := 0;
    while i < |children|
      invariant 0 <= i <= |children| && i <= MAX_DIRECTORY_NAMES
      invariant names == children[..i] && complete
    {
      if |names| >= MAX_DIRECTORY_NAMES {
        complete := false;
        break;
      }
      names := names + [children[i]];
      i := i + 1;
    }
    assert children[..|children|] == children;
    names := Ordered(names);
  }

  // `open_child`
  method OpenChild(request: Request, frame: Frame, path: Path, node: Node, report: ScanReport)
    returns (report': ScanReport, child: Option<Frame>)
    requires node.Directory? && |path| == frame.depth + 1 && !IsExcluded(path, request.outbox)
    ensures var fate := Visit(request, true, path, node);
            && (child.Some? <==> fate.Descended?)
            && (child.Some? ==> child == Some(Frame(path, frame.depth + 1, Listing(true, node.children))))
            && report' == Account(report, Event(path, fate))
  {
    report', child := report, None;
    if frame.depth + 1 > MAX_SCAN_DEPTH {
      report' := report'.(truncated := true);
      return;
    }
    if node.access == OpenExhausted {
      report' := report'.(truncated := true);
      return;
    }
    if node.access == OpenFails {
      report' := report'.(unreadable := Saturating(report.unreadable));
      return;
    }
    if path[|path| - 1] == GIT_DIR && node.holdsHead && node.holdsObjects {
      report' := report'.(excluded := Saturating(report.excluded));
      return;
    }
    if node.access == ListExhausted {
      report' := report'.(truncated := true);
      return;
    }
    if node.access == ListFails {
      report' := report'.(unreadable := Saturating(report.unreadable));
      return;
    }
    var names, complete := SortedNames(node.children);
    if !complete {
      report' := report'.(truncated := true);
    }
    child := Some(Frame(path, frame.depth + 1, names));
  }

  // `examine_file`
  method ExamineFile(request: Request, path: Path, probe: Probe, report: ScanReport) returns (report': ScanReport)
    ensures report' == Account(report, Event(path, VisitFile(request, path, probe)))
  {
    report' := report;
    if !Nameable(path) {
      return report'.(unreadable := Saturating(report.unreadable));
    }
    match probe {
      case Exhausted =>
        report' := report'.(truncated := true);
      case Refused =>
        report' := report'.(unreadable := Saturating(report.unreadable));
      case Head(facts, digestible) =>
        if !request.misplacedClass(path, facts) {
          return report'.(scanned := Saturating(report.scanned));
        }
        if !digestible {
          return report'.(unreadable := Saturating(report.unreadable));
        }
        match request.finding(path, facts) {
          case Misplaced =>
            report' := report'.(scanned := Saturating(report.scanned),
                                findings := report.findings + [Finding(path, facts)]);
          case KeptWhereItIs =>
            report' := report'.(scanned := Saturating(report.scanned));
          case UnreportableName =>
            report' := report'.(unreadable := Saturating(report.unreadable));
        }
    }
  }

  // The rest of a round, once the name is drawn and counted: what the entry is
  // decides the report and whether a frame is pushed.
  method Advance(request: Request, stack: seq<Frame>, report: ScanReport)
    returns (stack': seq<Frame>, report': ScanReport)
    requires CanDraw(stack) && Levels(stack)
    requires !IsExcluded(DrawnPath(stack), request.outbox)
    ensures stack' == NextStack(request, stack)
    ensures report' == Account(report, Drawn(request, stack))
  {
    var frame := stack[|stack| - 1];
    var path, node := frame.relative + [frame.names[0].name], frame.names[0].node;
    report' := report;
    stack' := stack[..|stack| - 1] + [frame.(names := frame.names[1..])];
    match node {
      case NoStat =>
        report' := report'.(unreadable := Saturating(report.unreadable));
      case Link =>
        report' := report'.(excluded := Saturating(report.excluded));
      case Other =>
        report' := report'.(unreadable := Saturating(report.unreadable));
      case Directory(_, _, _, _) =>
        var descend;
        report', descend := OpenChild(request, frame, path, node, report);
        if descend.Some? {
          stack' := stack' + [descend.value];
        }
      case RegularFile(probe) =>
        report' := ExamineFile(request, path, probe, report);
    }
  }

  // The frames are one a level, and what is still to come is what the bound on
  // entries leaves of what is pending.
  ghost predicate Going(request: Request, root: Node, stack: seq<Frame>, trace: seq<Event>, examined: nat)
    requires root.Directory? && examined <= MAX_SCANNED_ENTRIES
  {
    && Levels(stack)
    && Trace(request, root) == trace + Stopped(request.outbox, Pending(request, stack), MAX_SCANNED_ENTRIES - examined)
  }

  // `scan`. For the proof only, `trace` lists every name drawn and its fate, and
  // `deepest` is the most frames ever open at once.
  method Scan(request: Request, root: Node)
    returns (r: Result<ScanReport, ScanError>, ghost trace: seq<Event>, ghost deepest: nat)
    requires root.Directory?
    ensures r == if root.access == Opens then Ok(Report(request, root)) else Err(RootUnreadable)
    ensures r.Ok? ==> trace == Trace(request, root) && deepest == 1 + Deepest(trace)
  {
    hide Account, Tally, Pending, Walk, Weight, Listing, Drawn, NextStack, Stopped, Deepest, Going;
    trace, deepest := [], 0;
    if root.access != Opens {
      return Err(RootUnreadable), trace, deepest;
    }
    var names, complete := SortedNames(root.children);
    var report := EMPTY_REPORT.(truncated := !complete);
    var examined: nat := 0;
    var stack := [Frame([], 0, names)];
    deepest := 1;
    ghost var start := report;
    Started(request, root);
    while stack != []
      invariant examined <= MAX_SCANNED_ENTRIES && Going(request, root, stack, trace, examined)
      invariant report == Tally(start, trace)
      invariant |stack| <= deepest == 1 + Deepest(trace)
      decreases Weight(stack)
    {
      var frame := stack[|stack| - 1];
      if frame.names == [] {
        Popped(request, root, stack, trace, examined);
        stack := stack[..|stack| - 1];
        continue;
      }
      var path := frame.relative + [frame.names[0].name];
      GoesByLevels(request, root, stack, trace, examined);
      Accounted(request, start, stack, trace);
      if IsExcluded(path, request.outbox) {
        PassedOver(request, root, stack, trace, examined, report);
        report := report.(excluded := Saturating(report.excluded));
        trace := trace + [Drawn(request, stack)];
        stack := stack[..|stack| - 1] + [frame.(names := frame.names[1..])];
        continue;
      }
      if examined >= MAX_SCANNED_ENTRIES {
        Stops(request, root, stack, trace, start);
        report := report.(truncated := true);
        trace := trace + [Event(path, Cut)];
        return Ok(report), trace, deepest;
      }
      examined := examined + 1;
      Examined(request, root, stack, trace, examined);
      trace := trace + [Drawn(request, stack)];
      stack, report := Advance(request, stack, report);
      deepest := if |stack| > deepest then |stack| else deepest;
    }
    Finished(request, root, trace, examined);
    return Ok(report), trace, deepest;
  }

  lemma Started(request: Request, root: Node)
    requires root.Directory?
    ensures Going(request, root, [Frame([], 0, Listing(true, root.children))], [], 0)
    ensures Tally(EMPTY_REPORT.(truncated := |root.children| > MAX_DIRECTORY_NAMES), []) ==
            EMPTY_REPORT.(truncated := |root.children| > MAX_DIRECTORY_NAMES)
    ensures Deepest([]) == 0
  {
    var stack := [Frame([], 0, Listing(true, root.children))];
    assert stack[..0] == [];
    assert Pending(request, stack) == Walk(request, true, [], Listing(true, root.children)) + [];
    assert Pending(request, stack) == Walk(request, true, [], Listing(true, root.children));
  }

  lemma GoesByLevels(request: Request, root: Node, stack: seq<Frame>, trace: seq<Event>, examined: nat)
    requires root.Directory? && examined <= MAX_SCANNED_ENTRIES && Going(request, root, stack, trace, examined)
    ensures Levels(stack)
  {
  }

  lemma Popped(request: Request, root: Node, stack: seq<Frame>, trace: seq<Event>, examined: nat)
    requires root.Directory? && examined <= MAX_SCANNED_ENTRIES && Going(request, root, stack, trace, examined)
    requires stack != [] && Top(stack).names == []
    ensures Going(request, root, stack[..|stack| - 1], trace, examined)
    ensures Weight(stack[..|stack| - 1]) < Weight(stack)
  {
    hide Trace, Stopped, Walk, Pending, Listing;
    PopPending(request, stack);
  }

  // One more event in the trace, one more entry in the account.
  lemma Accounted(request: Request, start: ScanReport, stack: seq<Frame>, trace: seq<Event>)
    requires CanDraw(stack) && Levels(stack)
    ensures var now := Drawn(request, stack);
            && Tally(start, trace + [now]) == Account(Tally(start, trace), now)
            && Deepest(trace + [now]) == (if now.fate.Descended? && |stack| > Deepest(trace) then |stack|
               else Deepest(trace))
            && |NextStack(request, stack)| == (if now.fate.Descended? then |stack| + 1 else |stack|)
  {
    assert (trace + [Drawn(request, stack)])[..|trace|] == trace;
  }

  lemma PassedOver(request: Request, root: Node, stack: seq<Frame>, trace: seq<Event>, examined: nat,
                     report: ScanReport)
    requires root.Directory? && examined <= MAX_SCANNED_ENTRIES && Going(request, root, stack, trace, examined)
    requires CanDraw(stack) && IsExcluded(DrawnPath(stack), request.outbox)
    ensures Account(report, Drawn(request, stack)) == report.(excluded := Saturating(report.excluded))
    ensures !Drawn(request, stack).fate.Descended?
    ensures Going(request, root, Left(stack), trace + [Drawn(request, stack)], examined)
    ensures Weight(Left(stack)) < Weight(stack)
  {
    hide Pending, Stopped, Weight, Walk, Trace, Listing;
    NextPending(request, stack);
    NextLevels(request, stack);
    StoppedNext(request.outbox, Drawn(request, stack), Pending(request, Left(stack)),
                MAX_SCANNED_ENTRIES - examined, trace);
  }

  lemma Examined(request: Request, root: Node, stack: seq<Frame>, trace: seq<Event>, examined: nat)
    requires root.Directory? && 0 < examined <= MAX_SCANNED_ENTRIES && Going(request, root, stack, trace, examined - 1)
    requires CanDraw(stack) && !IsExcluded(DrawnPath(stack), request.outbox)
    ensures Going(request, root, NextStack(request, stack), trace + [Drawn(request, stack)], examined)
    ensures Weight(NextStack(request, stack)) < Weight(stack)
  {
    hide Pending, Stopped, Weight, Walk, Trace, Listing;
    NextPending(request, stack);
    NextLevels(request, stack);
    StoppedNext(request.outbox, Drawn(request, stack), Pending(request, NextStack(request, stack)),
                MAX_SCANNED_ENTRIES - (examined - 1), trace);
  }

  lemma Stops(request: Request, root: Node, stack: seq<Frame>, trace: seq<Event>, start: ScanReport)
    requires root.Directory? && Going(request, root, stack, trace, MAX_SCANNED_ENTRIES)
    requires CanDraw(stack) && !IsExcluded(DrawnPath(stack), request.outbox)
    ensures var now := Event(DrawnPath(stack), Cut);
            && Trace(request, root) == trace + [now]
            && Tally(start, trace + [now]) == Tally(start, trace).(truncated := true)
            && Deepest(trace + [now]) == Deepest(trace)
  {
    var now := Event(DrawnPath(stack), Cut);
    NextPending(request, stack);
    StoppedNext(request.outbox, Drawn(request, stack), Pending(request, NextStack(request, stack)), 0, trace);
    assert (trace + [now])[..|trace|] == trace;
  }

  lemma StoppedNext(outbox: Path, e: Event, rest: seq<Event>, left: nat, trace: seq<Event>)
    ensures var stopped := trace + Stopped(outbox, [e] + rest, left);
            if IsExcluded(e.path, outbox) then stopped == trace + [e] + Stopped(outbox, rest, left)
            else if left == 0 then stopped == trace + [Event(e.path, Cut)]
            else stopped == trace + [e] + Stopped(outbox, rest, left - 1)
  {
    assert ([e] + rest)[1..] == rest;
  }

  lemma Finished(request: Request, root: Node, trace: seq<Event>, examined: nat)
    requires root.Directory? && examined <= MAX_SCANNED_ENTRIES && Going(request, root, [], trace, examined)
    ensures trace == Trace(request, root)
  {
    assert trace + [] == trace;
  }
}
