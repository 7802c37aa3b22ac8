// The three bounds of a scan, and exactly which trees stay within them.
module ScanBounds {
  import opened Basics
  import opened ScanReach
  import opened ScanWalk

  // ---- The bound on entries examined -------------------------------------------

  // The outbox is passed over before anything is counted.
  function OutsideOf(outbox: Path, events: seq<Event>): nat {
    if events == [] then 0
    else (if IsExcluded(events[0].path, outbox) then 0 else 1) + OutsideOf(outbox, events[1..])
  }

  // The events of a walk that may examine `left` more entries.
  function Stopped(outbox: Path, events: seq<Event>, left: nat): seq<Event> {
    if events == [] then []
    else if IsExcluded(events[0].path, outbox) then [events[0]] + Stopped(outbox, events[1..], left)
    else if left == 0 then [Event(events[0].path, Cut)]
    else [events[0]] + Stopped(outbox, events[1..], left - 1)
  }

  // What makes a report partial: a bound or a descriptor that ran out, or a
  // listing cut short.
  predicate IsPartial(e: Event) {
    e.fate.Cut? || (e.fate.Descended? && e.fate.names > 20_000)
  }

  predicate Clean(events: seq<Event>) {
    forall e :: e in events ==> !IsPartial(e)
  }

  // A walk small enough is not stopped; any other ends in a cut.
  lemma {:induction false} StoppedIff(outbox: Path, events: seq<Event>, left: nat)
    ensures OutsideOf(outbox, events) <= left ==> Stopped(outbox, events, left) == events
    ensures OutsideOf(outbox, events) > left ==> !Clean(Stopped(outbox, events, left))
  {
    if events != [] {
      var out := IsExcluded(events[0].path, outbox);
      if !out && left == 0 {
        assert Event(events[0].path, Cut) in Stopped(outbox, events, left);
      } else {
        var rest := Stopped(outbox, events[1..], if out then left else left - 1);
        StoppedIff(outbox, events[1..], if out then left else left - 1);
        assert Stopped(outbox, events, left) == [events[0]] + rest;
        assert forall e :: e in rest ==> e in [events[0]] + rest;
      }
    }
  }

  // At most that many entries are examined, beside the outbox.
  lemma {:induction false} StoppedExamines(outbox: Path, events: seq<Event>, left: nat)
    ensures OutsideOf(outbox, Stopped(outbox, events, left)) <= left + 1
    ensures |Stopped(outbox, events, left)| <= |events|
  {
    if events != [] {
      var out := IsExcluded(events[0].path, outbox);
      if out || left > 0 {
        StoppedExamines(outbox, events[1..], if out then left else left - 1);
      }
    }
  }

  // Stopping keeps the events it reaches, at their places.
  lemma {:induction false} StoppedIsPart(outbox: Path, events: seq<Event>, left: nat, e: Event)
    requires e in Stopped(outbox, events, left)
    ensures e in events || (e.fate.Cut? && exists x :: x in events && x.path == e.path)
  {
    var out := IsExcluded(events[0].path, outbox);
    if out || left > 0 {
      var rest := Stopped(outbox, events[1..], if out then left else left - 1);
      if e in rest {
        StoppedIsPart(outbox, events[1..], if out then left else left - 1, e);
        assert forall x :: x in events[1..] ==> x in events;
      }
    } else {
      assert events[0] in events;
    }
  }

  lemma {:induction false} StoppedIncreasing(outbox: Path, events: seq<Event>, left: nat)
    requires Increasing(events)
    ensures Increasing(Stopped(outbox, events, left))
  {
    if events != [] {
      var out := IsExcluded(events[0].path, outbox);
      assert events == [events[0]] + events[1..];
      IncreasingAppend([events[0]], events[1..]);
      if out || left > 0 {
        var rest := Stopped(outbox, events[1..], if out then left else left - 1);
        StoppedIncreasing(outbox, events[1..], if out then left else left - 1);
        forall x, y | x in [events[0]] && y in rest
          ensures PathBefore(x.path, y.path)
        {
          StoppedIsPart(outbox, events[1..], if out then left else left - 1, y);
          var z :| z in events[1..] && z.path == y.path;
        }
        IncreasingAppend([events[0]], rest);
      }
    }
  }

  // ---- The bounds on depth and on one directory's names ------------------------

  // What is found by going from the root down the names, through directories the
  // unlimited walk descends into.
  function NodeAt(request: Request, relative: Path, entries: seq<Entry>, names: seq<Name>): Option<Node>
    requires names != []
    decreases |names|
  {
    match Find(entries, names[0])
    case None => None
    case Some(node) =>
      if |names| == 1 then Some(node)
      else if Visit(request, false, relative + [names[0]], node).Descended?
      then NodeAt(request, relative + [names[0]], node.children, names[1..])
      else None
  }

  // Nothing about one reached entry makes the scan partial: no descriptor runs
  // out on it, and a directory, unless it is the outbox, is at most 32 levels deep
  // and, if entered, holds at most 20,000 names.
  predicate NodeFits(request: Request, path: Path, node: Node)
    requires path != []
  {
    var fate := Visit(request, false, path, node);
    && !IsPartial(Event(path, fate))
    && (node.Directory? && !IsExcluded(path, request.outbox) ==> |path| <= 32)
  }

  // The same of every entry reached from here.
  predicate AllFit(request: Request, relative: Path, entries: seq<Entry>)
    decreases Size(entries)
  {
    entries != [] ==>
      var path, node := relative + [entries[0].name], entries[0].node;
      && NodeFits(request, path, node)
      && (Visit(request, false, path, node).Descended? ==> AllFit(request, path, Listing(false, node.children)))
      && AllFit(request, relative, entries[1..])
  }

  // Within the bounds the limited walk is the unlimited one, and clean; a limited
  // walk that is clean stays within the bounds.
  lemma {:induction false} CleanIff(request: Request, relative: Path, entries: seq<Entry>)
    ensures Clean(Walk(request, true, relative, entries)) <==> AllFit(request, relative, entries)
    ensures AllFit(request, relative, entries) ==>
              Walk(request, true, relative, entries) == Walk(request, false, relative, entries)
    decreases Size(entries)
  {
    if entries != [] {
      var path, node := relative + [entries[0].name], entries[0].node;
      var head := [Event(path, Visit(request, true, path, node))];
      var below, rest := Below(request, true, path, node), Walk(request, true, relative, entries[1..]);
      CleanIffBelow(request, path, node);
      CleanIff(request, relative, entries[1..]);
      CleanAppend(head, below);
      CleanAppend(head + below, rest);
      CleanHead(request, path, node);
    }
  }

  lemma CleanHead(request: Request, path: Path, node: Node)
    requires path != []
    ensures NodeFits(request, path, node) ==> Visit(request, true, path, node) == Visit(request, false, path, node)
    ensures Clean([Event(path, Visit(request, true, path, node))]) <==> NodeFits(request, path, node)
  {
    var e := Event(path, Visit(request, true, path, node));
    assert e in [e];
  }

  lemma CleanAppend(a: seq<Event>, b: seq<Event>)
    ensures Clean(a + b) <==> Clean(a) && Clean(b)
  {
    assert forall e :: e in a + b <==> e in a || e in b;
  }

  lemma {:induction false} CleanIffBelow(request: Request, path: Path, node: Node)
    requires path != []
    ensures NodeFits(request, path, node) ==>
              var descends := Visit(request, false, path, node).Descended?;
              && (Clean(Below(request, true, path, node))
                  <==> (descends ==> AllFit(request, path, Listing(false, node.children))))
              && (Clean(Below(request, true, path, node)) ==>
                    Below(request, true, path, node) == Below(request, false, path, node))
    decreases if node.Directory? then Size(node.children) + 1 else 0
  {
    if NodeFits(request, path, node) && Visit(request, false, path, node).Descended? {
      CleanHead(request, path, node);
      CleanIff(request, path, Listing(true, node.children));
    }
  }

  // ---- The same, by looking paths up ----------------------------------------------

  // Every entry that can be reached by name fits.
  ghost predicate ReachedFit(request: Request, relative: Path, entries: seq<Entry>) {
    forall names: seq<Name> {:trigger NodeAt(request, relative, entries, names)} ::
      names != [] && NodeAt(request, relative, entries, names).Some? ==>
        NodeFits(request, relative + names, NodeAt(request, relative, entries, names).value)
  }

  // Reaching every entry recursively and reaching it by name are the same.
  lemma {:induction false} AllFitReached(request: Request, relative: Path, entries: seq<Entry>, names: seq<Name>)
    requires DistinctNames(entries) && AllFit(request, relative, entries)
    requires names != [] && NodeAt(request, relative, entries, names).Some?
    ensures NodeFits(request, relative + names, NodeAt(request, relative, entries, names).value)
    decreases |names|, |entries|
  {
    var path, node := relative + [entries[0].name], entries[0].node;
    if entries[0].name == names[0] {
      if |names| == 1 {
        assert relative + names == path;
      } else {
        ListingFacts(false, node.children);
        FindInAnyOrder(Listing(false, node.children), node.children, names[1]);
        AllFitReached(request, path, Listing(false, node.children), names[1..]);
        assert path + names[1..] == relative + names;
      }
    } else {
      AllFitReached(request, relative, entries[1..], names);
    }
  }

  lemma {:induction false} ReachedAllFit(request: Request, relative: Path, entries: seq<Entry>)
    requires DistinctNames(entries) && ReachedFit(request, relative, entries)
    ensures AllFit(request, relative, entries)
    decreases Size(entries)
  {
    if entries != [] {
      var path, node := relative + [entries[0].name], entries[0].node;
      assert NodeAt(request, relative, entries, [entries[0].name]) == Some(node);
      assert NodeFits(request, path, node);
      forall names: seq<Name> | names != [] && NodeAt(request, relative, entries[1..], names).Some?
        ensures NodeFits(request, relative + names, NodeAt(request, relative, entries[1..], names).value)
      {
        LaterIsReached(request, relative, entries, names);
      }
      ReachedAllFit(request, relative, entries[1..]);
      if Visit(request, false, path, node).Descended? {
        ReachedAllFitBelow(request, relative, entries);
      }
    }
  }

  lemma ReachedAllFitBelow(request: Request, relative: Path, entries: seq<Entry>)
    requires entries != [] && DistinctNames(entries) && ReachedFit(request, relative, entries)
    requires Visit(request, false, relative + [entries[0].name], entries[0].node).Descended?
    ensures AllFit(request, relative + [entries[0].name], Listing(false, entries[0].node.children))
    decreases Size(entries), 0
  {
    var path, node := relative + [entries[0].name], entries[0].node;
    var inside := Listing(false, node.children);
    ListingFacts(false, node.children);
    forall names: seq<Name> | names != [] && NodeAt(request, path, inside, names).Some?
      ensures NodeFits(request, path + names, NodeAt(request, path, inside, names).value)
    {
      FindInAnyOrder(inside, node.children, names[0]);
      var all := [entries[0].name] + names;
      assert all[1..] == names && path + names == relative + all;
      assert NodeAt(request, relative, entries, all) == NodeAt(request, path, inside, names);
    }
    ReachedAllFit(request, path, inside);
  }

  // What is found among the later entries is found among all of them.
  lemma LaterIsReached(request: Request, relative: Path, entries: seq<Entry>, names: seq<Name>)
    requires entries != [] && DistinctNames(entries) && names != []
    requires NodeAt(request, relative, entries[1..], names).Some?
    ensures NodeAt(request, relative, entries, names) == NodeAt(request, relative, entries[1..], names)
  {
    FindIsMember(entries[1..], names[0]);
    assert entries[0].name != names[0];
  }
}
