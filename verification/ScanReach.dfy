// The walk against an independent reading of the tree: look a path up name by
// name and see what is there.
module ScanReach {
  import opened Basics
  import opened Sorting
  import opened ScanWalk

  function Find(entries: seq<Entry>, name: Name): Option<Node> {
    if entries == [] then None
    else if entries[0].name == name then Some(entries[0].node)
    else Find(entries[1..], name)
  }

  // What the scan makes of the entry at `relative` and then `names`; None when
  // nothing is there, or a directory on the way is not one it descends into.
  function FateAt(request: Request, limited: bool, relative: Path, entries: seq<Entry>, names: seq<Name>): Option<Fate>
    requires names != []
    decreases |names|
  {
    var path := relative + [names[0]];
    match Find(entries, names[0])
    case None => None
    case Some(node) =>
      if |names| == 1 then Some(Visit(request, limited, path, node))
      else if Visit(request, limited, path, node).Descended?
      then FateAt(request, limited, path, Taken(limited, node.children), names[1..])
      else None
  }

  lemma {:induction false} FindIsMember(entries: seq<Entry>, name: Name)
    ensures Find(entries, name).Some? ==> Entry(name, Find(entries, name).value) in entries
    ensures forall i :: 0 <= i < |entries| && entries[i].name == name ==> Find(entries, name).Some?
  {
    if entries != [] && entries[0].name != name {
      FindIsMember(entries[1..], name);
      assert forall i :: 0 < i < |entries| ==> entries[1..][i - 1] == entries[i];
    }
  }

  lemma FindInMore(a: seq<Entry>, b: seq<Entry>, name: Name)
    requires forall e :: e in a ==> e in b
    ensures Find(a, name).Some? ==> Find(b, name).Some?
  {
    FindIsMember(a, name);
    FindIsMember(b, name);
    if Find(a, name).Some? {
      var i :| 0 <= i < |b| && b[i] == Entry(name, Find(a, name).value);
    }
  }

  // Where the names differ, a lookup does not care about the order of entries.
  lemma FindInAnyOrder(a: seq<Entry>, b: seq<Entry>, name: Name)
    requires DistinctNames(a) && DistinctNames(b)
    requires forall e :: e in a <==> e in b
    ensures Find(a, name) == Find(b, name)
  {
    FindIsMember(a, name);
    FindIsMember(b, name);
    FindInMore(a, b, name);
    FindInMore(b, a, name);
    if Find(a, name).Some? {
      var i :| 0 <= i < |b| && b[i] == Entry(name, Find(a, name).value);
      var j :| 0 <= j < |b| && b[j] == Entry(name, Find(b, name).value);
      assert i == j;
    }
  }

  // Every event lies strictly below `relative`, under one of the entries.
  lemma {:induction false} WalkPaths(request: Request, limited: bool, relative: Path, entries: seq<Entry>, e: Event)
    requires e in Walk(request, limited, relative, entries)
    ensures relative < e.path && Find(entries, e.path[|relative|]).Some?
    decreases Size(entries)
  {
    var path := relative + [entries[0].name];
    var below := Below(request, limited, path, entries[0].node);
    if e in below {
      BelowPaths(request, limited, path, entries[0].node, e);
    } else if e in Walk(request, limited, relative, entries[1..]) {
      WalkPaths(request, limited, relative, entries[1..], e);
    }
  }

  lemma {:induction false} BelowPaths(request: Request, limited: bool, path: Path, node: Node, e: Event)
    requires path != [] && e in Below(request, limited, path, node)
    ensures path < e.path
    decreases if node.Directory? then Size(node.children) + 1 else 0
  {
    WalkPaths(request, limited, path, Listing(limited, node.children), e);
  }

  // The walk meets a path exactly when looking it up does, with the same fate.
  lemma {:induction false} WalkMeets(request: Request, limited: bool, relative: Path, entries: seq<Entry>,
                                     names: seq<Name>, fate: Fate)
    requires names != [] && DistinctNames(entries)
    ensures Event(relative + names, fate) in Walk(request, limited, relative, entries)
       <==> FateAt(request, limited, relative, entries, names) == Some(fate)
    decreases Size(entries)
  {
    if entries == [] {
      return;
    }
    var e := Event(relative + names, fate);
    var path, node := relative + [entries[0].name], entries[0].node;
    var below, rest := Below(request, limited, path, node), Walk(request, limited, relative, entries[1..]);
    assert e.path[|relative|] == names[0];
    if names[0] == entries[0].name {
      if e in rest {
        WalkPaths(request, limited, relative, entries[1..], e);
        FindIsMember(entries[1..], names[0]);
      }
      assert e !in rest;
      if |names| == 1 {
        assert e.path == path;
        if e in below {
          BelowPaths(request, limited, path, node, e);
        }
      } else {
        assert e.path == path + names[1..];
        BelowMeets(request, limited, path, node, names[1..], fate);
      }
    } else {
      assert path[|relative|] == entries[0].name;
      if e in below {
        BelowPaths(request, limited, path, node, e);
      }
      WalkMeets(request, limited, relative, entries[1..], names, fate);
    }
  }

  lemma {:induction false} BelowMeets(request: Request, limited: bool, path: Path, node: Node,
                                        names: seq<Name>, fate: Fate)
    requires path != [] && names != [] && WellFormed(node)
    ensures Event(path + names, fate) in Below(request, limited, path, node)
       <==> Visit(request, limited, path, node).Descended?
            && FateAt(request, limited, path, Taken(limited, node.children), names) == Some(fate)
    decreases if node.Directory? then Size(node.children) + 1 else 0
  {
    if Visit(request, limited, path, node).Descended? {
      ListingFacts(limited, node.children);
      WalkMeets(request, limited, path, Listing(limited, node.children), names, fate);
      FindInAnyOrder(Listing(limited, node.children), Taken(limited, node.children), names[0]);
    }
  }

  // ---- Path order ----

  // Component by component, a path before everything inside it.
  predicate PathBefore(p: Path, q: Path) {
    if q == [] then false
    else if p == [] then true
    else if p[0] == q[0] then PathBefore(p[1..], q[1..])
    else Before(p[0], q[0])
  }

  lemma {:induction false} PrefixBefore(p: Path, q: Path)
    requires p < q
    ensures PathBefore(p, q)
  {
    if p != [] {
      PrefixBefore(p[1..], q[1..]);
    }
  }

  lemma {:induction false} ForkBefore(common: Path, p: Path, q: Path)
    requires common < p && common < q && Before(p[|common|], q[|common|])
    ensures PathBefore(p, q)
  {
    if common != [] {
      ForkBefore(common[1..], p[1..], q[1..]);
    } else {
      BeforeTrichotomy(p[0], q[0]);
    }
  }

  lemma {:induction false} PathBeforeIrreflexive(p: Path)
    ensures !PathBefore(p, p)
  {
    if p != [] {
      PathBeforeIrreflexive(p[1..]);
    }
  }

  predicate Increasing(events: seq<Event>) {
    forall i, j :: 0 <= i < j < |events| ==> PathBefore(events[i].path, events[j].path)
  }

  predicate AllBefore(a: seq<Event>, b: seq<Event>) {
    forall x, y :: x in a && y in b ==> PathBefore(x.path, y.path)
  }

  lemma IncreasingAppend(a: seq<Event>, b: seq<Event>)
    ensures Increasing(a + b) <==> Increasing(a) && Increasing(b) && AllBefore(a, b)
  {
    var all := a + b;
    assert forall i :: 0 <= i < |a| ==> all[i] == a[i];
    assert forall i :: 0 <= i < |b| ==> all[|a| + i] == b[i];
    if Increasing(all) {
      forall x, y | x in a && y in b
        ensures PathBefore(x.path, y.path)
      {
        var i :| 0 <= i < |a| && a[i] == x;
        var j :| 0 <= j < |b| && b[j] == y;
        assert all[i] == x && all[|a| + j] == y;
      }
    }
    if Increasing(a) && Increasing(b) && AllBefore(a, b) {
      forall i, j | 0 <= i < j < |all|
        ensures PathBefore(all[i].path, all[j].path)
      {
        if i < |a| && j >= |a| {
          assert all[i] in a && all[j] in b;
        }
      }
    }
  }

  // The walk meets paths in order, so no path twice.
  lemma {:induction false} WalkIncreasing(request: Request, limited: bool, relative: Path, entries: seq<Entry>)
    requires DistinctNames(entries) && InNameOrder(entries)
    ensures Increasing(Walk(request, limited, relative, entries))
    decreases Size(entries)
  {
    if entries == [] {
      return;
    }
    var path, node := relative + [entries[0].name], entries[0].node;
    var head := [Event(path, Visit(request, limited, path, node))];
    var below, rest := Below(request, limited, path, node), Walk(request, limited, relative, entries[1..]);
    BelowIncreasing(request, limited, path, node);
    WalkIncreasing(request, limited, relative, entries[1..]);
    forall x, y | x in head && y in below
      ensures PathBefore(x.path, y.path)
    {
      BelowPaths(request, limited, path, node, y);
      PrefixBefore(path, y.path);
    }
    IncreasingAppend(head, below);
    forall x, y | x in head + below && y in rest
      ensures PathBefore(x.path, y.path)
    {
      if x in below {
        BelowPaths(request, limited, path, node, x);
      }
      WalkPaths(request, limited, relative, entries[1..], y);
      FindIsMember(entries[1..], y.path[|relative|]);
      ForkBefore(relative, x.path, y.path);
    }
    IncreasingAppend(head + below, rest);
  }

  lemma {:induction false} BelowIncreasing(request: Request, limited: bool, path: Path, node: Node)
    requires path != [] && WellFormed(node)
    ensures Increasing(Below(request, limited, path, node))
    decreases if node.Directory? then Size(node.children) + 1 else 0
  {
    if Visit(request, limited, path, node).Descended? {
      ListingFacts(limited, node.children);
      WalkIncreasing(request, limited, path, Listing(limited, node.children));
    }
  }

  // Fewer entries, fewer events.
  lemma WalkOfPart(request: Request, relative: Path, part: seq<Entry>, whole: seq<Entry>, e: Event)
    requires DistinctNames(part) && DistinctNames(whole)
    requires forall x :: x in part ==> x in whole
    requires e in Walk(request, false, relative, part)
    ensures e in Walk(request, false, relative, whole)
  {
    WalkPaths(request, false, relative, part, e);
    var names := e.path[|relative|..];
    assert relative + names == e.path;
    WalkMeets(request, false, relative, part, names, e.fate);
    WalkMeets(request, false, relative, whole, names, e.fate);
    FindIsMember(part, names[0]);
    FindIsMember(whole, names[0]);
    var x := Entry(names[0], Find(part, names[0]).value);
    var i :| 0 <= i < |whole| && whole[i] == x;
    var j :| 0 <= j < |whole| && whole[j] == Entry(names[0], Find(whole, names[0]).value);
    assert i == j;
  }

  // The bounds invent nothing: but for the events they cut short, the limited walk
  // is part of the unlimited one.
  lemma {:induction false} LimitedIsWithin(request: Request, relative: Path, entries: seq<Entry>, e: Event)
    requires DistinctNames(entries) && e in Walk(request, true, relative, entries) && !e.fate.Cut?
    ensures e in Walk(request, false, relative, entries)
    decreases Size(entries)
  {
    var path, node := relative + [entries[0].name], entries[0].node;
    if e in Below(request, true, path, node) {
      LimitedIsWithinBelow(request, path, node, e);
    } else if e in Walk(request, true, relative, entries[1..]) {
      LimitedIsWithin(request, relative, entries[1..], e);
    }
  }

  lemma {:induction false} LimitedIsWithinBelow(request: Request, path: Path, node: Node, e: Event)
    requires path != [] && WellFormed(node) && e in Below(request, true, path, node) && !e.fate.Cut?
    ensures e in Below(request, false, path, node)
    decreases if node.Directory? then Size(node.children) + 1 else 0
  {
    ListingFacts(true, node.children);
    ListingFacts(false, node.children);
    LimitedIsWithin(request, path, Listing(true, node.children), e);
    WalkOfPart(request, path, Listing(true, node.children), Listing(false, node.children), e);
  }
}
