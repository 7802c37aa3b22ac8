// What a wrong-root scan of a tree means: the name-ordered walk, and the same walk
// under the bounds on depth and on the names of one directory.
module ScanWalk {
  import opened Basics
  import opened Sorting
  import Utf8

  type Name = Bytes
  type Path = seq<Name>

  const MAX_SCANNED_ENTRIES := 20_000
  const MAX_SCAN_DEPTH := 32
  const MAX_DIRECTORY_NAMES := 20_000

  // How opening and listing a directory goes.
  datatype Access = Opens | OpenExhausted | OpenFails | ListExhausted | ListFails

  // What opening and reading a file's head yields, and whether its whole
  // content can then be digested.
  datatype Probe = Exhausted | Refused | Head(facts: Bytes, digestible: bool)

  datatype Node =
    | Directory(access: Access, holdsHead: bool, holdsObjects: bool, children: seq<Entry>)
    | RegularFile(probe: Probe)
    | Link
    | Other
    | NoStat

  datatype Entry = Entry(name: Name, node: Node)

  // A declared outbox is never the project root itself.
  type OutboxPath = path: Path | path != [] witness [[46]]

  datatype Verdict = Misplaced | KeptWhereItIs | UnreportableName

  // The declared outbox and the policy's two questions about a file.
  datatype Request = Request(outbox: OutboxPath, misplacedClass: (Path, Bytes) -> bool,
                             finding: (Path, Bytes) -> Verdict)

  // Where one drawn name ends up; a directory descended into holds `names` names.
  datatype Fate = Reported(facts: Bytes) | Kept | Excluded | Unreadable | Descended(names: nat) | Cut

  datatype Event = Event(path: Path, fate: Fate)

  const GIT_DIR: Name := [46, 103, 105, 116]

  predicate IsExcluded(path: Path, outbox: Path) {
    outbox <= path
  }

  // `relative_name`: every component is text.
  predicate Nameable(path: Path) {
    forall i :: 0 <= i < |path| ==> Utf8.Decode(path[i]).Some?
  }

  function VisitFile(request: Request, path: Path, probe: Probe): Fate {
    if !Nameable(path) then Unreadable
    else match probe
      case Exhausted => Cut
      case Refused => Unreadable
      case Head(facts, digestible) =>
        if !request.misplacedClass(path, facts) then Kept
        else if !digestible then Unreadable
        else match request.finding(path, facts)
          case Misplaced => Reported(facts)
          case KeptWhereItIs => Kept
          case UnreportableName => Unreadable
  }

  function VisitNode(request: Request, path: Path, node: Node): Fate
    requires path != []
  {
    match node
    case NoStat => Unreadable
    case Link => Excluded
    case Other => Unreadable
    case RegularFile(probe) => VisitFile(request, path, probe)
    case Directory(access, holdsHead, holdsObjects, children) =>
      if access == OpenExhausted then Cut
      else if access == OpenFails then Unreadable
      else if path[|path| - 1] == GIT_DIR && holdsHead && holdsObjects then Excluded
      else if access == ListExhausted then Cut
      else if access == ListFails then Unreadable
      else Descended(|children|)
  }

  // What becomes of the entry at `path`; the bound on depth, if it applies, comes
  // before anything is opened.
  function Visit(request: Request, limited: bool, path: Path, node: Node): (fate: Fate)
    requires path != []
    ensures fate.Descended? ==> node.Directory? && fate.names == |node.children| && !IsExcluded(path, request.outbox)
  {
    if IsExcluded(path, request.outbox) then Excluded
    else if limited && node.Directory? && |path| > MAX_SCAN_DEPTH then Cut
    else VisitNode(request, path, node)
  }

  function EntryLe(): (Entry, Entry) -> bool {
    (a: Entry, b: Entry) => !Before(b.name, a.name)
  }

  // `names.sort()`
  function Ordered(entries: seq<Entry>): seq<Entry> {
    Sort(entries, EntryLe())
  }

  function Size(entries: seq<Entry>): nat {
    if entries == [] then 0
    else
      2 + (match entries[0].node case Directory(_, _, _, children) => Size(children) case _ => 0)
      + Size(entries[1..])
  }

  lemma {:induction false} InsertSize(x: Entry, s: seq<Entry>)
    ensures Size(Insert(x, s, EntryLe())) == Size([x]) + Size(s)
  {
    if s != [] && !EntryLe()(x, s[0]) {
      InsertSize(x, s[1..]);
      var rest := Insert(x, s[1..], EntryLe());
      assert ([s[0]] + rest)[1..] == rest;
    } else {
      assert ([x] + s)[1..] == s;
    }
  }

  lemma {:induction false} OrderedSize(s: seq<Entry>)
    ensures Size(Ordered(s)) == Size(s)
  {
    if s != [] {
      OrderedSize(s[1..]);
      InsertSize(s[0], Ordered(s[1..]));
    }
  }

  lemma {:induction false} SizePrefix(entries: seq<Entry>, n: nat)
    requires n <= |entries|
    ensures Size(entries[..n]) <= Size(entries)
  {
    if n > 0 {
      assert entries[..n][1..] == entries[1..][..n - 1];
      SizePrefix(entries[1..], n - 1);
    }
  }

  // The names one listing collects, in directory order: all of them, or at most
  // as many as the bound allows.
  function Taken(limited: bool, children: seq<Entry>): (taken: seq<Entry>)
    ensures Size(taken) <= Size(children) && taken <= children
    ensures !limited || |children| <= MAX_DIRECTORY_NAMES ==> taken == children
  {
    if limited && |children| > MAX_DIRECTORY_NAMES then
      SizePrefix(children, MAX_DIRECTORY_NAMES);
      children[..MAX_DIRECTORY_NAMES]
    else children
  }

  function Listing(limited: bool, children: seq<Entry>): (listing: seq<Entry>)
    ensures Size(listing) <= Size(children)
  {
    OrderedSize(Taken(limited, children));
    Ordered(Taken(limited, children))
  }

  // The walk below `relative`: every entry in turn, and after a directory the
  // walk descends into, everything it lists, in name order.
  function Walk(request: Request, limited: bool, relative: Path, entries: seq<Entry>): seq<Event>
    decreases Size(entries)
  {
    if entries == [] then []
    else
      var path := relative + [entries[0].name];
      var fate := Visit(request, limited, path, entries[0].node);
      [Event(path, fate)] + Below(request, limited, path, entries[0].node)
      + Walk(request, limited, relative, entries[1..])
  }

  function Below(request: Request, limited: bool, path: Path, node: Node): seq<Event>
    requires path != []
    decreases if node.Directory? then Size(node.children) + 1 else 0
  {
    if !Visit(request, limited, path, node).Descended? then []
    else Walk(request, limited, path, Listing(limited, node.children))
  }

  // ---- The walk visits exactly what can be reached, in path order ----

  // A directory holds no name twice.
  predicate DistinctNames(entries: seq<Entry>) {
    && (forall i, j :: 0 <= i < j < |entries| ==> entries[i].name != entries[j].name)
    && (forall i :: 0 <= i < |entries| ==> WellFormed(entries[i].node))
  }

  predicate WellFormed(node: Node) {
    node.Directory? ==> DistinctNames(node.children)
  }

  predicate InNameOrder(entries: seq<Entry>) {
    forall i, j :: 0 <= i < j < |entries| ==> Before(entries[i].name, entries[j].name)
  }

  lemma EntryLeIsPreorder()
    ensures TotalPreorder(EntryLe())
  {
    forall x: Entry, y: Entry
      ensures EntryLe()(x, y) || EntryLe()(y, x)
    {
      BeforeTrichotomy(x.name, y.name);
    }
    forall x: Entry, y: Entry, z: Entry | EntryLe()(x, y) && EntryLe()(y, z)
      ensures EntryLe()(x, z)
    {
      BeforeTrichotomy(x.name, y.name);
      BeforeTrichotomy(y.name, z.name);
      BeforeTrichotomy(x.name, z.name);
      if Before(z.name, x.name) {
        if x.name != y.name {
          BeforeTransitive(z.name, x.name, y.name);
        }
      }
    }
  }

  // A directory's listing is its entries, each once, in strict name order.
  lemma OrderedListing(entries: seq<Entry>)
    requires DistinctNames(entries)
    ensures InNameOrder(Ordered(entries))
    ensures forall e :: e in Ordered(entries) <==> e in entries
    ensures DistinctNames(Ordered(entries))
  {
    var listing := Ordered(entries);
    SortPermutes(entries, EntryLe());
    EntryLeIsPreorder();
    SortSorts(entries, EntryLe());
    forall e
      ensures e in listing <==> e in entries
    {
      assert e in listing <==> e in multiset(listing);
      assert e in entries <==> e in multiset(entries);
    }
    PermutedNamesDistinct(entries, listing);
    forall i, j | 0 <= i < j < |listing|
      ensures Before(listing[i].name, listing[j].name)
    {
      assert EntryLe()(listing[i], listing[j]);
      BeforeTrichotomy(listing[i].name, listing[j].name);
    }
    forall i | 0 <= i < |listing|
      ensures WellFormed(listing[i].node)
    {
      assert listing[i] in entries;
    }
  }

  // The same of what is listed under the bound.
  lemma ListingFacts(limited: bool, children: seq<Entry>)
    requires DistinctNames(children)
    ensures DistinctNames(Listing(limited, children)) && InNameOrder(Listing(limited, children))
    ensures DistinctNames(Taken(limited, children))
    ensures forall e :: e in Listing(limited, children) <==> e in Taken(limited, children)
  {
    OrderedListing(Taken(limited, children));
  }

  function Names(entries: seq<Entry>): multiset<Name> {
    if entries == [] then multiset{} else multiset{entries[0].name} + Names(entries[1..])
  }

  lemma {:induction false} NamesCount(entries: seq<Entry>, i: nat, j: nat)
    requires i < |entries| && j < |entries|
    ensures Names(entries)[entries[i].name] >= 1
    ensures i < j && entries[i].name == entries[j].name ==> Names(entries)[entries[i].name] >= 2
  {
    if i > 0 && j > 0 {
      NamesCount(entries[1..], i - 1, j - 1);
    } else if i > 0 {
      NamesCount(entries[1..], i - 1, i - 1);
    } else if j > 0 {
      NamesCount(entries[1..], j - 1, j - 1);
    }
  }

  lemma {:induction false} NamesDistinctCount(entries: seq<Entry>, name: Name)
    requires forall i, j :: 0 <= i < j < |entries| ==> entries[i].name != entries[j].name
    ensures Names(entries)[name] <= 1
    ensures Names(entries)[name] == 0 <== forall i :: 0 <= i < |entries| ==> entries[i].name != name
  {
    if entries != [] {
      NamesDistinctCount(entries[1..], name);
    }
  }

  lemma {:induction false} InsertNames(x: Entry, s: seq<Entry>)
    ensures Names(Insert(x, s, EntryLe())) == multiset{x.name} + Names(s)
  {
    if s != [] && !EntryLe()(x, s[0]) {
      InsertNames(x, s[1..]);
      var rest := Insert(x, s[1..], EntryLe());
      assert ([s[0]] + rest)[1..] == rest;
    } else {
      assert ([x] + s)[1..] == s;
    }
  }

  lemma {:induction false} OrderedNames(s: seq<Entry>)
    ensures Names(Ordered(s)) == Names(s)
  {
    if s != [] {
      OrderedNames(s[1..]);
      InsertNames(s[0], Ordered(s[1..]));
    }
  }

  lemma PermutedNamesDistinct(entries: seq<Entry>, listing: seq<Entry>)
    requires forall i, j :: 0 <= i < j < |entries| ==> entries[i].name != entries[j].name
    requires listing == Ordered(entries)
    ensures forall i, j :: 0 <= i < j < |listing| ==> listing[i].name != listing[j].name
  {
    OrderedNames(entries);
    forall i, j | 0 <= i < j < |listing|
      ensures listing[i].name != listing[j].name
    {
      NamesCount(listing, i, j);
      NamesDistinctCount(entries, listing[i].name);
    }
  }
}
