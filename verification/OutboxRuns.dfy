// What runs of the table keep of its runs, its candidates and its approvals, and that
// what it counts as held is the handles that are.
module OutboxRuns {
  import opened Basics
  import opened OutboxState

  // ---- Which runs are remembered ------------------------------------------------

  function LastOf(ids: seq<ProcessId>, n: nat): seq<ProcessId> {
    if |ids| <= n then ids else ids[|ids| - n..]
  }

  // The runs let in since the last clear, after `ids`: an insert of one among the
  // last 64 lets none in.
  function LetIn(ids: seq<ProcessId>, ops: seq<Operation>): seq<ProcessId>
    decreases |ops|
  {
    if ops == [] then ids
    else
      var next :=
        match ops[0]
        case Clear => []
        case Insert(id) => if id in LastOf(ids, 64) then ids else ids + [id]
        case _ => ids;
      LetIn(next, ops[1..])
  }

  lemma WindowNext(ids: seq<ProcessId>, id: ProcessId)
    ensures var window := LastOf(ids, 64);
            LastOf(ids + [id], 64) == (if |window| < 64 then window else window[1..]) + [id]
  {
    if |ids| >= 64 {
      assert (ids + [id])[|ids| + 1 - 64..] == ids[|ids| - 64..][1..] + [id];
    }
  }

  lemma OrderStays(t: Table, op: Operation)
    requires Listed(t) && !op.Insert?
    ensures Apply(t, op).order == if op.Clear? then [] else t.order
  {
    hide WithCandidates, Capped, Held, Listed;
  }

  // One operation moves the window by one run at most.
  lemma OrderNext(t: Table, op: Operation, ids: seq<ProcessId>)
    requires Listed(t) && t.order == LastOf(ids, 64)
    ensures Apply(t, op).order == LastOf(LetIn(ids, [op]), 64)
  {
    hide Inserted, Stored, HeldApproved, TookApproved, TookCandidate, LastOf;
    assert [op][1..] == [];
    if op.Insert? {
      InsertKeepsTheNewest(t, op.id);
      WindowNext(ids, op.id);
    } else {
      OrderStays(t, op);
      EmptyWindow();
    }
  }

  lemma EmptyWindow()
    ensures LastOf([], 64) == []
  {
  }

  // Over every run of operations: the table remembers exactly the last 64 runs let in
  // since the last clear, oldest first.
  lemma {:induction false} OrderIsTheWindow(t: Table, ids: seq<ProcessId>, ops: seq<Operation>, end: Table)
    requires ValidTable(t) && Reaches(t, ops, end) && t.order == LastOf(ids, 64)
    ensures end.order == LastOf(LetIn(ids, ops), 64)
    decreases |ops|
  {
    hide ValidTable, Apply, Allowed, Listed;
    if ops != [] {
      ApplyValid(t, ops[0]);
      IsListed(t);
      OrderNext(t, ops[0], ids);
      assert [ops[0]][1..] == [];
      OrderIsTheWindow(Apply(t, ops[0]), LetIn(ids, [ops[0]]), ops[1..], end);
    }
  }

  lemma IsListed(t: Table)
    requires ValidTable(t)
    ensures Listed(t)
  {
  }

  // ---- What a remembered run keeps ----------------------------------------------

  // Whether an operation is about this run.
  predicate Concerns(op: Operation, p: ProcessId) {
    || (op.Insert? && op.id == p) || (op.StoreCandidates? && op.id == p)
    || (op.TakeCandidateHandle? && op.id == p)
  }

  // A run's record changes by operations on that run alone; it is forgotten by a clear,
  // or as the oldest of 64 when another comes in.
  lemma OnlyItsOwn(t: Table, op: Operation, p: ProcessId)
    requires ValidTable(t) && Allowed(t, op) && p in t.entries && !Concerns(op, p)
    ensures var now := Apply(t, op);
            if op.Clear? || (op.Insert? && op.id !in t.entries && |t.order| == 64 && t.order[0] == p)
            then p !in now.entries
            else p in now.entries && now.entries[p] == t.entries[p]
  {
    if op.Insert? {
      InsertKeepsTheNewest(t, op.id);
      DistinctHead(t.order);
    }
    hide Placed, Stored, WithoutRuns;
    if op.StoreCandidates? {
      StoredElsewhere(t, op.id, op.candidates, p);
    }
  }

  lemma StoredElsewhere(t: Table, id: ProcessId, candidates: seq<Candidate>, p: ProcessId)
    requires Listed(t) && p in t.entries && p != id
    ensures p in Stored(t, id, candidates).entries && Stored(t, id, candidates).entries[p] == t.entries[p]
  {
  }

  lemma DistinctHead(order: seq<ProcessId>)
    requires Distinct(order)
    ensures order != [] ==> order[0] !in order[1..] && forall p :: p in order <==> p == order[0] || p in order[1..]
  {
    if order != [] {
      DistinctRest(order);
    }
  }

  // Storing an inventory keeps the run's proposals, and of the inventory every name in
  // order; a handle while fewer are held elsewhere and before it than 32.
  lemma StoredMeans(t: Table, id: ProcessId, candidates: seq<Candidate>)
    requires ValidTable(t) && id in t.entries
    ensures var was, now := t.entries[id], Stored(t, id, candidates).entries[id];
            var elsewhere := Held(t) - HeldBy(was);
            && elsewhere >= 0
            && now.proposals == was.proposals && now.recordedEntries == was.recordedEntries
            && now.droppedEntries == was.droppedEntries
            && now.candidates.Some? && |now.candidates.value| == |candidates|
            && forall i :: 0 <= i < |candidates| ==>
                 now.candidates.value[i] == if elsewhere + HeldIn(candidates[..i]) < 32 then candidates[i]
                                            else Candidate(candidates[i].name, None)
  {
    hide Placed, HeldIn, WithCandidates;
    HeldOfOne(t.order, t.entries, id);
    forall i | 0 <= i < |candidates|
      ensures var c := Capped(candidates, RoomFor(t, id))[i];
              c == if HeldIn(candidates[..i]) < RoomFor(t, id) then candidates[i]
                   else Candidate(candidates[i].name, None)
    {
      CappedFirst(candidates, RoomFor(t, id), i);
    }
  }

  // ---- What counts as held -------------------------------------------------------

  // The handles a run holds.
  function HandlesIn(places: map<Handle, Place>, p: ProcessId): set<Handle> {
    set h | h in places && places[h].InRun? && places[h].process == p
  }

  function HandlesApproved(places: map<Handle, Place>): set<Handle> {
    set h | h in places && places[h].ForApproval?
  }

  function HandlesInSome(places: map<Handle, Place>, order: seq<ProcessId>): set<Handle> {
    set h | h in places && places[h].InRun? && places[h].process in order
  }

  // The handles the first `n` candidates of a run hold.
  function HandlesUpTo(places: map<Handle, Place>, p: ProcessId, n: nat): set<Handle> {
    set h | h in places && places[h].InRun? && places[h].process == p && places[h].index < n
  }

  lemma {:induction false} HeldInCounts(t: Table, p: ProcessId, n: nat)
    requires Placed(t.entries, t.approved, t.places) && p in t.entries && t.entries[p].candidates.Some?
    requires n <= |t.entries[p].candidates.value|
    ensures |HandlesUpTo(t.places, p, n)| == HeldIn(t.entries[p].candidates.value[..n])
  {
    var candidates := t.entries[p].candidates.value;
    if n == 0 {
      assert HandlesUpTo(t.places, p, 0) == {};
    } else {
      HeldInCounts(t, p, n - 1);
      HeldInNext(candidates, n - 1);
      var before, handle := HandlesUpTo(t.places, p, n - 1), candidates[n - 1].handle;
      assert HandleAt(t.entries, p, n - 1) == handle;
      if handle.Some? {
        assert HandlesUpTo(t.places, p, n) == before + {handle.value};
      } else {
        assert HandlesUpTo(t.places, p, n) == before;
      }
    }
  }

  lemma HeldByCounts(t: Table, p: ProcessId)
    requires Placed(t.entries, t.approved, t.places) && p in t.entries
    ensures |HandlesIn(t.places, p)| == HeldBy(t.entries[p])
  {
    if t.entries[p].candidates.Some? {
      var candidates := t.entries[p].candidates.value;
      HeldInCounts(t, p, |candidates|);
      assert candidates[..|candidates|] == candidates;
      assert HandlesIn(t.places, p) == HandlesUpTo(t.places, p, |candidates|);
    } else {
      assert HandlesIn(t.places, p) == {};
    }
  }

  lemma {:induction false} HeldBySomeCounts(t: Table, order: seq<ProcessId>)
    requires Placed(t.entries, t.approved, t.places) && Distinct(order) && forall p :: p in order ==> p in t.entries
    ensures |HandlesInSome(t.places, order)| == HeldBySome(order, t.entries)
  {
    hide Placed;
    if order == [] {
      assert HandlesInSome(t.places, order) == {};
    } else {
      DistinctHead(order);
      HeldByCounts(t, order[0]);
      HeldBySomeCounts(t, order[1..]);
      var first, rest := HandlesIn(t.places, order[0]), HandlesInSome(t.places, order[1..]);
      assert HandlesInSome(t.places, order) == first + rest;
      assert first !! rest;
    }
  }

  lemma {:induction false} ApprovedCounts(approved: map<ApprovalId, Handle>, handles: set<Handle>)
    requires forall a, b :: a in approved && b in approved && a != b ==> approved[a] != approved[b]
    requires forall h :: h in handles <==> exists a :: a in approved && approved[a] == h
    ensures |handles| == |approved|
    decreases |approved|
  {
    if approved == map[] {
      assert handles == {};
    } else {
      var a :| a in approved;
      var rest := approved - {a};
      assert approved == rest[a := approved[a]];
      assert |approved| == |rest| + 1;
      ApprovedCounts(rest, handles - {approved[a]});
    }
  }

  // The handles the table holds now.
  function HeldNow(places: map<Handle, Place>): set<Handle> {
    set h | h in places && (places[h].InRun? || places[h].ForApproval?)
  }

  lemma ApprovedIsPlaces(t: Table)
    requires Placed(t.entries, t.approved, t.places)
    ensures |HandlesApproved(t.places)| == |t.approved|
  {
    forall h | h in HandlesApproved(t.places)
      ensures exists a :: a in t.approved && t.approved[a] == h
    {
      assert t.places[h].approval in t.approved;
    }
    forall a, b | a in t.approved && b in t.approved && t.approved[a] == t.approved[b]
      ensures a == b
    {
      assert t.places[t.approved[a]] == ForApproval(a) && t.places[t.approved[b]] == ForApproval(b);
    }
    hide Placed;
    ApprovedCounts(t.approved, HandlesApproved(t.places));
  }

  lemma RunsAreListed(t: Table)
    requires Listed(t) && Placed(t.entries, t.approved, t.places)
    ensures HeldNow(t.places) == HandlesInSome(t.places, t.order) + HandlesApproved(t.places)
  {
    forall h | h in t.places && t.places[h].InRun?
      ensures t.places[h].process in t.order
    {
      assert HandleAt(t.entries, t.places[h].process, t.places[h].index) == Some(h);
    }
    hide Placed, Distinct;
  }

  // What the cap is counted against is exactly how many handles are held.
  lemma HeldIsHeldNow(t: Table)
    requires ValidTable(t)
    ensures Held(t) == |HeldNow(t.places)| <= 32
  {
    hide Placed, HeldNow, Distinct, HeldBySome;
    HeldBySomeCounts(t, t.order);
    ApprovedIsPlaces(t);
    RunsAreListed(t);
    assert HandlesInSome(t.places, t.order) !! HandlesApproved(t.places);
  }

  // ---- What an approval is handed ------------------------------------------------

  predicate ConcernsApproval(op: Operation, id: ApprovalId) {
    op.Clear? || (op.HoldApproved? && op.approval == id) || (op.TakeApproved? && op.approval == id)
  }

  lemma ApprovalStays(t: Table, op: Operation, id: ApprovalId)
    requires Listed(t) && id in t.approved && !ConcernsApproval(op, id)
    ensures id in Apply(t, op).approved && Apply(t, op).approved[id] == t.approved[id]
  {
    hide WithCandidates, WithoutRuns, Distinct, HeldBySome, Capped;
  }

  lemma {:induction false} ApprovalHolds(t: Table, ops: seq<Operation>, end: Table, id: ApprovalId)
    requires Reaches(t, ops, end) && id in t.approved
    requires forall i :: 0 <= i < |ops| ==> !ConcernsApproval(ops[i], id)
    ensures id in end.approved && end.approved[id] == t.approved[id]
    decreases |ops|
  {
    hide Listed, Allowed, Apply;
    if ops != [] {
      ApprovalStays(t, ops[0], id);
      ApprovalHolds(Apply(t, ops[0]), ops[1..], end, id);
    }
  }

  // An approval is handed the very source last held for it, once: whatever happens to
  // runs and other approvals in between, taking it returns that source, and taking it
  // again nothing.
  lemma HeldIsTaken(t: Table, id: ApprovalId, source: Handle, ops: seq<Operation>, end: Table)
    requires ValidTable(t) && source !in t.places && |HeldNow(t.places)| < 32
    requires Reaches(Apply(t, HoldApproved(id, source)), ops, end)
    requires forall i :: 0 <= i < |ops| ==> !ConcernsApproval(ops[i], id)
    ensures HandedTo(end, TakeApproved(id)) == Some(source)
    ensures Listed(end) ==> HandedTo(Apply(end, TakeApproved(id)), TakeApproved(id)) == None
  {
    HeldIsHeldNow(t);
    hide Reaches, Placed, HeldNow;
    ApprovalHolds(Apply(t, HoldApproved(id, source)), ops, end, id);
  }
}
