// The bounded table of runs and the approvals held beside it, under one cap on
// open handles.
module OutboxState {
  import opened Basics

  const MAX_RUN_RECORDS := 64
  const MAX_HELD_HANDLES := 32
  const MAX_PROPOSED_ENTRIES := 1024

  type ProcessId = nat
  type ApprovalId = nat
  type Handle = nat

  datatype Candidate = Candidate(name: string, handle: Option<Handle>)

  datatype RunRecord = RunRecord(proposals: seq<seq<string>>, recordedEntries: nat, droppedEntries: nat,
                                 candidates: Option<seq<Candidate>>)

  // `RunRecord::with_provenance`
  const NEW_RECORD := RunRecord([], 0, 0, None)

  // ---- Proposals ----

  function Flat(proposals: seq<seq<string>>): seq<string> {
    if proposals == [] then [] else Flat(proposals[..|proposals| - 1]) + proposals[|proposals| - 1]
  }

  // `push_proposal`, its 64-bit counter sticking at its end.
  function PushProposal(record: RunRecord, proposal: seq<string>): RunRecord {
    var remaining := if record.recordedEntries < MAX_PROPOSED_ENTRIES
                     then MAX_PROPOSED_ENTRIES - record.recordedEntries else 0;
    var excess := if |proposal| > remaining then |proposal| - remaining else 0;
    var kept := proposal[..|proposal| - excess];
    var dropped := if record.droppedEntries + excess > 0xFFFF_FFFF_FFFF_FFFF
                   then 0xFFFF_FFFF_FFFF_FFFF else record.droppedEntries + excess;
    if kept == [] then record.(droppedEntries := dropped)
    else record.(droppedEntries := dropped, recordedEntries := record.recordedEntries + |kept|,
                 proposals := record.proposals + [kept])
  }

  function PushAll(proposals: seq<seq<string>>): RunRecord {
    if proposals == [] then NEW_RECORD
    else PushProposal(PushAll(proposals[..|proposals| - 1]), proposals[|proposals| - 1])
  }

  // A record that holds exactly the first 1024 of `all` and counts the rest.
  predicate HoldsFirst(record: RunRecord, all: seq<string>) {
    var n := if |all| < 1024 then |all| else 1024;
    && record.recordedEntries == n && record.droppedEntries == |all| - n
    && Flat(record.proposals) == all[..n]
    && [] !in record.proposals
  }

  lemma FlatAppend(proposals: seq<seq<string>>, last: seq<string>)
    ensures Flat(proposals + [last]) == Flat(proposals) + last
  {
    assert (proposals + [last])[..|proposals|] == proposals;
  }

  lemma PushHoldsFirst(record: RunRecord, all: seq<string>, last: seq<string>)
    requires HoldsFirst(record, all) && |all| + |last| <= 0xFFFF_FFFF_FFFF_FFFF
    ensures HoldsFirst(PushProposal(record, last), all + last)
  {
    hide Flat;
    var now := PushProposal(record, last);
    var kept := last[..now.recordedEntries - record.recordedEntries];
    FlatAppend(record.proposals, kept);
    assert (all + last)[..now.recordedEntries] == all[..record.recordedEntries] + kept;
    if kept == [] {
      assert all[..record.recordedEntries] + kept == all[..record.recordedEntries];
    } else {
      assert now.proposals == record.proposals + [kept];
    }
  }

  // Over every run of proposals: what is recorded is the first 1024 entries, in
  // order, no kept proposal is empty, and the rest is counted.
  lemma {:induction false} ProposalsCapped(proposals: seq<seq<string>>)
    requires |Flat(proposals)| <= 0xFFFF_FFFF_FFFF_FFFF
    ensures HoldsFirst(PushAll(proposals), Flat(proposals))
  {
    if proposals != [] {
      var front := proposals[..|proposals| - 1];
      ProposalsCapped(front);
      PushHoldsFirst(PushAll(front), Flat(front), proposals[|proposals| - 1]);
    }
  }

  // ---- The cap ----

  // How many candidates hold a handle.
  function HeldIn(candidates: seq<Candidate>): nat {
    if candidates == [] then 0
    else HeldIn(candidates[..|candidates| - 1]) + if candidates[|candidates| - 1].handle.Some? then 1 else 0
  }

  // The candidates with only the first `cap` held handles kept.
  function Capped(candidates: seq<Candidate>, cap: nat): (r: seq<Candidate>)
    ensures |r| == |candidates|
  {
    if candidates == [] then []
    else
      var front, last := candidates[..|candidates| - 1], candidates[|candidates| - 1];
      Capped(front, cap) + [if HeldIn(front) < cap then last else last.(handle := None)]
  }

  lemma {:induction false} HeldInUpdate(candidates: seq<Candidate>, i: nat, c: Candidate)
    requires i < |candidates|
    ensures HeldIn(candidates[i := c]) ==
            HeldIn(candidates) - (if candidates[i].handle.Some? then 1 else 0) + if c.handle.Some? then 1 else 0
    decreases |candidates|
  {
    var n := |candidates| - 1;
    if i == n {
      assert candidates[i := c][..n] == candidates[..n];
    } else {
      assert candidates[i := c][..n] == candidates[..n][i := c];
      HeldInUpdate(candidates[..n], i, c);
    }
  }

  // What is held afterwards is the lesser of the two.
  lemma {:induction false} CappedHolds(candidates: seq<Candidate>, cap: nat)
    ensures HeldIn(Capped(candidates, cap)) == if HeldIn(candidates) < cap then HeldIn(candidates) else cap
  {
    if candidates != [] {
      var front, capped := candidates[..|candidates| - 1], Capped(candidates, cap);
      CappedHolds(front, cap);
      assert capped[..|front|] == Capped(front, cap);
    }
  }

  // Names and order stay; a handle stays exactly while fewer than `cap` come
  // before it.
  lemma {:induction false} CappedFirst(candidates: seq<Candidate>, cap: nat, i: nat)
    requires i < |candidates|
    ensures Capped(candidates, cap)[i] ==
            if HeldIn(candidates[..i]) < cap then candidates[i] else candidates[i].(handle := None)
    decreases |candidates|
  {
    var front := candidates[..|candidates| - 1];
    if i < |front| {
      CappedFirst(front, cap, i);
      assert candidates[..i] == front[..i];
    }
  }

  lemma HeldInNothing()
    ensures HeldIn([]) == 0
  {
  }

  lemma HeldInNext(candidates: seq<Candidate>, i: nat)
    requires i < |candidates|
    ensures HeldIn(candidates[..i + 1]) == HeldIn(candidates[..i]) + if candidates[i].handle.Some? then 1 else 0
  {
    assert candidates[..i + 1][..i] == candidates[..i];
  }

  // The candidates with the loop's first `i` rounds done.
  function CappedUpTo(candidates: seq<Candidate>, cap: nat, i: nat): (r: seq<Candidate>)
    requires i <= |candidates|
    ensures |r| == |candidates|
  {
    seq(|candidates|, k requires 0 <= k < |candidates| => if k < i then Capped(candidates, cap)[k] else candidates[k])
  }

  lemma CappedUpToEnds(candidates: seq<Candidate>, cap: nat)
    ensures CappedUpTo(candidates, cap, 0) == candidates
    ensures CappedUpTo(candidates, cap, |candidates|) == Capped(candidates, cap)
    ensures candidates[..0] == [] && candidates[..|candidates|] == candidates
  {
  }

  lemma CappedUpToNext(candidates: seq<Candidate>, cap: nat, i: nat)
    requires i < |candidates|
    ensures CappedUpTo(candidates, cap, i + 1) ==
            if HeldIn(candidates[..i]) < cap || candidates[i].handle.None? then CappedUpTo(candidates, cap, i)
            else CappedUpTo(candidates, cap, i)[i := candidates[i].(handle := None)]
  {
    CappedFirst(candidates, cap, i);
  }

  // `cap_held_handles`
  method CapHeldHandles(candidates: seq<Candidate>, cap: nat) returns (capped: seq<Candidate>, released: nat)
    ensures capped == Capped(candidates, cap)
    ensures released == HeldIn(candidates) - HeldIn(capped)
    ensures released > 0 ==> HeldIn(capped) == cap
  {
    capped, released := candidates, 0;
    var held := 0;
    CappedHolds(candidates, cap);
    CappedUpToEnds(candidates, cap);
    HeldInNothing();
    hide Capped, HeldIn, CappedUpTo;
    for i := 0 to |candidates|
      invariant capped == CappedUpTo(candidates, cap, i)
      invariant released + held == HeldIn(candidates[..i])
      invariant held <= cap && (released > 0 ==> held == cap)
    {
      CappedUpToNext(candidates, cap, i);
      HeldInNext(candidates, i);
      if candidates[i].handle.None? {
        continue;
      }
      if held < cap {
        held := held + 1;
      } else {
        capped := capped[i := candidates[i].(handle := None)];
        released := released + 1;
      }
    }
  }

  function HeldBy(record: RunRecord): nat {
    if record.candidates.Some? then HeldIn(record.candidates.value) else 0
  }

  function HeldBySome(order: seq<ProcessId>, entries: map<ProcessId, RunRecord>): nat
    requires forall p :: p in order ==> p in entries
  {
    if order == [] then 0 else HeldBy(entries[order[0]]) + HeldBySome(order[1..], entries)
  }

  predicate Distinct(order: seq<ProcessId>) {
    forall i, j :: 0 <= i < j < |order| ==> order[i] != order[j]
  }

  lemma {:induction false} HeldSame(order: seq<ProcessId>, a: map<ProcessId, RunRecord>, b: map<ProcessId, RunRecord>)
    requires forall p :: p in order ==> p in a && p in b && a[p] == b[p]
    ensures HeldBySome(order, a) == HeldBySome(order, b)
  {
    if order != [] {
      HeldSame(order[1..], a, b);
    }
  }

  lemma {:induction false} HeldUpdate(order: seq<ProcessId>, entries: map<ProcessId, RunRecord>,
                                      p: ProcessId, record: RunRecord)
    requires Distinct(order) && p in order && forall q :: q in order ==> q in entries
    ensures HeldBySome(order, entries[p := record]) == HeldBySome(order, entries) - HeldBy(entries[p]) + HeldBy(record)
  {
    if order[0] == p {
      assert p !in order[1..];
      HeldSame(order[1..], entries, entries[p := record]);
    } else {
      HeldUpdate(order[1..], entries, p, record);
    }
  }

  lemma {:induction false} HeldAppend(order: seq<ProcessId>, p: ProcessId, entries: map<ProcessId, RunRecord>)
    requires p in entries && forall q :: q in order ==> q in entries
    ensures HeldBySome(order + [p], entries) == HeldBySome(order, entries) + HeldBy(entries[p])
  {
    if order == [] {
      assert order + [p] == [p];
    } else {
      assert (order + [p])[1..] == order[1..] + [p];
      HeldAppend(order[1..], p, entries);
    }
  }

  // ---- The table ----

  // Where a handle the table was once given is now.
  datatype Place = InRun(process: ProcessId, index: nat) | ForApproval(approval: ApprovalId) | Released | HandedOut

  function HandleAt(entries: map<ProcessId, RunRecord>, p: ProcessId, i: nat): Option<Handle> {
    if p in entries && entries[p].candidates.Some? && i < |entries[p].candidates.value|
    then entries[p].candidates.value[i].handle else None
  }

  // The handles of these runs are released, everything else stays put.
  function WithoutRuns(places: map<Handle, Place>, gone: set<ProcessId>): map<Handle, Place> {
    map h | h in places :: if places[h].InRun? && places[h].process in gone then Released else places[h]
  }

  predicate Holds(candidates: seq<Candidate>, h: Handle) {
    exists i :: 0 <= i < |candidates| && candidates[i].handle == Some(h)
  }

  function HandlesOf(candidates: seq<Candidate>): (hs: set<Handle>)
    ensures forall h :: h in hs <==> Holds(candidates, h)
  {
    if candidates == [] then {}
    else
      var front, last := candidates[..|candidates| - 1], candidates[|candidates| - 1];
      assert candidates == front + [last];
      HandlesOf(front) + if last.handle.Some? then {last.handle.value} else {}
  }

  // The first candidate that holds `h`.
  function HolderOf(candidates: seq<Candidate>, h: Handle): (i: nat)
    requires Holds(candidates, h)
    ensures i < |candidates| && candidates[i].handle == Some(h)
  {
    if candidates[0].handle == Some(h) then 0
    else
      assert Holds(candidates[1..], h) by {
        var k :| 0 <= k < |candidates| && candidates[k].handle == Some(h);
        assert candidates[1..][k - 1] == candidates[k];
      }
      1 + HolderOf(candidates[1..], h)
  }

  // The handles of `candidates` as run `p` now holds them, the rest released.
  function WithCandidates(places: map<Handle, Place>, p: ProcessId, candidates: seq<Candidate>,
                          kept: seq<Candidate>): map<Handle, Place>
    requires |kept| == |candidates|
  {
    WithoutRuns(places, {p})
    + map h | h in HandlesOf(candidates)
        :: var i := HolderOf(candidates, h); if kept[i].handle.Some? then InRun(p, i) else Released
  }

  // Handles are moved in, so no two are one and none was here before.
  predicate FreshHandles(places: map<Handle, Place>, candidates: seq<Candidate>) {
    && (forall i :: 0 <= i < |candidates| && candidates[i].handle.Some? ==> candidates[i].handle.value !in places)
    && (forall i, j :: 0 <= i < j < |candidates| && candidates[i].handle.Some? ==>
          candidates[i].handle != candidates[j].handle)
  }

  // Each handle is where `places` says, and nowhere else.
  ghost predicate Placed(entries: map<ProcessId, RunRecord>, approved: map<ApprovalId, Handle>,
                         places: map<Handle, Place>)
  {
    && (forall h :: h in places && places[h].InRun? ==>
          HandleAt(entries, places[h].process, places[h].index) == Some(h))
    && (forall h :: h in places && places[h].ForApproval? ==>
          places[h].approval in approved && approved[places[h].approval] == h)
    && (forall p, i: nat :: HandleAt(entries, p, i).Some? ==>
          HandleAt(entries, p, i).value in places && places[HandleAt(entries, p, i).value] == InRun(p, i))
    && (forall a :: a in approved ==> approved[a] in places && places[approved[a]] == ForApproval(a))
  }

  lemma PlacedWithoutRuns(entries: map<ProcessId, RunRecord>, approved: map<ApprovalId, Handle>,
                          places: map<Handle, Place>, gone: set<ProcessId>, entries': map<ProcessId, RunRecord>)
    requires Placed(entries, approved, places)
    requires forall p, i: nat :: HandleAt(entries', p, i) == if p in gone then None else HandleAt(entries, p, i)
    ensures Placed(entries', approved, WithoutRuns(places, gone))
  {
  }

  lemma WithCandidatesAt(places: map<Handle, Place>, p: ProcessId, candidates: seq<Candidate>,
                         kept: seq<Candidate>, h: Handle)
    requires |kept| == |candidates|
    ensures var now := WithCandidates(places, p, candidates, kept);
            && (h in now <==> h in places || Holds(candidates, h))
            && (Holds(candidates, h) ==>
                  now[h] == if kept[HolderOf(candidates, h)].handle.Some? then InRun(p, HolderOf(candidates, h))
                            else Released)
            && (h in places && !Holds(candidates, h) ==>
                  now[h] == if places[h].InRun? && places[h].process == p then Released else places[h])
  {
  }

  // Run `p` holds what was kept of `candidates`, every other run what it held.
  ghost predicate NowKeeps(entries: map<ProcessId, RunRecord>, entries': map<ProcessId, RunRecord>, p: ProcessId,
                           candidates: seq<Candidate>, kept: seq<Candidate>)
  {
    && |kept| == |candidates|
    && (forall i :: 0 <= i < |kept| ==> kept[i].handle == candidates[i].handle || kept[i].handle.None?)
    && (forall q, i: nat :: q != p ==> HandleAt(entries', q, i) == HandleAt(entries, q, i))
    && (forall i: nat :: HandleAt(entries', p, i) == if i < |kept| then kept[i].handle else None)
  }

  // A handle said to be in a run, or held for approval, is there.
  lemma PlacesAfterStore(entries: map<ProcessId, RunRecord>, approved: map<ApprovalId, Handle>,
                         places: map<Handle, Place>, p: ProcessId, candidates: seq<Candidate>,
                         kept: seq<Candidate>, entries': map<ProcessId, RunRecord>, h: Handle)
    requires Placed(entries, approved, places) && FreshHandles(places, candidates)
    requires NowKeeps(entries, entries', p, candidates, kept)
    requires h in WithCandidates(places, p, candidates, kept)
    ensures var place := WithCandidates(places, p, candidates, kept)[h];
            && (place.InRun? ==> HandleAt(entries', place.process, place.index) == Some(h))
            && (place.ForApproval? ==> place.approval in approved && approved[place.approval] == h)
  {
    hide WithCandidates, HandlesOf;
    WithCandidatesAt(places, p, candidates, kept, h);
    if Holds(candidates, h) {
      var i := HolderOf(candidates, h);
      assert kept[i].handle.Some? ==> kept[i].handle == Some(h);
    }
  }

  // A handle a run holds is said to be there.
  lemma HoldersAfterStore(entries: map<ProcessId, RunRecord>, approved: map<ApprovalId, Handle>,
                          places: map<Handle, Place>, p: ProcessId, candidates: seq<Candidate>,
                          kept: seq<Candidate>, entries': map<ProcessId, RunRecord>, q: ProcessId, i: nat)
    requires Placed(entries, approved, places) && FreshHandles(places, candidates)
    requires NowKeeps(entries, entries', p, candidates, kept)
    requires HandleAt(entries', q, i).Some?
    ensures var now, h := WithCandidates(places, p, candidates, kept), HandleAt(entries', q, i).value;
            h in now && now[h] == InRun(q, i)
  {
    hide WithCandidates, HandlesOf;
    var h := HandleAt(entries', q, i).value;
    WithCandidatesAt(places, p, candidates, kept, h);
    if q == p {
      assert candidates[i].handle == Some(h);
      assert Holds(candidates, h) && HolderOf(candidates, h) == i;
    } else {
      assert HandleAt(entries, q, i) == Some(h);
      FreshAreNew(places, candidates, h);
    }
  }

  lemma FreshAreNew(places: map<Handle, Place>, candidates: seq<Candidate>, h: Handle)
    requires FreshHandles(places, candidates) && h in places
    ensures !Holds(candidates, h)
  {
  }

  lemma PlacedWithCandidates(entries: map<ProcessId, RunRecord>, approved: map<ApprovalId, Handle>,
                             places: map<Handle, Place>, p: ProcessId, candidates: seq<Candidate>,
                             kept: seq<Candidate>, entries': map<ProcessId, RunRecord>)
    requires Placed(entries, approved, places) && FreshHandles(places, candidates)
    requires NowKeeps(entries, entries', p, candidates, kept)
    ensures Placed(entries', approved, WithCandidates(places, p, candidates, kept))
  {
    hide WithCandidates, HandlesOf, HandleAt, FreshHandles;
    var now := WithCandidates(places, p, candidates, kept);
    forall h | h in now
      ensures now[h].InRun? ==> HandleAt(entries', now[h].process, now[h].index) == Some(h)
      ensures now[h].ForApproval? ==> now[h].approval in approved && approved[now[h].approval] == h
    {
      PlacesAfterStore(entries, approved, places, p, candidates, kept, entries', h);
    }
    forall q, i: nat | HandleAt(entries', q, i).Some?
      ensures HandleAt(entries', q, i).value in now && now[HandleAt(entries', q, i).value] == InRun(q, i)
    {
      HoldersAfterStore(entries, approved, places, p, candidates, kept, entries', q, i);
    }
    forall a | a in approved
      ensures approved[a] in now && now[approved[a]] == ForApproval(a)
    {
      FreshAreNew(places, candidates, approved[a]);
      WithCandidatesAt(places, p, candidates, kept, approved[a]);
    }
  }

  lemma PlacedAfterTake(entries: map<ProcessId, RunRecord>, approved: map<ApprovalId, Handle>,
                        places: map<Handle, Place>, p: ProcessId, i: nat, entries': map<ProcessId, RunRecord>)
    requires Placed(entries, approved, places) && HandleAt(entries, p, i).Some?
    requires forall q, j: nat :: HandleAt(entries', q, j) ==
                                 if q == p && j == i then None else HandleAt(entries, q, j)
    ensures Placed(entries', approved, places[HandleAt(entries, p, i).value := HandedOut])
  {
  }

  // The table as a value.
  datatype Table = Table(order: seq<ProcessId>, entries: map<ProcessId, RunRecord>,
                         approved: map<ApprovalId, Handle>, places: map<Handle, Place>)

  const EMPTY_TABLE := Table([], map[], map[], map[])

  ghost predicate Listed(t: Table) {
    Distinct(t.order) && |t.order| <= MAX_RUN_RECORDS && forall p :: p in t.order <==> p in t.entries
  }

  // `held_handles`
  function Held(t: Table): nat
    requires Listed(t)
  {
    HeldBySome(t.order, t.entries) + |t.approved|
  }

  // What every operation keeps: the order lists exactly the entries, no more
  // than 64, each handle is in one place, and no more than 32 are held.
  ghost predicate ValidTable(t: Table) {
    Listed(t) && Placed(t.entries, t.approved, t.places) && Held(t) <= MAX_HELD_HANDLES
  }

  // A record enters before it holds any handle; past the bound the oldest goes.
  function Inserted(t: Table, id: ProcessId): Table {
    var order := if id in t.entries then t.order else t.order + [id];
    var entries := t.entries[id := NEW_RECORD];
    if |order| <= MAX_RUN_RECORDS then t.(order := order, entries := entries, places := WithoutRuns(t.places, {id}))
    else t.(order := order[1..], entries := entries - {order[0]}, places := WithoutRuns(t.places, {id, order[0]}))
  }

  lemma DistinctAppend(order: seq<ProcessId>, id: ProcessId)
    requires Distinct(order) && id !in order
    ensures Distinct(order + [id])
  {
  }

  lemma DistinctRest(order: seq<ProcessId>)
    requires Distinct(order) && order != []
    ensures Distinct(order[1..]) && order[0] !in order[1..]
    ensures forall p :: p in order <==> p == order[0] || p in order[1..]
  {
    var rest := order[1..];
    assert forall i :: 0 <= i < |rest| ==> rest[i] == order[i + 1];
    assert order == [order[0]] + rest;
  }

  lemma InsertedListed(t: Table, id: ProcessId)
    requires Listed(t)
    ensures Listed(Inserted(t, id))
  {
    hide Distinct, WithoutRuns;
    if id !in t.entries {
      DistinctAppend(t.order, id);
      if |t.order| == MAX_RUN_RECORDS {
        DistinctRest(t.order + [id]);
      }
    }
  }

  // The run inserted is there, empty, and last if it is new; past 64 it is the oldest
  // that goes, and every other run left keeps its record.
  lemma InsertKeepsTheNewest(t: Table, id: ProcessId)
    requires Listed(t)
    ensures var now := Inserted(t, id);
            && id in now.entries && now.entries[id] == RunRecord([], 0, 0, None)
            && (id in t.entries ==> now.order == t.order)
            && (id !in t.entries ==>
                  now.order == (if |t.order| < 64 then t.order else t.order[1..]) + [id])
            && (forall p :: p in now.order <==> p in now.entries)
            && (forall p :: p in now.entries && p != id ==> p in t.entries && now.entries[p] == t.entries[p])
            && now.approved == t.approved
  {
    InsertedListed(t, id);
    hide WithoutRuns, Distinct;
    if |t.order| == 64 && id !in t.entries {
      assert (t.order + [id])[1..] == t.order[1..] + [id];
      assert t.order[0] in t.entries;
    }
  }

  lemma InsertedHolds(t: Table, id: ProcessId)
    requires Listed(t)
    ensures Listed(Inserted(t, id)) && Held(Inserted(t, id)) <= Held(t)
  {
    InsertedListed(t, id);
    hide HeldBy;
    NewRecordHoldsNone();
    var entries := t.entries[id := NEW_RECORD];
    var order := if id in t.entries then t.order else t.order + [id];
    if id in t.entries {
      HeldUpdate(t.order, t.entries, id, NEW_RECORD);
    } else {
      HeldSame(t.order, t.entries, entries);
      HeldAppend(t.order, id, entries);
    }
    if |order| > MAX_RUN_RECORDS {
      HeldSame(order[1..], entries, Inserted(t, id).entries);
    }
  }

  lemma InsertedValid(t: Table, id: ProcessId)
    requires ValidTable(t)
    ensures ValidTable(Inserted(t, id))
  {
    hide Placed, HeldBySome, Distinct, WithoutRuns;
    InsertedHolds(t, id);
    var order := if id in t.entries then t.order else t.order + [id];
    var gone := if |order| > MAX_RUN_RECORDS then {id, order[0]} else {id};
    PlacedWithoutRuns(t.entries, t.approved, t.places, gone, Inserted(t, id).entries);
  }

  lemma NewRecordHoldsNone()
    ensures HeldBy(NEW_RECORD) == 0
  {
  }

  function RoomFor(t: Table, id: ProcessId): nat
    requires Listed(t) && id in t.entries
  {
    var elsewhere := if Held(t) < HeldBy(t.entries[id]) then 0 else Held(t) - HeldBy(t.entries[id]);
    if elsewhere < MAX_HELD_HANDLES then MAX_HELD_HANDLES - elsewhere else 0
  }

  function Stored(t: Table, id: ProcessId, candidates: seq<Candidate>): Table
    requires Listed(t)
  {
    if id !in t.entries then t
    else
      var kept := Capped(candidates, RoomFor(t, id));
      t.(entries := t.entries[id := t.entries[id].(candidates := Some(kept))],
         places := WithCandidates(t.places, id, candidates, kept))
  }

  // Handles are released for the cap only when the cap is then full.
  lemma StoredValid(t: Table, id: ProcessId, candidates: seq<Candidate>)
    requires ValidTable(t) && FreshHandles(t.places, candidates)
    ensures ValidTable(Stored(t, id, candidates))
    ensures id in t.entries && HeldIn(Capped(candidates, RoomFor(t, id))) < HeldIn(candidates) ==>
              Held(Stored(t, id, candidates)) == MAX_HELD_HANDLES
  {
    hide Placed, HeldIn, Capped, WithCandidates;
    if id in t.entries {
      var now := Stored(t, id, candidates);
      HeldOfOne(t.order, t.entries, id);
      HeldUpdate(t.order, t.entries, id, now.entries[id]);
      CappedHolds(candidates, RoomFor(t, id));
      StoredHandles(candidates, RoomFor(t, id));
      PlacedWithCandidates(t.entries, t.approved, t.places, id, candidates,
                           Capped(candidates, RoomFor(t, id)), now.entries);
    }
  }

  lemma {:induction false} HeldOfOne(order: seq<ProcessId>, entries: map<ProcessId, RunRecord>, p: ProcessId)
    requires p in order && forall q :: q in order ==> q in entries
    ensures HeldBy(entries[p]) <= HeldBySome(order, entries)
  {
    if order[0] != p {
      HeldOfOne(order[1..], entries, p);
    }
  }

  lemma StoredHandles(candidates: seq<Candidate>, cap: nat)
    ensures forall i :: 0 <= i < |candidates| ==>
              Capped(candidates, cap)[i].handle == candidates[i].handle || Capped(candidates, cap)[i].handle.None?
  {
    forall i | 0 <= i < |candidates|
      ensures Capped(candidates, cap)[i].handle == candidates[i].handle || Capped(candidates, cap)[i].handle.None?
    {
      CappedFirst(candidates, cap, i);
    }
  }

  function HeldApproved(t: Table, id: ApprovalId, source: Handle): Table
    requires Listed(t)
  {
    if Held(t) >= MAX_HELD_HANDLES then t
    else
      var places := if id in t.approved then t.places[t.approved[id] := Released] else t.places;
      t.(approved := t.approved[id := source], places := places[source := ForApproval(id)])
  }

  lemma PlacedWithoutApproval(entries: map<ProcessId, RunRecord>, approved: map<ApprovalId, Handle>,
                              places: map<Handle, Place>, id: ApprovalId, now: Place)
    requires Placed(entries, approved, places) && id in approved && now in {Released, HandedOut}
    ensures Placed(entries, approved - {id}, places[approved[id] := now])
  {
  }

  lemma PlacedWithApproval(entries: map<ProcessId, RunRecord>, approved: map<ApprovalId, Handle>,
                           places: map<Handle, Place>, id: ApprovalId, source: Handle)
    requires Placed(entries, approved, places) && id !in approved && source !in places
    ensures Placed(entries, approved[id := source], places[source := ForApproval(id)])
  {
  }

  lemma HeldApprovedPlaced(t: Table, id: ApprovalId, source: Handle)
    requires Listed(t) && Placed(t.entries, t.approved, t.places) && source !in t.places
    ensures var now := HeldApproved(t, id, source); Placed(now.entries, now.approved, now.places)
  {
    if id in t.approved {
      assert t.approved[id] in t.places;
      PlacedWithoutApproval(t.entries, t.approved, t.places, id, Released);
      var places := t.places[t.approved[id] := Released];
      hide Placed;
      PlacedWithApproval(t.entries, t.approved - {id}, places, id, source);
      assert (t.approved - {id})[id := source] == t.approved[id := source];
    } else {
      hide Placed;
      PlacedWithApproval(t.entries, t.approved, t.places, id, source);
    }
  }

  lemma HeldApprovedValid(t: Table, id: ApprovalId, source: Handle)
    requires ValidTable(t) && source !in t.places
    ensures ValidTable(HeldApproved(t, id, source))
  {
    hide Placed, HeldBySome, Distinct;
    HeldApprovedPlaced(t, id, source);
    var now := HeldApproved(t, id, source);
    FewerKeys(now.approved.Keys, t.approved.Keys + {id});
    assert |now.approved| == |now.approved.Keys| && |t.approved| == |t.approved.Keys|;
  }

  function TookApproved(t: Table, id: ApprovalId): Table {
    if id !in t.approved then t
    else t.(approved := t.approved - {id}, places := t.places[t.approved[id] := HandedOut])
  }

  lemma TookApprovedValid(t: Table, id: ApprovalId)
    requires ValidTable(t)
    ensures ValidTable(TookApproved(t, id))
  {
    if id in t.approved {
      PlacedWithoutApproval(t.entries, t.approved, t.places, id, HandedOut);
    }
    hide Placed;
    var now := TookApproved(t, id);
    assert now.approved.Keys <= t.approved.Keys;
    FewerKeys(now.approved.Keys, t.approved.Keys);
    assert |now.approved| == |now.approved.Keys| && |t.approved| == |t.approved.Keys|;
  }

  lemma {:induction false} FewerKeys(a: set<nat>, b: set<nat>)
    requires a <= b
    ensures |a| <= |b|
  {
    if a != {} {
      var x :| x in a;
      FewerKeys(a - {x}, b - {x});
    }
  }

  // The position of the first candidate called `name`, or |candidates|.
  function IndexOfName(candidates: seq<Candidate>, name: string): (i: nat)
    ensures i <= |candidates|
    ensures i < |candidates| ==> candidates[i].name == name
    ensures forall k :: 0 <= k < i ==> candidates[k].name != name
  {
    if candidates == [] || candidates[0].name == name then 0 else 1 + IndexOfName(candidates[1..], name)
  }

  function HandleNamed(t: Table, p: ProcessId, name: string): Option<Handle> {
    if p in t.entries && t.entries[p].candidates.Some?
    then HandleAt(t.entries, p, IndexOfName(t.entries[p].candidates.value, name)) else None
  }

  function WithHandleTaken(record: RunRecord, i: nat): RunRecord
    requires record.candidates.Some? && i < |record.candidates.value|
  {
    var candidates := record.candidates.value;
    record.(candidates := Some(candidates[i := candidates[i].(handle := None)]))
  }

  function TookCandidate(t: Table, p: ProcessId, name: string): Table {
    var handle := HandleNamed(t, p, name);
    if handle.None? then t
    else
      var i := IndexOfName(t.entries[p].candidates.value, name);
      t.(entries := t.entries[p := WithHandleTaken(t.entries[p], i)], places := t.places[handle.value := HandedOut])
  }

  lemma TookCandidateValid(t: Table, p: ProcessId, name: string)
    requires ValidTable(t)
    ensures ValidTable(TookCandidate(t, p, name))
  {
    hide Placed, HeldIn;
    if HandleNamed(t, p, name).Some? {
      var candidates := t.entries[p].candidates.value;
      var i, now := IndexOfName(candidates, name), TookCandidate(t, p, name);
      HeldInUpdate(candidates, i, candidates[i].(handle := None));
      HeldUpdate(t.order, t.entries, p, now.entries[p]);
      PlacedAfterTake(t.entries, t.approved, t.places, p, i, now.entries);
    }
  }

  function Cleared(t: Table): Table {
    Table([], map[], map[],
          map h | h in t.places :: if t.places[h].InRun? || t.places[h].ForApproval? then Released else t.places[h])
  }

  lemma ClearedValid(t: Table)
    requires ValidTable(t)
    ensures ValidTable(Cleared(t))
  {
  }

  // ---- Runs of operations ----

  datatype Operation =
    | Insert(id: ProcessId)
    | StoreCandidates(id: ProcessId, candidates: seq<Candidate>)
    | HoldApproved(approval: ApprovalId, source: Handle)
    | TakeApproved(approval: ApprovalId)
    | TakeCandidateHandle(id: ProcessId, name: string)
    | Clear

  // Handles are moved in, so each comes once.
  ghost predicate Allowed(t: Table, op: Operation) {
    && (op.StoreCandidates? ==> FreshHandles(t.places, op.candidates))
    && (op.HoldApproved? ==> op.source !in t.places)
  }

  function Apply(t: Table, op: Operation): Table
    requires Listed(t)
  {
    match op
    case Insert(id) => Inserted(t, id)
    case StoreCandidates(id, candidates) => Stored(t, id, candidates)
    case HoldApproved(approval, source) => HeldApproved(t, approval, source)
    case TakeApproved(approval) => TookApproved(t, approval)
    case TakeCandidateHandle(id, name) => TookCandidate(t, id, name)
    case Clear => Cleared(t)
  }

  ghost predicate Reaches(t: Table, ops: seq<Operation>, end: Table)
    decreases |ops|
  {
    if ops == [] then end == t
    else Listed(t) && Allowed(t, ops[0]) && Reaches(Apply(t, ops[0]), ops[1..], end)
  }

  // The handles an operation moves into the table; all others it was offered go
  // back to the caller.
  function MovedIn(t: Table, op: Operation): set<Handle>
    requires Listed(t)
  {
    if op.StoreCandidates? && op.id in t.entries then HandlesOf(op.candidates)
    else if op.HoldApproved? && Held(t) < MAX_HELD_HANDLES then {op.source}
    else {}
  }

  // The one it hands to its caller.
  function HandedTo(t: Table, op: Operation): Option<Handle> {
    if op.TakeApproved? && op.approval in t.approved then Some(t.approved[op.approval])
    else if op.TakeCandidateHandle? then HandleNamed(t, op.id, op.name)
    else None
  }

  // Over one run or a whole one a handle never moves: it stays where it is, or,
  // if it was held, it ends released or handed out, for good.
  ghost predicate Onward(before: map<Handle, Place>, after: map<Handle, Place>) {
    forall h :: h in before ==>
      h in after && (after[h] == before[h] || (IsHeld(before[h]) && after[h] in {Released, HandedOut}))
  }

  // None is forgotten, and these are added.
  predicate Adds(before: map<Handle, Place>, after: map<Handle, Place>, moved: set<Handle>) {
    after.Keys == before.Keys + moved
  }

  predicate IsHeld(place: Place) {
    place.InRun? || place.ForApproval?
  }

  // One operation accounts for every handle: none is forgotten, the ones moved in
  // are exactly those, and one is handed out exactly by the operation that takes it.
  ghost predicate Accounts(t: Table, op: Operation, after: map<Handle, Place>)
    requires Listed(t)
  {
    && Adds(t.places, after, MovedIn(t, op))
    && Onward(t.places, after)
    && (forall h :: h in after && after[h].HandedOut? ==>
          HandedTo(t, op) == Some(h) || (h in t.places && t.places[h].HandedOut?))
    && (HandedTo(t, op).Some? ==>
          var h := HandedTo(t, op).value;
          h in t.places && IsHeld(t.places[h]) && h in after && after[h].HandedOut?)
  }

  // A stored handle is in the run or released; every other stays, or was the run's.
  lemma StoredPlace(t: Table, id: ProcessId, candidates: seq<Candidate>, h: Handle)
    requires Listed(t) && id in t.entries && FreshHandles(t.places, candidates)
    ensures var after := Stored(t, id, candidates).places;
            && (h in after <==> h in t.places || h in HandlesOf(candidates))
            && (h in t.places ==> after[h] == t.places[h] || (IsHeld(t.places[h]) && after[h].Released?))
            && (h in after && h !in t.places ==> !after[h].HandedOut?)
  {
    hide WithCandidates, Capped, HeldBySome, FreshHandles, RoomFor, Listed;
    WithCandidatesAt(t.places, id, candidates, Capped(candidates, RoomFor(t, id)), h);
    if h in t.places {
      FreshAreNew(t.places, candidates, h);
    }
  }

  lemma StoredAccounts(t: Table, id: ProcessId, candidates: seq<Candidate>)
    requires Listed(t) && FreshHandles(t.places, candidates)
    ensures Accounts(t, StoreCandidates(id, candidates), Stored(t, id, candidates).places)
  {
    hide Stored, HandlesOf, FreshHandles, Listed, Held;
    if id in t.entries {
      forall h: Handle
        ensures var after := Stored(t, id, candidates).places;
                && (h in after <==> h in t.places || h in HandlesOf(candidates))
                && (h in t.places ==> after[h] == t.places[h] || (IsHeld(t.places[h]) && after[h].Released?))
                && (h in after && h !in t.places ==> !after[h].HandedOut?)
      {
        StoredPlace(t, id, candidates, h);
      }
    } else {
      NothingStored(t, id, candidates);
    }
  }

  lemma StoredKeys(t: Table, id: ProcessId, candidates: seq<Candidate>)
    requires Listed(t) && FreshHandles(t.places, candidates)
    ensures Adds(t.places, Stored(t, id, candidates).places, if id in t.entries then HandlesOf(candidates) else {})
  {
    hide Stored, HandlesOf, FreshHandles;
    StoredAccounts(t, id, candidates);
  }

  lemma NothingStored(t: Table, id: ProcessId, candidates: seq<Candidate>)
    requires Listed(t) && id !in t.entries
    ensures Stored(t, id, candidates) == t
  {
  }

  lemma InsertedAccounts(t: Table, id: ProcessId)
    requires Listed(t)
    ensures Accounts(t, Insert(id), Inserted(t, id).places)
  {
    hide Listed, Held;
  }

  lemma HeldApprovedAccounts(t: Table, id: ApprovalId, source: Handle)
    requires ValidTable(t) && source !in t.places
    ensures Accounts(t, HoldApproved(id, source), HeldApproved(t, id, source).places)
  {
    hide Listed, Held, HandleAt;
  }

  lemma TookApprovedAccounts(t: Table, id: ApprovalId)
    requires ValidTable(t)
    ensures Accounts(t, TakeApproved(id), TookApproved(t, id).places)
  {
    hide Listed, Held, HandleAt;
  }

  lemma TookCandidateAccounts(t: Table, p: ProcessId, name: string)
    requires ValidTable(t)
    ensures Accounts(t, TakeCandidateHandle(p, name), TookCandidate(t, p, name).places)
  {
    hide Listed, Held, WithHandleTaken;
    if HandleNamed(t, p, name).Some? {
      assert t.places[HandleNamed(t, p, name).value].InRun?;
    }
  }

  lemma ApplyAccounts(t: Table, op: Operation)
    requires ValidTable(t) && Allowed(t, op)
    ensures Accounts(t, op, Apply(t, op).places)
  {
    hide Accounts;
    match op {
      case Insert(id) => InsertedAccounts(t, id);
      case StoreCandidates(id, candidates) => StoredAccounts(t, id, candidates);
      case HoldApproved(approval, source) => HeldApprovedAccounts(t, approval, source);
      case TakeApproved(approval) => TookApprovedAccounts(t, approval);
      case TakeCandidateHandle(id, name) => TookCandidateAccounts(t, id, name);
      case Clear => ClearedAccounts(t);
    }
  }

  lemma ClearedAccounts(t: Table)
    requires Listed(t)
    ensures Accounts(t, Clear, Cleared(t).places)
  {
    hide Listed, Held;
  }

  // Every handle some operation of a run moves in, and every one it hands out.
  ghost function EverMovedIn(t: Table, ops: seq<Operation>, end: Table): set<Handle>
    requires Reaches(t, ops, end)
    decreases |ops|
  {
    if ops == [] then {} else MovedIn(t, ops[0]) + EverMovedIn(Apply(t, ops[0]), ops[1..], end)
  }

  ghost function EverHandedOut(t: Table, ops: seq<Operation>, end: Table): set<Handle>
    requires Reaches(t, ops, end)
    decreases |ops|
  {
    if ops == [] then {}
    else
      (if HandedTo(t, ops[0]).Some? then {HandedTo(t, ops[0]).value} else {})
      + EverHandedOut(Apply(t, ops[0]), ops[1..], end)
  }

  lemma ApplyValid(t: Table, op: Operation)
    requires ValidTable(t) && Allowed(t, op)
    ensures ValidTable(Apply(t, op))
  {
    hide ValidTable;
    match op {
      case Insert(id) => InsertedValid(t, id);
      case StoreCandidates(id, candidates) => StoredValid(t, id, candidates);
      case HoldApproved(approval, source) => HeldApprovedValid(t, approval, source);
      case TakeApproved(approval) => TookApprovedValid(t, approval);
      case TakeCandidateHandle(id, name) => TookCandidateValid(t, id, name);
      case Clear => ClearedValid(t);
    }
  }

  // Over every run of operations: at most 64 runs and 32 handles; the handles the
  // table accounts for are exactly those moved in, each in one place; none moves but
  // to be released or handed out; and those handed out are exactly the ones taken.
  lemma {:induction false} EveryRunIsValid(t: Table, ops: seq<Operation>, end: Table)
    requires ValidTable(t) && Reaches(t, ops, end)
    ensures ValidTable(end)
    ensures Adds(t.places, end.places, EverMovedIn(t, ops, end)) && Onward(t.places, end.places)
    ensures forall h :: h in end.places && end.places[h].HandedOut? <==>
                        (h in t.places && t.places[h].HandedOut?) || h in EverHandedOut(t, ops, end)
    decreases |ops|
  {
    hide ValidTable, Apply, Allowed, MovedIn, HandedTo;
    if ops != [] {
      ApplyValid(t, ops[0]);
      ApplyAccounts(t, ops[0]);
      EveryRunIsValid(Apply(t, ops[0]), ops[1..], end);
    }
  }

  class RunTable {
    var order: seq<ProcessId>
    var entries: map<ProcessId, RunRecord>
    var approved: map<ApprovalId, Handle>
    // Every handle ever moved in, and where it went.
    ghost var places: map<Handle, Place>

    ghost function State(): Table
      reads this
    {
      Table(order, entries, approved, places)
    }

    ghost predicate Valid()
      reads this
    {
      ValidTable(State())
    }

    constructor ()
      ensures Valid() && State() == EMPTY_TABLE
    {
      order, entries, approved, places := [], map[], map[], map[];
    }

    function HeldHandles(): nat
      requires forall p :: p in order ==> p in entries
      reads this
    {
      HeldBySome(order, entries) + |approved|
    }

    method Insert(id: ProcessId)
      requires Valid()
      modifies this
      ensures Valid() && State() == Inserted(old(State()), id)
      // The run is there, empty and last; past 64 it is the oldest that went.
      ensures id in entries && entries[id] == RunRecord([], 0, 0, None)
      ensures id in old(entries) ==> order == old(order)
      ensures id !in old(entries) ==>
                |old(order)| <= 64 && order == (if |old(order)| < 64 then old(order) else old(order)[1..]) + [id]
      ensures forall p :: p in order <==> p in entries
      ensures forall p :: p in entries && p != id ==> p in old(entries) && entries[p] == old(entries)[p]
      ensures approved == old(approved)
    {
      hide Placed, WithoutRuns, Distinct, HeldBySome;
      InsertedValid(State(), id);
      InsertKeepsTheNewest(State(), id);
      if id !in entries {
        order := order + [id];
      }
      entries := entries[id := NEW_RECORD];
      places := WithoutRuns(places, {id});
      while |order| > MAX_RUN_RECORDS
        invariant |order| > MAX_RUN_RECORDS ==>
                    order == old(order) + [id] && |old(order)| == MAX_RUN_RECORDS && id !in old(entries)
                    && entries == old(entries)[id := NEW_RECORD] && places == WithoutRuns(old(places), {id})
        invariant approved == old(approved)
        invariant |order| <= MAX_RUN_RECORDS ==> State() == Inserted(old(State()), id)
      {
        var evicted := order[0];
        order := order[1..];
        entries := entries - {evicted};
        places := WithoutRuns(old(places), {id, evicted});
      }
    }

    method StoreCandidates(id: ProcessId, candidates: seq<Candidate>) returns (r: Result<nat, seq<Candidate>>)
      requires Valid() && FreshHandles(places, candidates)
      modifies this
      ensures Valid() && old(Listed(State())) && State() == Stored(old(State()), id, candidates)
      ensures id !in old(entries) ==> r == Err(candidates)
      ensures id in old(entries) ==>
                r == Ok(HeldIn(candidates) - HeldIn(Capped(candidates, RoomFor(old(State()), id))))
      ensures Adds(old(places), places, if id in old(entries) then HandlesOf(candidates) else {})
    {
      hide Placed, HeldIn, Capped, WithCandidates, FreshHandles, HeldBySome, HandlesOf, Adds;
      ghost var was := State();
      StoredValid(was, id, candidates);
      StoredKeys(was, id, candidates);
      if id !in entries {
        return Err(candidates);
      }
      var held := HeldHandles();
      var mine := HeldBy(entries[id]);
      var elsewhere := if held < mine then 0 else held - mine;
      var room := if elsewhere < MAX_HELD_HANDLES then MAX_HELD_HANDLES - elsewhere else 0;
      var kept, released := CapHeldHandles(candidates, room);
      entries := entries[id := entries[id].(candidates := Some(kept))];
      places := WithCandidates(places, id, candidates, kept);
      return Ok(released);
    }

    method HoldApproved(id: ApprovalId, source: Handle) returns (r: Result<(), Handle>)
      requires Valid() && source !in places
      modifies this
      ensures Valid() && old(Listed(State())) && State() == HeldApproved(old(State()), id, source)
      ensures r == if old(HeldHandles()) >= MAX_HELD_HANDLES then Err(source) else Ok(())
      ensures source in places <==> r.Ok?
      ensures approved == if r.Ok? then old(approved)[id := source] else old(approved)
      ensures order == old(order) && entries == old(entries)
    {
      hide Placed, HeldBySome;
      HeldApprovedValid(State(), id, source);
      if HeldHandles() >= MAX_HELD_HANDLES {
        return Err(source);
      }
      if id in approved {
        places := places[approved[id] := Released];
      }
      approved := approved[id := source];
      places := places[source := ForApproval(id)];
      return Ok(());
    }

    method TakeApproved(id: ApprovalId) returns (source: Option<Handle>)
      requires Valid()
      modifies this
      ensures Valid() && State() == TookApproved(old(State()), id)
      ensures source == if id in old(approved) then Some(old(approved)[id]) else None
      ensures approved == old(approved) - {id} && order == old(order) && entries == old(entries)
    {
      hide ValidTable;
      TookApprovedValid(State(), id);
      if id !in approved {
        return None;
      }
      source := Some(approved[id]);
      places := places[approved[id] := HandedOut];
      approved := approved - {id};
    }

    // `take_candidate_handle` of the record under `p`: the first candidate of
    // that name gives its handle up, if it has one.
    method TakeCandidateHandle(p: ProcessId, name: string) returns (handle: Option<Handle>)
      requires Valid()
      modifies this
      ensures Valid() && State() == TookCandidate(old(State()), p, name)
      ensures handle == HandleNamed(old(State()), p, name)
    {
      hide ValidTable;
      TookCandidateValid(State(), p, name);
      if p !in entries || entries[p].candidates.None? {
        return None;
      }
      var candidates := entries[p].candidates.value;
      var i := IndexOfName(candidates, name);
      if i == |candidates| || candidates[i].handle.None? {
        return None;
      }
      handle := candidates[i].handle;
      entries := entries[p := WithHandleTaken(entries[p], i)];
      places := places[handle.value := HandedOut];
    }

    method Clear() returns (forgotten: nat)
      requires Valid()
      modifies this
      ensures Valid() && State() == Cleared(old(State()))
      ensures forgotten == |old(entries)| && order == [] && entries == map[] && approved == map[]
    {
      hide ValidTable;
      ClearedValid(State());
      forgotten := |entries|;
      places := Cleared(State()).places;
      entries, order, approved := map[], [], map[];
    }
  }
}
