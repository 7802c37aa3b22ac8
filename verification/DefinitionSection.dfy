// The definition section's request handlers: refs guard what may start, one
// generation counter decides whose result is shown. The create form is left out.
module DefinitionSection {
  import opened Basics

  type Target = Bytes
  type ErrorCode = string
  type Ticket = nat

  // Refused before any write, so the plan still holds.
  const RUN_ACTIVE: ErrorCode := "run-active"

  // What an answer is about: which scan's report was on screen when it was asked.
  datatype Request = Request(agent: Target, consent: bool, gemini: bool)

  datatype Report = Report(scan: nat)

  datatype Verification = Verification(target: Target, scan: nat)

  // `planId` when the outcome is a plan; it came from `request`.
  datatype Plan = Plan(planId: Option<nat>, request: Request, scan: nat)

  datatype ApplyOutcome = Refused | Noop | Applied

  datatype Sent = Sent(request: Request, planId: nat, plan: Plan)

  // One request in flight, with the generation it captured.
  datatype Flight =
    | Scanning(generation: nat, scan: nat, surface: bool)
    | Verifying(generation: nat, target: Target, scan: nat)
    | Previewing(generation: nat, request: Request, scan: nat)
    | Applying(generation: nat)

  datatype Answer =
    | Ok
    | Planned(planId: Option<nat>)
    | ApplyAnswer(outcome: ApplyOutcome)
    | Failed(code: ErrorCode)

  // The answers a request can get.
  predicate Fits(flight: Flight, answer: Answer) {
    match answer
    case Failed(_) => true
    case Ok => flight.Scanning? || flight.Verifying?
    case Planned(_) => flight.Previewing?
    case ApplyAnswer(_) => flight.Applying?
  }

  // The refs, read and written at once.
  datatype Refs = Refs(mounted: bool, generation: nat, scanning: bool, verifying: bool,
                         previewing: bool, applying: bool)

  // The React state; `busy` fields are the pending flags it renders.
  datatype Shown = Shown(
    loading: bool, status: Option<Report>, error: Option<ErrorCode>,
    verifyBusy: bool, verify: Option<Verification>, verifyError: Option<ErrorCode>, verifyTarget: Option<Target>,
    previewBusy: bool, preview: Option<Plan>, previewError: Option<ErrorCode>, previewRequest: Option<Request>,
    applyBusy: bool, applyResult: Option<ApplyOutcome>, applyError: Option<ErrorCode>)

  // What the handlers of the last committed render close over.
  datatype Closure = Closure(preview: Option<Plan>, previewRequest: Option<Request>)

  // `scans` counts the scans started, `sent` the applies.
  datatype Section = Section(refs: Refs, shown: Shown, closure: Closure,
                             flights: map<Ticket, Flight>, tickets: nat, scans: nat, sent: seq<Sent>)

  const FIRST_RENDER: Shown :=
    Shown(true, None, None, false, None, None, None, false, None, None, None, false, None, None)

  const UNMOUNTED: Section :=
    Section(Refs(true, 0, false, false, false, false), FIRST_RENDER, Closure(None, None), map[], 0, 0, [])

  function Launch(s: Section, flight: Flight): Section {
    s.(flights := s.flights[s.tickets := flight], tickets := s.tickets + 1)
  }

  // `scan`, with the ref its callers set first.
  function Scan(s: Section, surface: bool): Section {
    var generation := s.refs.generation + 1;
    Launch(s.(refs := s.refs.(scanning := true, generation := generation), scans := s.scans + 1),
           Scanning(generation, s.scans + 1, surface))
  }

  function TornDown(s: Section): Section {
    s.(refs := s.refs.(mounted := false, generation := s.refs.generation + 1, scanning := false))
  }

  // The mount effects; under StrictMode they are torn down and run again at once.
  function Mounted(s: Section, strict: bool): Section {
    var once := Scan(s.(refs := s.refs.(mounted := true)), false);
    if strict then
      var down := TornDown(once);
      Scan(down.(refs := down.refs.(mounted := true)), false)
    else once
  }

  function Rescanned(s: Section): Section {
    if s.refs.scanning || s.refs.applying then s
    else
      Scan(s.(shown := s.shown.(loading := true, error := None, verify := None, verifyError := None,
                                verifyTarget := None, preview := None, previewError := None,
                                applyResult := None, applyError := None)), true)
  }

  function RescannedAfterApply(s: Section): Section {
    Scan(s.(shown := s.shown.(loading := true, error := None, verify := None, verifyError := None,
                              verifyTarget := None)), true)
  }

  predicate Busy(refs: Refs) {
    refs.scanning || refs.verifying || refs.previewing || refs.applying
  }

  function VerifyStarted(s: Section, target: Target): Section {
    if Busy(s.refs) then s
    else
      var generation := s.refs.generation + 1;
      Launch(s.(refs := s.refs.(verifying := true, generation := generation),
                shown := s.shown.(verifyBusy := true, verify := None, verifyError := None,
                                  verifyTarget := Some(target))),
             Verifying(generation, target, s.scans))
  }

  function PreviewStarted(s: Section, request: Request): Section {
    if Busy(s.refs) then s
    else
      var generation := s.refs.generation + 1;
      Launch(s.(refs := s.refs.(previewing := true, generation := generation),
                shown := s.shown.(previewBusy := true, preview := None, previewError := None,
                                  previewRequest := Some(request), applyResult := None, applyError := None)),
             Previewing(generation, request, s.scans))
  }

  // The apply of the plan the last render showed.
  function ApplyStarted(s: Section): Section {
    var closure := s.closure;
    if Busy(s.refs) || closure.preview.None? || closure.preview.value.planId.None?
       || closure.previewRequest.None? then s
    else
      var generation := s.refs.generation + 1;
      var plan := closure.preview.value;
      var sent := Sent(closure.previewRequest.value, plan.planId.value, plan);
      Launch(s.(refs := s.refs.(applying := true, generation := generation),
                shown := s.shown.(applyBusy := true, applyResult := None, applyError := None), sent := s.sent + [sent]),
             Applying(generation))
  }

  function ScanSettled(s: Section, flight: Flight, answer: Answer): Section
    requires flight.Scanning? && Fits(flight, answer)
  {
    if !s.refs.mounted || s.refs.generation != flight.generation then s
    else
      var settled := s.(refs := s.refs.(scanning := false), shown := s.shown.(loading := false));
      if answer.Failed? then
        settled.(shown := settled.shown.(status := None,
                                         error := if flight.surface then Some(answer.code) else settled.shown.error))
      else settled.(shown := settled.shown.(status := Some(Report(flight.scan))))
  }

  function VerifySettled(s: Section, flight: Flight, answer: Answer): Section
    requires flight.Verifying? && Fits(flight, answer)
  {
    var done := s.(refs := s.refs.(verifying := false));
    if !s.refs.mounted then done
    else
      var idle := done.(shown := done.shown.(verifyBusy := false));
      if s.refs.generation != flight.generation then idle
      else if answer.Failed? then idle.(shown := idle.shown.(verify := None, verifyError := Some(answer.code)))
      else idle.(shown := idle.shown.(verify := Some(Verification(flight.target, flight.scan))))
  }

  function PreviewSettled(s: Section, flight: Flight, answer: Answer): Section
    requires flight.Previewing? && Fits(flight, answer)
  {
    var done := s.(refs := s.refs.(previewing := false));
    if !s.refs.mounted then done
    else
      var idle := done.(shown := done.shown.(previewBusy := false));
      if s.refs.generation != flight.generation then idle
      else if answer.Failed? then idle.(shown := idle.shown.(previewError := Some(answer.code)))
      else idle.(shown := idle.shown.(preview := Some(Plan(answer.planId, flight.request, flight.scan))))
  }

  function ApplySettled(s: Section, flight: Flight, answer: Answer): Section
    requires flight.Applying? && Fits(flight, answer)
  {
    var done := s.(refs := s.refs.(applying := false));
    if !s.refs.mounted then done
    else
      var idle := done.(shown := done.shown.(applyBusy := false));
      if s.refs.generation != flight.generation then idle
      else if answer.Failed? then
        var failed := idle.(shown := idle.shown.(applyError := Some(answer.code)));
        if answer.code == RUN_ACTIVE then failed
        else RescannedAfterApply(failed.(shown := failed.shown.(preview := None)))
      else
        var told := idle.(shown := idle.shown.(applyResult := Some(answer.outcome)));
        if answer.outcome == Refused then told
        else
          var cleared := told.(shown := told.shown.(preview := None));
          if answer.outcome == Noop then cleared else RescannedAfterApply(cleared)
  }

  function Settled(s: Section, ticket: Ticket, answer: Answer): Section
    requires ticket in s.flights && Fits(s.flights[ticket], answer)
  {
    var flight := s.flights[ticket];
    var landed := s.(flights := s.flights - {ticket});
    match flight
    case Scanning(_, _, _) => ScanSettled(landed, flight, answer)
    case Verifying(_, _, _) => VerifySettled(landed, flight, answer)
    case Previewing(_, _, _) => PreviewSettled(landed, flight, answer)
    case Applying(_) => ApplySettled(landed, flight, answer)
  }

  datatype Event =
    | Mount(strict: bool)
    | Unmount
    | Render
    | ClickRescan
    | ClickVerify(target: Target)
    | ClickPreview(request: Request)
    | ClickApply
    | Settle(ticket: Ticket, answer: Answer)

  // The mount comes first and once; after the unmount only answers arrive.
  predicate Enabled(s: Section, e: Event) {
    match e
    case Mount(_) => s == UNMOUNTED
    case Settle(ticket, answer) => ticket in s.flights && Fits(s.flights[ticket], answer)
    case _ => s.refs.mounted && s.scans > 0
  }

  function Apply(s: Section, e: Event): Section
    requires Enabled(s, e)
  {
    match e
    case Mount(strict) => Mounted(s, strict)
    case Unmount => TornDown(s)
    case Render => s.(closure := Closure(s.shown.preview, s.shown.previewRequest))
    case ClickRescan => Rescanned(s)
    case ClickVerify(target) => VerifyStarted(s, target)
    case ClickPreview(request) => PreviewStarted(s, request)
    case ClickApply => ApplyStarted(s)
    case Settle(ticket, answer) => Settled(s, ticket, answer)
  }

  // ---- What every event keeps ---------------------------------------------------

  predicate Flagged(refs: Refs, flight: Flight) {
    match flight
    case Scanning(_, _, _) => true
    case Verifying(_, _, _) => refs.verifying
    case Previewing(_, _, _) => refs.previewing
    case Applying(_) => refs.applying
  }

  predicate SameKind(f: Flight, g: Flight) {
    (f.Verifying? && g.Verifying?) || (f.Previewing? && g.Previewing?) || (f.Applying? && g.Applying?)
  }

  // At most one verify, one preview and one apply are in flight, and each sets
  // its ref.
  ghost predicate OneEach(s: Section) {
    && (forall t :: t in s.flights ==>
          t < s.tickets && Flagged(s.refs, s.flights[t]) && s.flights[t].generation <= s.refs.generation)
    && (forall t, u :: t in s.flights && u in s.flights && SameKind(s.flights[t], s.flights[u]) ==> t == u)
  }

  // What sets a flag is still in flight, and what cannot be superseded has the
  // current generation.
  ghost predicate NothingStuck(s: Section) {
    && (forall t :: t in s.flights ==> s.scans > 0)
    && (s.refs.verifying ==> exists t :: t in s.flights && s.flights[t].Verifying?)
    && (s.refs.previewing ==> exists t :: t in s.flights && s.flights[t].Previewing?)
    && (s.refs.applying ==> exists t :: t in s.flights && s.flights[t].Applying?)
    && (s.refs.mounted && s.scans > 0 ==>
          && (s.shown.loading ==> s.refs.scanning)
          && (s.shown.verifyBusy ==> s.refs.verifying)
          && (s.shown.previewBusy ==> s.refs.previewing)
          && (s.shown.applyBusy ==> s.refs.applying)
          && (s.refs.scanning ==>
                exists t :: t in s.flights && s.flights[t].Scanning? && s.flights[t].generation == s.refs.generation)
          && (s.refs.applying ==>
                exists t :: t in s.flights && s.flights[t].Applying? && s.flights[t].generation == s.refs.generation)
          && (s.refs.applying ==> !s.refs.scanning))
  }

  // Whatever is shown belongs to the latest scan's report, and whatever still may
  // be shown will.
  ghost predicate BelongsToLatest(s: Section) {
    && (s.shown.verify.Some? ==> s.shown.verify.value.scan == s.scans)
    && (s.shown.preview.Some? ==> s.shown.preview.value.scan == s.scans)
    && (s.shown.status.Some? && !s.refs.scanning && s.refs.mounted ==> s.shown.status.value.scan == s.scans)
    && (forall t :: t in s.flights && s.flights[t].generation == s.refs.generation && !s.flights[t].Applying? ==>
          s.flights[t].scan == s.scans)
  }

  // A plan is shown, and closed over, with the request it came from; so every
  // apply was sent with it.
  ghost predicate PlansKeepTheirRequest(s: Section) {
    && (s.shown.preview.Some? ==> s.shown.previewRequest == Some(s.shown.preview.value.request))
    && (s.closure.preview.Some? ==> s.closure.previewRequest == Some(s.closure.preview.value.request))
    && (forall t :: t in s.flights && s.flights[t].Previewing? && s.flights[t].generation == s.refs.generation ==>
          s.shown.previewRequest == Some(s.flights[t].request))
    && (forall i :: 0 <= i < |s.sent| ==> s.sent[i].plan.request == s.sent[i].request
                                            && s.sent[i].plan.planId == Some(s.sent[i].planId))
  }

  ghost predicate Sound(s: Section) {
    OneEach(s) && NothingStuck(s) && BelongsToLatest(s) && PlansKeepTheirRequest(s)
  }

  lemma ScanKeeps(s: Section, surface: bool)
    requires OneEach(s) && !s.refs.applying && s.refs.mounted
    requires s.refs.verifying ==> exists t :: t in s.flights && s.flights[t].Verifying?
    requires s.refs.previewing ==> exists t :: t in s.flights && s.flights[t].Previewing?
    requires s.shown.verifyBusy ==> s.refs.verifying
    requires s.shown.previewBusy ==> s.refs.previewing
    requires !s.shown.applyBusy && s.shown.loading && s.shown.verify == None && s.shown.preview == None
    requires s.closure.preview.Some? ==> s.closure.previewRequest == Some(s.closure.preview.value.request)
    requires forall i :: 0 <= i < |s.sent| ==> s.sent[i].plan.request == s.sent[i].request
                                                && s.sent[i].plan.planId == Some(s.sent[i].planId)
    ensures Sound(Scan(s, surface))
  {
    var t := Scan(s, surface);
    assert t.flights[s.tickets].Scanning?;
    assert forall u :: u in s.flights ==> u in t.flights && t.flights[u] == s.flights[u];
  }

  lemma MountKeeps(strict: bool)
    ensures Sound(Mounted(UNMOUNTED, strict))
  {
    ScanKeeps(UNMOUNTED, false);
    var down := TornDown(Scan(UNMOUNTED, false));
    ScanKeeps(down.(refs := down.refs.(mounted := true)), false);
  }

  lemma RescanKeeps(s: Section)
    requires Sound(s) && s.refs.mounted && s.scans > 0
    ensures Sound(Rescanned(s))
  {
    if !s.refs.scanning && !s.refs.applying {
      ScanKeeps(s.(shown := s.shown.(loading := true, error := None, verify := None, verifyError := None,
                                     verifyTarget := None, preview := None, previewError := None,
                                     applyResult := None, applyError := None)), true);
    }
    hide Scan;
  }

  lemma VerifyKeeps(s: Section, target: Target)
    requires Sound(s) && s.refs.mounted && s.scans > 0
    ensures Sound(VerifyStarted(s, target))
  {
    var t := VerifyStarted(s, target);
    if !Busy(s.refs) {
      assert t.flights[s.tickets].Verifying?;
      assert forall u :: u in s.flights ==> u in t.flights && t.flights[u] == s.flights[u];
    }
  }

  lemma PreviewKeeps(s: Section, request: Request)
    requires Sound(s) && s.refs.mounted && s.scans > 0
    ensures Sound(PreviewStarted(s, request))
  {
    var t := PreviewStarted(s, request);
    if !Busy(s.refs) {
      assert t.flights[s.tickets].Previewing?;
      assert forall u :: u in s.flights ==> u in t.flights && t.flights[u] == s.flights[u];
    }
  }

  lemma ApplyKeeps(s: Section)
    requires Sound(s) && s.refs.mounted && s.scans > 0
    ensures Sound(ApplyStarted(s))
  {
    var t := ApplyStarted(s);
    if t != s {
      assert t.flights[s.tickets].Applying?;
      assert forall u :: u in s.flights ==> u in t.flights && t.flights[u] == s.flights[u];
    }
  }

  lemma UnmountKeeps(s: Section)
    requires Sound(s)
    ensures Sound(TornDown(s))
  {
  }

  // Taking one request out of flight, and its flag down with it, leaves the rest
  // flagged.
  lemma LandedOneEach(s: Section, ticket: Ticket, refs: Refs)
    requires OneEach(s) && ticket in s.flights && refs.generation == s.refs.generation
    requires refs.verifying == (s.refs.verifying && !s.flights[ticket].Verifying?)
    requires refs.previewing == (s.refs.previewing && !s.flights[ticket].Previewing?)
    requires refs.applying == (s.refs.applying && !s.flights[ticket].Applying?)
    ensures OneEach(s.(flights := s.flights - {ticket}, refs := refs))
  {
    var flights := s.flights - {ticket};
    forall t | t in flights
      ensures Flagged(refs, flights[t])
    {
      assert SameKind(s.flights[t], s.flights[ticket]) ==> t == ticket;
    }
  }

  lemma OnlyFlightsCount(s: Section, t: Section)
    requires OneEach(s) && s.flights == t.flights && s.refs == t.refs && s.tickets == t.tickets
    ensures OneEach(t)
  {
  }

  ghost predicate Lands(s: Section, ticket: Ticket, answer: Answer) {
    ticket in s.flights && Fits(s.flights[ticket], answer) && !s.flights[ticket].Applying?
  }

  // An answer to a scan, a verify or a preview keeps everything.
  lemma SettledOneEach(s: Section, ticket: Ticket, answer: Answer)
    requires OneEach(s) && Lands(s, ticket, answer)
    ensures OneEach(Settled(s, ticket, answer))
  {
    var t := Settled(s, ticket, answer);
    hide OneEach;
    LandedOneEach(s, ticket, t.refs);
    OnlyFlightsCount(s.(flights := t.flights, refs := t.refs), t);
  }

  lemma ScanSettledNothingStuck(s: Section, ticket: Ticket, answer: Answer)
    requires NothingStuck(s) && Lands(s, ticket, answer) && s.flights[ticket].Scanning?
    ensures NothingStuck(Settled(s, ticket, answer))
  {
    var t := Settled(s, ticket, answer);
    assert forall u :: u in s.flights && u != ticket ==> u in t.flights;
  }

  lemma VerifySettledNothingStuck(s: Section, ticket: Ticket, answer: Answer)
    requires NothingStuck(s) && Lands(s, ticket, answer) && s.flights[ticket].Verifying?
    ensures NothingStuck(Settled(s, ticket, answer))
  {
    var t := Settled(s, ticket, answer);
    assert forall u :: u in s.flights && u != ticket ==> u in t.flights;
  }

  lemma PreviewSettledNothingStuck(s: Section, ticket: Ticket, answer: Answer)
    requires NothingStuck(s) && Lands(s, ticket, answer) && s.flights[ticket].Previewing?
    ensures NothingStuck(Settled(s, ticket, answer))
  {
    var t := Settled(s, ticket, answer);
    assert forall u :: u in s.flights && u != ticket ==> u in t.flights;
  }

  lemma SettledBelongs(s: Section, ticket: Ticket, answer: Answer)
    requires BelongsToLatest(s) && Lands(s, ticket, answer)
    ensures BelongsToLatest(Settled(s, ticket, answer))
  {
  }

  lemma SettledKeepsRequest(s: Section, ticket: Ticket, answer: Answer)
    requires PlansKeepTheirRequest(s) && Lands(s, ticket, answer)
    ensures PlansKeepTheirRequest(Settled(s, ticket, answer))
  {
  }

  lemma QuietSettledKeeps(s: Section, ticket: Ticket, answer: Answer)
    requires Sound(s) && Lands(s, ticket, answer)
    ensures Sound(Settled(s, ticket, answer))
  {
    hide OneEach, NothingStuck, BelongsToLatest, PlansKeepTheirRequest, Settled;
    SettledOneEach(s, ticket, answer);
    SettledBelongs(s, ticket, answer);
    SettledKeepsRequest(s, ticket, answer);
    match s.flights[ticket]
    case Scanning(_, _, _) => ScanSettledNothingStuck(s, ticket, answer);
    case Verifying(_, _, _) => VerifySettledNothingStuck(s, ticket, answer);
    case Previewing(_, _, _) => PreviewSettledNothingStuck(s, ticket, answer);
  }

  // The section right after the apply in flight has landed, before any rescan.
  function Told(s: Section, ticket: Ticket, shown: Shown): Section
    requires ticket in s.flights
  {
    s.(flights := s.flights - {ticket}, refs := s.refs.(applying := false), shown := shown)
  }

  lemma ToldKeeps(s: Section, ticket: Ticket, shown: Shown)
    requires Sound(s) && ticket in s.flights && s.flights[ticket].Applying?
    requires shown.applyBusy ==> s.shown.applyBusy && !s.refs.mounted
    requires shown == s.shown.(applyBusy := shown.applyBusy, applyResult := shown.applyResult,
                               applyError := shown.applyError, preview := shown.preview)
    requires shown.preview == s.shown.preview || shown.preview == None
    ensures Sound(Told(s, ticket, shown))
  {
    var t := Told(s, ticket, shown);
    LandedOneEach(s, ticket, t.refs);
    OnlyFlightsCount(s.(flights := t.flights, refs := t.refs), t);
    assert forall u :: u in s.flights && u != ticket ==> u in t.flights;
  }

  // A rescan right after an apply keeps the result on screen, and everything else.
  lemma RescanAfterApplyKeeps(s: Section)
    requires Sound(s) && s.refs.mounted && s.scans > 0 && !s.refs.applying && s.shown.preview == None
    ensures Sound(RescannedAfterApply(s))
  {
    ScanKeeps(s.(shown := s.shown.(loading := true, error := None, verify := None, verifyError := None,
                                   verifyTarget := None)), true);
    hide Scan, Sound;
  }

  // The section right after an apply's answer is shown, before any rescan.
  lemma AnsweredKeeps(s: Section, ticket: Ticket, shown: Shown)
    requires Sound(s) && ticket in s.flights && s.flights[ticket].Applying? && s.refs.mounted && !shown.applyBusy
    requires shown == s.shown.(applyBusy := false, applyResult := shown.applyResult, applyError := shown.applyError)
    ensures Sound(Told(s, ticket, shown)) && Sound(Told(s, ticket, shown.(preview := None)))
    ensures Sound(RescannedAfterApply(Told(s, ticket, shown.(preview := None))))
  {
    assert s.scans > 0;
    hide Sound, RescannedAfterApply;
    ToldKeeps(s, ticket, shown);
    ToldKeeps(s, ticket, shown.(preview := None));
    RescanAfterApplyKeeps(Told(s, ticket, shown.(preview := None)));
  }

  lemma CurrentApplyKeeps(s: Section, ticket: Ticket, answer: Answer)
    requires Sound(s) && ticket in s.flights && Fits(s.flights[ticket], answer) && s.flights[ticket].Applying?
    requires s.refs.mounted && s.refs.generation == s.flights[ticket].generation
    ensures Sound(ApplySettled(s.(flights := s.flights - {ticket}), s.flights[ticket], answer))
  {
    hide Sound, RescannedAfterApply;
    var idle := s.shown.(applyBusy := false);
    if answer.Failed? {
      AnsweredKeeps(s, ticket, idle.(applyError := Some(answer.code)));
    } else {
      AnsweredKeeps(s, ticket, idle.(applyResult := Some(answer.outcome)));
    }
  }

  lemma DroppedApplyKeeps(s: Section, ticket: Ticket, answer: Answer)
    requires Sound(s) && ticket in s.flights && Fits(s.flights[ticket], answer) && s.flights[ticket].Applying?
    requires !(s.refs.mounted && s.refs.generation == s.flights[ticket].generation)
    ensures Sound(ApplySettled(s.(flights := s.flights - {ticket}), s.flights[ticket], answer))
  {
    hide Sound;
    ToldKeeps(s, ticket, if s.refs.mounted then s.shown.(applyBusy := false) else s.shown);
  }

  lemma ApplySettledKeeps(s: Section, ticket: Ticket, answer: Answer)
    requires Sound(s) && ticket in s.flights && Fits(s.flights[ticket], answer) && s.flights[ticket].Applying?
    ensures Sound(Settled(s, ticket, answer))
  {
    hide Sound, ApplySettled;
    if s.refs.mounted && s.refs.generation == s.flights[ticket].generation {
      CurrentApplyKeeps(s, ticket, answer);
    } else {
      DroppedApplyKeeps(s, ticket, answer);
    }
  }

  // Whatever is clicked, rendered or answered next, everything stands.
  lemma EventKeeps(s: Section, e: Event)
    requires Sound(s) && Enabled(s, e)
    ensures Sound(Apply(s, e))
  {
    hide Scan, Settled, Launch, Mounted, Rescanned, VerifyStarted, PreviewStarted, ApplyStarted;
    match e
    case Mount(strict) => MountKeeps(strict);
    case Unmount => UnmountKeeps(s);
    case Render => RenderKeeps(s);
    case ClickRescan => RescanKeeps(s);
    case ClickVerify(target) => VerifyKeeps(s, target);
    case ClickPreview(request) => PreviewKeeps(s, request);
    case ClickApply => ApplyKeeps(s);
    case Settle(ticket, answer) =>
      if s.flights[ticket].Applying? {
        ApplySettledKeeps(s, ticket, answer);
      } else {
        QuietSettledKeeps(s, ticket, answer);
      }
  }

  lemma RenderKeeps(s: Section)
    requires Sound(s)
    ensures Sound(s.(closure := Closure(s.shown.preview, s.shown.previewRequest)))
  {
  }

  ghost predicate Run(s: Section, events: seq<Event>, t: Section)
    decreases |events|
  {
    if events == [] then s == t else Enabled(s, events[0]) && Run(Apply(s, events[0]), events[1..], t)
  }

  lemma {:induction false} EveryRunIsSound(s: Section, events: seq<Event>, t: Section)
    requires Sound(s) && Run(s, events, t)
    ensures Sound(t)
    decreases |events|
  {
    if events != [] {
      EventKeeps(s, events[0]);
      hide Sound, Enabled, Apply;
      EveryRunIsSound(Apply(s, events[0]), events[1..], t);
    }
  }

  lemma UnmountedIsSound()
    ensures Sound(UNMOUNTED)
  {
  }

  // In every order of clicks and answers: while the section loads, the scan that
  // will end the loading is in flight, so it is never stuck.
  lemma LoadingEnds(events: seq<Event>, s: Section, answer: Answer)
    requires Run(UNMOUNTED, events, s) && s.refs.mounted && s.scans > 0 && s.shown.loading
    requires answer.Ok? || answer.Failed?
    ensures exists ticket :: ticket in s.flights && s.flights[ticket].Scanning?
              && s.flights[ticket].generation == s.refs.generation && Fits(s.flights[ticket], answer)
              && !Settled(s, ticket, answer).shown.loading && !Settled(s, ticket, answer).refs.scanning
  {
    UnmountedIsSound();
    EveryRunIsSound(UNMOUNTED, events, s);
    hide Run;
    var ticket :| ticket in s.flights && s.flights[ticket].Scanning?
                  && s.flights[ticket].generation == s.refs.generation;
    assert Fits(s.flights[ticket], answer);
    assert !Settled(s, ticket, answer).shown.loading;
  }

  // An apply is never superseded: while the section stays mounted, its answer is
  // always shown, and it was sent with the request its plan came from.
  lemma ApplyIsAnswered(events: seq<Event>, s: Section, ticket: Ticket, answer: Answer)
    requires Run(UNMOUNTED, events, s) && s.refs.mounted
    requires ticket in s.flights && s.flights[ticket].Applying? && Fits(s.flights[ticket], answer)
    ensures var shown := Settled(s, ticket, answer).shown;
            if answer.Failed? then shown.applyError == Some(answer.code) else shown.applyResult == Some(answer.outcome)
    ensures !Settled(s, ticket, answer).shown.applyBusy && !Settled(s, ticket, answer).refs.applying
  {
    UnmountedIsSound();
    EveryRunIsSound(UNMOUNTED, events, s);
    assert s.scans > 0;
    hide Run, BelongsToLatest, PlansKeepTheirRequest;
    var other :| other in s.flights && s.flights[other].Applying? && s.flights[other].generation == s.refs.generation;
    assert SameKind(s.flights[ticket], s.flights[other]);
    assert s.flights[ticket].generation == s.refs.generation;
    hide OneEach, NothingStuck;
    CurrentApplyIsShown(s, ticket, answer);
  }

  lemma CurrentApplyIsShown(s: Section, ticket: Ticket, answer: Answer)
    requires s.refs.mounted && ticket in s.flights && s.flights[ticket].Applying? && Fits(s.flights[ticket], answer)
    requires s.flights[ticket].generation == s.refs.generation
    ensures var shown := Settled(s, ticket, answer).shown;
            if answer.Failed? then shown.applyError == Some(answer.code) else shown.applyResult == Some(answer.outcome)
    ensures !Settled(s, ticket, answer).shown.applyBusy && !Settled(s, ticket, answer).refs.applying
  {
  }

  // A verification or a plan on screen was asked for against the latest scan's
  // report, which is also the report on screen if one is.
  lemma ShownBelongsToTheReport(events: seq<Event>, s: Section)
    requires Run(UNMOUNTED, events, s) && s.refs.mounted && !s.refs.scanning
    ensures s.shown.status.Some? && s.shown.verify.Some? ==> s.shown.verify.value.scan == s.shown.status.value.scan
    ensures s.shown.status.Some? && s.shown.preview.Some? ==> s.shown.preview.value.scan == s.shown.status.value.scan
    ensures s.shown.verify.Some? ==> s.shown.verify.value.scan == s.scans
    ensures s.shown.preview.Some? ==> s.shown.preview.value.scan == s.scans
  {
    UnmountedIsSound();
    EveryRunIsSound(UNMOUNTED, events, s);
    hide Run;
  }

  // Every apply sent the id of a plan with the very request that plan came from.
  lemma AppliesKeepTheirRequest(events: seq<Event>, s: Section, i: nat)
    requires Run(UNMOUNTED, events, s) && i < |s.sent|
    ensures s.sent[i].plan.request == s.sent[i].request && s.sent[i].plan.planId == Some(s.sent[i].planId)
  {
    UnmountedIsSound();
    EveryRunIsSound(UNMOUNTED, events, s);
    hide Run;
  }

  // No flag outlives its request: a verify or a preview, superseded or not, is
  // still in flight while its flag is up, and its answer takes the flag down.
  lemma PendingFlagsClear(events: seq<Event>, s: Section)
    requires Run(UNMOUNTED, events, s) && s.refs.mounted && s.scans > 0
    ensures s.shown.verifyBusy ==> exists t :: t in s.flights && s.flights[t].Verifying?
    ensures s.shown.previewBusy ==> exists t :: t in s.flights && s.flights[t].Previewing?
    ensures s.shown.applyBusy ==> exists t :: t in s.flights && s.flights[t].Applying?
  {
    UnmountedIsSound();
    EveryRunIsSound(UNMOUNTED, events, s);
    hide Run;
  }

  lemma AnswerTakesFlagDown(s: Section, ticket: Ticket, answer: Answer)
    requires s.refs.mounted && ticket in s.flights && Fits(s.flights[ticket], answer)
    ensures var t := Settled(s, ticket, answer);
            match s.flights[ticket]
            case Scanning(_, _, _) => true
            case Verifying(_, _, _) => !t.shown.verifyBusy && !t.refs.verifying
            case Previewing(_, _, _) => !t.shown.previewBusy && !t.refs.previewing
            case Applying(_) => !t.shown.applyBusy && !t.refs.applying
  {
    hide ScanSettled;
    if s.flights[ticket].Applying? {
      ApplyFlagDown(s.(flights := s.flights - {ticket}), s.flights[ticket], answer);
    }
    hide ApplySettled;
  }

  lemma ApplyFlagDown(s: Section, flight: Flight, answer: Answer)
    requires s.refs.mounted && flight.Applying? && Fits(flight, answer)
    ensures !ApplySettled(s, flight, answer).shown.applyBusy && !ApplySettled(s, flight, answer).refs.applying
  {
  }

  // ---- The component -------------------------------------------------------------

  // The handlers as the component runs them: refs and state are its fields.
  class Component {
    var mountedRef: bool
    var generationRef: nat
    var scanningRef: bool
    var verifyingRef: bool
    var previewingRef: bool
    var applyingRef: bool
    var shown: Shown
    // What the handlers of the last committed render close over.
    var preview: Option<Plan>
    var previewRequest: Option<Request>
    // The requests the section has in flight, and what it has asked for so far.
    ghost var flights: map<Ticket, Flight>
    ghost var tickets: nat
    ghost var scans: nat
    ghost var sent: seq<Sent>

    ghost function State(): Section
      reads this
    {
      Section(Refs(mountedRef, generationRef, scanningRef, verifyingRef, previewingRef, applyingRef),
              shown, Closure(preview, previewRequest), flights, tickets, scans, sent)
    }

    constructor ()
      ensures State() == UNMOUNTED
    {
      mountedRef, generationRef := true, 0;
      scanningRef, verifyingRef, previewingRef, applyingRef := false, false, false, false;
      shown := FIRST_RENDER;
      preview, previewRequest := None, None;
      flights, tickets, scans, sent := map[], 0, 0, [];
    }

    ghost method Dispatch(flight: Flight)
      modifies this`flights, this`tickets
      ensures State() == Launch(old(State()), flight)
    {
      flights, tickets := flights[tickets := flight], tickets + 1;
    }

    // `scan`; its callers set the ref first.
    method StartScan(surface: bool)
      requires scanningRef
      modifies this
      ensures State() == Scan(old(State()), surface)
    {
      generationRef := generationRef + 1;
      scans := scans + 1;
      Dispatch(Scanning(generationRef, scans, surface));
    }

    // The two mount effects and, under StrictMode, their replay.
    method MountEffects(strict: bool)
      modifies this
      ensures State() == Mounted(old(State()), strict)
    {
      mountedRef, scanningRef := true, true;
      StartScan(false);
      if strict {
        Cleanup();
        mountedRef, scanningRef := true, true;
        StartScan(false);
      }
    }

    method Cleanup()
      modifies this
      ensures State() == TornDown(old(State()))
    {
      mountedRef := false;
      generationRef := generationRef + 1;
      scanningRef := false;
    }

    method Commit()
      modifies this
      ensures State() == old(State())
        .(closure := Closure(old(State()).shown.preview, old(State()).shown.previewRequest))
    {
      preview, previewRequest := shown.preview, shown.previewRequest;
    }

    method Rescan()
      modifies this
      ensures State() == Rescanned(old(State()))
    {
      if scanningRef || applyingRef {
        return;
      }
      scanningRef := true;
      shown := shown.(loading := true, error := None, verify := None, verifyError := None, verifyTarget := None,
                      preview := None, previewError := None, applyResult := None, applyError := None);
      StartScan(true);
    }

    method RescanAfterApply()
      modifies this
      ensures State() == RescannedAfterApply(old(State()))
    {
      scanningRef := true;
      shown := shown.(loading := true, error := None, verify := None, verifyError := None, verifyTarget := None);
      StartScan(true);
    }

    method RunVerify(target: Target)
      modifies this
      ensures State() == VerifyStarted(old(State()), target)
    {
      if verifyingRef || scanningRef || previewingRef || applyingRef {
        return;
      }
      verifyingRef := true;
      generationRef := generationRef + 1;
      shown := shown.(verifyBusy := true, verify := None, verifyError := None, verifyTarget := Some(target));
      Dispatch(Verifying(generationRef, target, scans));
    }

    method RunPreview(request: Request)
      modifies this
      ensures State() == PreviewStarted(old(State()), request)
    {
      if previewingRef || applyingRef || verifyingRef || scanningRef {
        return;
      }
      previewingRef := true;
      generationRef := generationRef + 1;
      shown := shown.(previewBusy := true, preview := None, previewError := None, previewRequest := Some(request),
                      applyResult := None, applyError := None);
      Dispatch(Previewing(generationRef, request, scans));
    }

    method RunApply()
      modifies this
      ensures State() == ApplyStarted(old(State()))
    {
      if applyingRef || previewingRef || verifyingRef || scanningRef {
        return;
      }
      if preview.None? || preview.value.planId.None? || previewRequest.None? {
        return;
      }
      applyingRef := true;
      generationRef := generationRef + 1;
      shown := shown.(applyBusy := true, applyResult := None, applyError := None);
      sent := sent + [Sent(previewRequest.value, preview.value.planId.value, preview.value)];
      Dispatch(Applying(generationRef));
    }

    // The answer to one request, run through its handler.
    method OnAnswer(ticket: Ticket, flight: Flight, answer: Answer)
      requires ticket in flights && flights[ticket] == flight && Fits(flight, answer)
      modifies this
      ensures State() == Settled(old(State()), ticket, answer)
    {
      hide ScanSettled, VerifySettled, PreviewSettled, ApplySettled;
      flights := flights - {ticket};
      match flight
      case Scanning(_, _, _) => OnScanAnswer(flight, answer);
      case Verifying(_, _, _) => OnVerifyAnswer(flight, answer);
      case Previewing(_, _, _) => OnPreviewAnswer(flight, answer);
      case Applying(generation) => OnApplyAnswer(generation, answer);
    }

    method OnScanAnswer(flight: Flight, answer: Answer)
      requires flight.Scanning? && Fits(flight, answer)
      modifies this
      ensures State() == ScanSettled(old(State()), flight, answer)
    {
      if !mountedRef || generationRef != flight.generation {
        return;
      }
      scanningRef := false;
      shown := shown.(loading := false);
      if answer.Failed? {
        shown := shown.(status := None);
        if flight.surface {
          shown := shown.(error := Some(answer.code));
        }
      } else {
        shown := shown.(status := Some(Report(flight.scan)));
      }
    }

    method OnVerifyAnswer(flight: Flight, answer: Answer)
      requires flight.Verifying? && Fits(flight, answer)
      modifies this
      ensures State() == VerifySettled(old(State()), flight, answer)
    {
      verifyingRef := false;
      if !mountedRef {
        return;
      }
      shown := shown.(verifyBusy := false);
      if generationRef != flight.generation {
        return;
      }
      shown := if answer.Failed? then shown.(verify := None, verifyError := Some(answer.code))
               else shown.(verify := Some(Verification(flight.target, flight.scan)));
    }

    method OnPreviewAnswer(flight: Flight, answer: Answer)
      requires flight.Previewing? && Fits(flight, answer)
      modifies this
      ensures State() == PreviewSettled(old(State()), flight, answer)
    {
      previewingRef := false;
      if !mountedRef {
        return;
      }
      shown := shown.(previewBusy := false);
      if generationRef != flight.generation {
        return;
      }
      shown := if answer.Failed? then shown.(previewError := Some(answer.code))
               else shown.(preview := Some(Plan(answer.planId, flight.request, flight.scan)));
    }

    method OnApplyAnswer(generation: nat, answer: Answer)
      requires Fits(Applying(generation), answer)
      modifies this
      ensures State() == ApplySettled(old(State()), Applying(generation), answer)
    {
      hide Scan;
      applyingRef := false;
      if !mountedRef {
        return;
      }
      shown := shown.(applyBusy := false);
      if generationRef != generation {
        return;
      }
      if answer.Failed? {
        shown := shown.(applyError := Some(answer.code));
        if answer.code == RUN_ACTIVE {
          return;
        }
      } else {
        shown := shown.(applyResult := Some(answer.outcome));
        if answer.outcome == Refused {
          return;
        }
      }
      shown := shown.(preview := None);
      if answer.ApplyAnswer? && answer.outcome == Noop {
        return;
      }
      RescanAfterApply();
    }
  }
}
