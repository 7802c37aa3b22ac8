// What every click starts and every answer shows, field by field, in any run.
module DefinitionSectionAnswers {
  import opened Basics
  import opened DefinitionSection

  // ---- Answers --------------------------------------------------------------------

  // Whether the answer to a request is still wanted.
  predicate IsCurrent(s: Section, ticket: Ticket)
    requires ticket in s.flights
  {
    s.refs.mounted && s.flights[ticket].generation == s.refs.generation
  }

  // What a request in flight leaves alone whatever it is answered.
  predicate OnlyLands(s: Section, ticket: Ticket, t: Section) {
    && ticket in s.flights && t.flights == s.flights - {ticket}
    && t.tickets == s.tickets && t.scans == s.scans && t.sent == s.sent && t.closure == s.closure
    && t.refs.generation == s.refs.generation && t.refs.mounted == s.refs.mounted
  }

  // A scan's answer ends the loading and shows the latest scan's report, or none and,
  // if the scan was asked for by hand or by an apply, the error. The answer to a scan
  // superseded since changes nothing shown.
  lemma ScanAnswered(events: seq<Event>, s: Section, ticket: Ticket, answer: Answer)
    requires Run(UNMOUNTED, events, s) && ticket in s.flights && s.flights[ticket].Scanning?
    requires answer.Ok? || answer.Failed?
    ensures var t, flight := Settled(s, ticket, answer), s.flights[ticket];
            && OnlyLands(s, ticket, t)
            && (!IsCurrent(s, ticket) ==> t.shown == s.shown && t.refs == s.refs)
            && (IsCurrent(s, ticket) ==>
                  && !t.refs.scanning && !t.shown.loading
                  && (answer.Ok? ==>
                        t.shown.status == Some(Report(s.scans)) && t.shown.error == s.shown.error)
                  && (answer.Failed? ==>
                        && t.shown.status == None
                        && t.shown.error == if flight.surface then Some(answer.code) else s.shown.error)
                  && t.shown == s.shown.(loading := false, status := t.shown.status, error := t.shown.error))
  {
    UnmountedIsSound();
    EveryRunIsSound(UNMOUNTED, events, s);
    hide Run, OneEach, NothingStuck, PlansKeepTheirRequest;
  }

  // A verify's answer ends it and shows the verification of its target against the
  // latest report, or only the error; one superseded since shows nothing.
  lemma VerifyAnswered(events: seq<Event>, s: Section, ticket: Ticket, answer: Answer)
    requires Run(UNMOUNTED, events, s) && ticket in s.flights && s.flights[ticket].Verifying?
    requires answer.Ok? || answer.Failed?
    ensures var t, flight := Settled(s, ticket, answer), s.flights[ticket];
            && OnlyLands(s, ticket, t) && !t.refs.verifying
            && (!s.refs.mounted ==> t.shown == s.shown)
            && (s.refs.mounted && !IsCurrent(s, ticket) ==> t.shown == s.shown.(verifyBusy := false))
            && (IsCurrent(s, ticket) ==>
                  && !t.shown.verifyBusy
                  && (answer.Ok? ==>
                        && t.shown.verify == Some(Verification(flight.target, s.scans))
                        && t.shown.verifyError == s.shown.verifyError)
                  && (answer.Failed? ==> t.shown.verify == None && t.shown.verifyError == Some(answer.code))
                  && t.shown == s.shown.(verifyBusy := false, verify := t.shown.verify,
                                         verifyError := t.shown.verifyError))
  {
    UnmountedIsSound();
    EveryRunIsSound(UNMOUNTED, events, s);
    hide Run, OneEach, NothingStuck, PlansKeepTheirRequest;
  }

  // A preview's answer ends it and shows the plan, or only the error.
  lemma PreviewAnswered(events: seq<Event>, s: Section, ticket: Ticket, answer: Answer)
    requires Run(UNMOUNTED, events, s) && ticket in s.flights && s.flights[ticket].Previewing?
    requires answer.Planned? || answer.Failed?
    ensures var t, flight := Settled(s, ticket, answer), s.flights[ticket];
            && OnlyLands(s, ticket, t) && !t.refs.previewing
            && (!s.refs.mounted ==> t.shown == s.shown)
            && (s.refs.mounted && !IsCurrent(s, ticket) ==> t.shown == s.shown.(previewBusy := false))
            && (IsCurrent(s, ticket) ==>
                  && !t.shown.previewBusy
                  && (answer.Planned? ==>
                        && t.shown.preview == Some(Plan(answer.planId, flight.request, s.scans))
                        && t.shown.previewError == s.shown.previewError)
                  && (answer.Failed? ==>
                        t.shown.preview == s.shown.preview && t.shown.previewError == Some(answer.code))
                  && t.shown == s.shown.(previewBusy := false, preview := t.shown.preview,
                                         previewError := t.shown.previewError))
  {
    UnmountedIsSound();
    EveryRunIsSound(UNMOUNTED, events, s);
    hide Run, OneEach, NothingStuck, PlansKeepTheirRequest;
  }

  // Which apply answers leave the plan, and which start a scan.
  predicate KeepsPlan(answer: Answer) {
    (answer.ApplyAnswer? && answer.outcome == Refused) || (answer.Failed? && answer.code == "run-active")
  }

  predicate Rescans(answer: Answer) {
    (answer.ApplyAnswer? && answer.outcome == Applied) || (answer.Failed? && answer.code != "run-active")
  }

  lemma ApplyShows(s: Section, flight: Flight, answer: Answer)
    requires flight.Applying? && Fits(flight, answer) && s.refs.mounted && s.refs.generation == flight.generation
    ensures var t := ApplySettled(s, flight, answer);
            && !t.refs.applying && !t.shown.applyBusy && t.sent == s.sent
            && t.shown.applyResult == (if answer.ApplyAnswer? then Some(answer.outcome) else s.shown.applyResult)
            && t.shown.applyError == (if answer.Failed? then Some(answer.code) else s.shown.applyError)
            && t.shown.preview == (if KeepsPlan(answer) then s.shown.preview else None)
            && t.shown.previewRequest == s.shown.previewRequest && t.shown.previewError == s.shown.previewError
            && t.shown.status == s.shown.status
  {
    match answer
    case Failed(_) =>
    case ApplyAnswer(_) =>
  }

  // An apply's answer is shown, and the plan dropped unless nothing can have been
  // written.
  lemma ApplyAnswered(events: seq<Event>, s: Section, ticket: Ticket, answer: Answer)
    requires Run(UNMOUNTED, events, s) && s.refs.mounted && ticket in s.flights && s.flights[ticket].Applying?
    requires answer.ApplyAnswer? || answer.Failed?
    ensures var t := Settled(s, ticket, answer);
            && !t.refs.applying && !t.shown.applyBusy && t.sent == s.sent
            && t.shown.applyResult == (if answer.ApplyAnswer? then Some(answer.outcome) else s.shown.applyResult)
            && t.shown.applyError == (if answer.Failed? then Some(answer.code) else s.shown.applyError)
            && t.shown.preview == (if KeepsPlan(answer) then s.shown.preview else None)
            && t.shown.previewRequest == s.shown.previewRequest && t.shown.previewError == s.shown.previewError
            && t.shown.status == s.shown.status
  {
    ApplyIsCurrent(events, s, ticket);
    hide Run, ScanSettled, VerifySettled, PreviewSettled, ApplySettled;
    ApplyShows(s.(flights := s.flights - {ticket}), s.flights[ticket], answer);
  }

  // A scan follows exactly when something was written, or may have been, and only what
  // described the rows goes with it.
  lemma ApplyRescans(events: seq<Event>, s: Section, ticket: Ticket, answer: Answer)
    requires Run(UNMOUNTED, events, s) && s.refs.mounted && ticket in s.flights && s.flights[ticket].Applying?
    requires answer.ApplyAnswer? || answer.Failed?
    ensures var t := Settled(s, ticket, answer);
            if Rescans(answer)
            then
              && t.scans == s.scans + 1 && t.refs.scanning && t.shown.loading
              && t.flights == (s.flights - {ticket})[s.tickets := Scanning(t.refs.generation, t.scans, true)]
              && t.refs.generation == s.refs.generation + 1
              && t.shown.error == None && t.shown.verify == None && t.shown.verifyError == None
              && t.shown.verifyTarget == None
            else
              && t.scans == s.scans && t.refs.scanning == s.refs.scanning && t.shown.loading == s.shown.loading
              && t.flights == s.flights - {ticket} && t.refs.generation == s.refs.generation
              && t.shown.error == s.shown.error && t.shown.verify == s.shown.verify
              && t.shown.verifyError == s.shown.verifyError && t.shown.verifyTarget == s.shown.verifyTarget
  {
    ApplyIsCurrent(events, s, ticket);
    hide Run, ScanSettled, VerifySettled, PreviewSettled;
  }

  lemma ApplyIsCurrent(events: seq<Event>, s: Section, ticket: Ticket)
    requires Run(UNMOUNTED, events, s) && s.refs.mounted && ticket in s.flights && s.flights[ticket].Applying?
    ensures IsCurrent(s, ticket)
  {
    UnmountedIsSound();
    EveryRunIsSound(UNMOUNTED, events, s);
    assert s.scans > 0;
    hide Run, BelongsToLatest, PlansKeepTheirRequest;
    var other :| other in s.flights && s.flights[other].Applying? && s.flights[other].generation == s.refs.generation;
    assert SameKind(s.flights[ticket], s.flights[other]);
  }

  // Once the section is gone no answer shows or starts anything, and whatever was in
  // flight is superseded for good.
  lemma UnmountEnds(events: seq<Event>, s: Section, ticket: Ticket)
    requires Run(UNMOUNTED, events, s) && s.refs.mounted && s.scans > 0
    ensures var t := Apply(s, Unmount);
            && !t.refs.mounted && !t.refs.scanning
            && t.shown == s.shown && t.flights == s.flights && t.scans == s.scans && t.sent == s.sent
            && (ticket in t.flights ==> t.flights[ticket].generation < t.refs.generation)
  {
    UnmountedIsSound();
    EveryRunIsSound(UNMOUNTED, events, s);
    hide Run, NothingStuck, BelongsToLatest, PlansKeepTheirRequest;
  }

  lemma AnswerToNobody(s: Section, ticket: Ticket, answer: Answer)
    requires !s.refs.mounted && ticket in s.flights && Fits(s.flights[ticket], answer)
    ensures OnlyLands(s, ticket, Settled(s, ticket, answer)) && Settled(s, ticket, answer).shown == s.shown
  {
  }

  // Only the scan of the mount keeps its error to itself.
  lemma OnlyMountIsQuiet(s: Section, e: Event, ticket: Ticket)
    requires Enabled(s, e) && ticket !in s.flights
    requires ticket in Apply(s, e).flights && Apply(s, e).flights[ticket].Scanning?
    ensures Apply(s, e).flights[ticket].surface <==> !e.Mount?
  {
  }

  // ---- Clicks -----------------------------------------------------------------------

  // One more request, of the next generation.
  predicate Launches(s: Section, t: Section, flight: Flight) {
    && t.refs.generation == s.refs.generation + 1 && flight.generation == t.refs.generation
    && t.flights == s.flights[s.tickets := flight] && t.tickets == s.tickets + 1
    && t.closure == s.closure
  }

  // A rescan is refused beside a scan or an apply; otherwise it clears every result and
  // error, plans and applies included, but the report.
  lemma RescanClicked(s: Section)
    ensures var t := Rescanned(s);
            if s.refs.scanning || s.refs.applying then t == s
            else
              && Launches(s, t, Scanning(t.refs.generation, s.scans + 1, true))
              && t.scans == s.scans + 1 && t.sent == s.sent && t.refs.scanning
              && t.refs == s.refs.(scanning := true, generation := t.refs.generation)
              && t.shown.loading && t.shown.status == s.shown.status && t.shown.error == None
              && t.shown.verify == None && t.shown.verifyError == None && t.shown.verifyTarget == None
              && t.shown.preview == None && t.shown.previewError == None
              && t.shown.previewRequest == s.shown.previewRequest
              && t.shown.applyResult == None && t.shown.applyError == None
              && t.shown.verifyBusy == s.shown.verifyBusy && t.shown.previewBusy == s.shown.previewBusy
              && t.shown.applyBusy == s.shown.applyBusy
  {
  }

  // Verify, preview and apply are refused beside anything; a verify clears the last
  // verification, a preview the last plan and the last apply's result, an apply the
  // last apply's result only.
  lemma VerifyClicked(s: Section, target: Target)
    ensures var t := VerifyStarted(s, target);
            if s.refs.scanning || s.refs.verifying || s.refs.previewing || s.refs.applying then t == s
            else
              && Launches(s, t, Verifying(t.refs.generation, target, s.scans))
              && t.scans == s.scans && t.sent == s.sent
              && t.refs == s.refs.(verifying := true, generation := t.refs.generation)
              && t.shown == s.shown.(verifyBusy := true, verify := None, verifyError := None,
                                     verifyTarget := Some(target))
  {
  }

  lemma PreviewClicked(s: Section, request: Request)
    ensures var t := PreviewStarted(s, request);
            if s.refs.scanning || s.refs.verifying || s.refs.previewing || s.refs.applying then t == s
            else
              && Launches(s, t, Previewing(t.refs.generation, request, s.scans))
              && t.scans == s.scans && t.sent == s.sent
              && t.refs == s.refs.(previewing := true, generation := t.refs.generation)
              && t.shown == s.shown.(previewBusy := true, preview := None, previewError := None,
                                     previewRequest := Some(request), applyResult := None, applyError := None)
  {
  }

  lemma ApplyClicked(s: Section)
    ensures var t, plan := ApplyStarted(s), s.closure.preview;
            if s.refs.scanning || s.refs.verifying || s.refs.previewing || s.refs.applying
               || plan.None? || plan.value.planId.None? || s.closure.previewRequest.None? then t == s
            else
              && Launches(s, t, Applying(t.refs.generation)) && t.scans == s.scans
              && t.sent == s.sent + [Sent(s.closure.previewRequest.value, plan.value.planId.value, plan.value)]
              && t.refs == s.refs.(applying := true, generation := t.refs.generation)
              && t.shown == s.shown.(applyBusy := true, applyResult := None, applyError := None)
  {
  }

  // A click that is not refused puts one more request in flight, and it supersedes every
  // other: what answers last is never what is shown, but what was asked last.
  lemma ClickSupersedes(events: seq<Event>, s: Section, e: Event)
    requires Run(UNMOUNTED, events, s) && Enabled(s, e)
    requires e.ClickRescan? || e.ClickVerify? || e.ClickPreview? || e.ClickApply?
    ensures var t := Apply(s, e);
            || t == s
            || (&& s.tickets !in s.flights && s.tickets in t.flights
                && t.flights == s.flights[s.tickets := t.flights[s.tickets]]
                && IsCurrent(t, s.tickets)
                && forall u :: u in s.flights ==> !IsCurrent(t, u))
  {
    UnmountedIsSound();
    EveryRunIsSound(UNMOUNTED, events, s);
    hide Run, NothingStuck, BelongsToLatest, PlansKeepTheirRequest;
  }

  // The mount starts one scan, or under StrictMode two of which the first is
  // superseded; nothing is shown but the loading.
  lemma MountStarts(strict: bool)
    ensures var t := Mounted(UNMOUNTED, strict);
            && t.refs.mounted && t.refs.scanning && t.shown == UNMOUNTED.shown && t.shown.loading
            && t.scans == |t.flights| == (if strict then 2 else 1)
            && t.tickets - 1 in t.flights
            && t.flights[t.tickets - 1] == Scanning(t.refs.generation, t.scans, false)
            && (strict ==> 0 in t.flights && t.flights[0].generation < t.refs.generation)
  {
  }
}
