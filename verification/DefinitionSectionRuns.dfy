// Runs of the definition section in which requests do go out and are answered.
module DefinitionSectionRuns {
  import opened Basics
  import opened DefinitionSection

  // A click on apply sends exactly when nothing is in flight and the last render
  // shows a plan: that plan, with the request it came from. Otherwise it does
  // nothing.
  lemma ApplySendsIff(events: seq<Event>, s: Section)
    requires Run(UNMOUNTED, events, s) && s.refs.mounted && s.scans > 0
    ensures var t, plan := ApplyStarted(s), s.closure.preview;
            if !Busy(s.refs) && plan.Some? && plan.value.planId.Some?
            then
              && t.sent == s.sent + [Sent(plan.value.request, plan.value.planId.value, plan.value)]
              && t.flights == s.flights[s.tickets := Applying(t.refs.generation)] && s.tickets !in s.flights
              && t.refs.applying && t.shown.applyBusy
            else t == s
  {
    UnmountedIsSound();
    EveryRunIsSound(UNMOUNTED, events, s);
    hide Run;
  }

  lemma Then(s: Section, e: Event, rest: seq<Event>, t: Section)
    requires Enabled(s, e) && Run(Apply(s, e), rest, t)
    ensures Run(s, [e] + rest, t)
  {
    assert ([e] + rest)[1..] == rest;
  }

  lemma {:induction false} RunAppend(s: Section, a: seq<Event>, m: Section, b: seq<Event>, t: Section)
    requires Run(s, a, m) && Run(m, b, t)
    ensures Run(s, a + b, t)
    decreases |a|
  {
    if a == [] {
      assert a + b == b;
    } else {
      assert (a + b)[1..] == a[1..] + b;
      RunAppend(Apply(s, a[0]), a[1..], m, b, t);
    }
  }

  predicate Idle(s: Section) {
    s.refs.mounted && s.scans > 0 && !Busy(s.refs)
  }

  // From an idle section, a preview and its plan, ready in the last render.
  lemma PreviewRuns(s: Section, request: Request, id: nat) returns (events: seq<Event>, t: Section)
    requires Idle(s)
    ensures Run(s, events, t) && Idle(t) && t.sent == s.sent && t.scans == s.scans
    ensures t.closure == Closure(Some(Plan(Some(id), request, s.scans)), Some(request))
  {
    var asked := Apply(s, ClickPreview(request));
    var planned := Apply(asked, Settle(s.tickets, Planned(Some(id))));
    t := Apply(planned, Render);
    assert Run(t, [], t);
    Then(planned, Render, [], t);
    Then(asked, Settle(s.tickets, Planned(Some(id))), [Render] + [], t);
    Then(s, ClickPreview(request), [Settle(s.tickets, Planned(Some(id)))] + ([Render] + []), t);
    events := [ClickPreview(request)] + ([Settle(s.tickets, Planned(Some(id)))] + ([Render] + []));
  }

  // From there, the apply and its answer.
  lemma ApplyRuns(s: Section, request: Request, plan: Plan, outcome: ApplyOutcome)
      returns (events: seq<Event>, t: Section)
    requires Idle(s) && s.closure == Closure(Some(plan), Some(request)) && plan.planId.Some?
    ensures Run(s, events, t) && t.sent == s.sent + [Sent(request, plan.planId.value, plan)]
    ensures t.shown.applyResult == Some(outcome) && !t.shown.applyBusy
  {
    var sent := Apply(s, ClickApply);
    t := Apply(sent, Settle(s.tickets, ApplyAnswer(outcome)));
    assert Run(t, [], t);
    Then(sent, Settle(s.tickets, ApplyAnswer(outcome)), [], t);
    Then(s, ClickApply, [Settle(s.tickets, ApplyAnswer(outcome))] + [], t);
    events := [ClickApply] + ([Settle(s.tickets, ApplyAnswer(outcome))] + []);
  }

  // In any idle section a preview and an apply go through: the apply sends that plan
  // with that request, and its outcome is shown.
  lemma IdleApplies(s: Section, request: Request, id: nat, outcome: ApplyOutcome)
      returns (events: seq<Event>, t: Section)
    requires Idle(s)
    ensures Run(s, events, t) && t.sent == s.sent + [Sent(request, id, Plan(Some(id), request, s.scans))]
    ensures t.shown.applyResult == Some(outcome) && !t.shown.applyBusy
  {
    hide Run, Idle;
    var a, m := PreviewRuns(s, request, id);
    var b;
    b, t := ApplyRuns(m, request, Plan(Some(id), request, s.scans), outcome);
    RunAppend(s, a, m, b, t);
    events := a + b;
  }

  // So from the first render on, with or without StrictMode.
  lemma FirstApply(strict: bool, request: Request, id: nat, outcome: ApplyOutcome)
      returns (events: seq<Event>, t: Section)
    ensures Run(UNMOUNTED, events, t)
    ensures t.sent == [Sent(request, id, Plan(Some(id), request, if strict then 2 else 1))]
    ensures t.shown.applyResult == Some(outcome) && !t.shown.applyBusy
  {
    var mounted := Apply(UNMOUNTED, Mount(strict));
    var scan := Settle(if strict then 1 else 0, Answer.Ok);
    var idle := Apply(mounted, scan);
    var rest;
    rest, t := IdleApplies(idle, request, id, outcome);
    Then(mounted, scan, rest, t);
    Then(UNMOUNTED, Mount(strict), [scan] + rest, t);
    events := [Mount(strict)] + ([scan] + rest);
  }
}
