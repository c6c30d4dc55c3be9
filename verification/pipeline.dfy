/** The SPA request pipeline: ordered action groups, each guarded by a
    predicate on the request, whose actions run in order until one of them
    leaves a response on the request; a throwing action aborts the run and
    is reported with its group and method. */
module Pipeline {
  import opened Wrappers
  import opened DataModels
  import opened Requests

  /** An action: a named method over the request. */
  datatype SpaAction = SpaAction(name: string, run: SpaRequest -> ActionResult)

  /** A guarded, ordered batch of actions. */
  datatype SpaActionGroup = SpaActionGroup(guard: SpaRequest -> bool, actions: seq<SpaAction>)

  /** One action that ran and returned: its group, its position in the
      group, the request it was given and the request it returned. */
  datatype Step = Step(group: nat, action: nat, before: SpaRequest, after: SpaRequest)

  datatype RunResult =
    | Completed(final: SpaRequest)
    | Aborted(partial: SpaRequest, group: nat, action: nat, error: Exception)

  /** The actions that ran, in order, and how the run ended. */
  datatype Run = Run(trace: seq<Step>, result: RunResult)

  predicate ValidStep(groups: seq<SpaActionGroup>, s: Step) {
    s.group < |groups| && s.action < |groups[s.group].actions|
  }

  /** Step `s` is its action run on `s.before`, returning `s.after`. */
  ghost predicate StepRan(groups: seq<SpaActionGroup>, s: Step) {
    ValidStep(groups, s) && groups[s.group].actions[s.action].run(s.before) == Returned(s.after)
  }

  /** The request as the last step of `trace` left it (`r` if none ran). */
  function Last(r: SpaRequest, trace: seq<Step>): SpaRequest {
    if |trace| == 0 then r else trace[|trace| - 1].after
  }

  /** Every step is its action run on the request its predecessor returned
      (the first on `r`). */
  ghost predicate Chained(groups: seq<SpaActionGroup>, r: SpaRequest, trace: seq<Step>) {
    && (|trace| > 0 ==> trace[0].before == r)
    && (forall k :: 0 <= k < |trace| - 1 ==> trace[k + 1].before == trace[k].after)
    && (forall k :: 0 <= k < |trace| ==> StepRan(groups, trace[k]))
  }

  /** `b` runs right after `a`: the next action of the same group, or the
      first action of a later group once `a`'s group has run to its end. */
  predicate Follows(groups: seq<SpaActionGroup>, a: Step, b: Step)
    requires ValidStep(groups, a)
  {
    || (b.group == a.group && b.action == a.action + 1)
    || (a.group < b.group && b.action == 0 && a.action == |groups[a.group].actions| - 1)
  }

  ghost predicate Ordered(groups: seq<SpaActionGroup>, trace: seq<Step>) {
    forall k :: 0 <= k < |trace| - 1 ==>
      ValidStep(groups, trace[k]) && Follows(groups, trace[k], trace[k + 1])
  }

  /** A group's first action only runs on a request its guard accepted. */
  ghost predicate GuardsHeld(groups: seq<SpaActionGroup>, trace: seq<Step>) {
    forall k :: 0 <= k < |trace| ==>
      trace[k].action == 0 && trace[k].group < |groups| ==> groups[trace[k].group].guard(trace[k].before)
  }

  /** Only the last step may leave a response on the request. */
  ghost predicate ShortCircuits(trace: seq<Step>) {
    forall k :: 0 <= k < |trace| - 1 ==> trace[k].after.response.None?
  }

  /** The failure of action `a` of group `g` on request `before`. */
  ghost predicate WrapsFailure(groups: seq<SpaActionGroup>, before: SpaRequest, res: RunResult)
    requires res.Aborted?
  {
    && res.group < |groups| && res.action < |groups[res.group].actions|
    && var action := groups[res.group].actions[res.action];
       && res.error.SpaActionException?
       && res.error.group == res.group
       && res.error.methodName == action.name
       && action.run(before) == Threw(res.partial, res.error.inner)
  }

  /** Runs the actions of group `gi` from position `ai` on. */
  function RunActions(groups: seq<SpaActionGroup>, gi: nat, ai: nat, r: SpaRequest): (run: Run)
    requires gi < |groups| && ai <= |groups[gi].actions|
    ensures |run.trace| <= |groups[gi].actions| - ai
    ensures forall k :: 0 <= k < |run.trace| ==> run.trace[k].group == gi && run.trace[k].action == ai + k
    ensures Chained(groups, r, run.trace)
    ensures ShortCircuits(run.trace)
    ensures run.result.Completed? ==>
      && run.result.final == Last(r, run.trace)
      && (|run.trace| == |groups[gi].actions| - ai || (|run.trace| > 0 && run.result.final.response.Some?))
    ensures run.result.Aborted? ==>
      && run.result.group == gi && run.result.action == ai + |run.trace|
      && (forall k :: 0 <= k < |run.trace| ==> run.trace[k].after.response.None?)
      && WrapsFailure(groups, Last(r, run.trace), run.result)
    decreases |groups[gi].actions| - ai
  {
    if ai == |groups[gi].actions| then Run([], Completed(r))
    else
      var action := groups[gi].actions[ai];
      match action.run(r)
      case Threw(partial, ex) =>
        Run([], Aborted(partial, gi, ai, SpaActionException(gi, action.name, ex)))
      case Returned(next) =>
        if next.response.Some? then Run([Step(gi, ai, r, next)], Completed(next))
        else
          var rest := RunActions(groups, gi, ai + 1, next);
          PrependStep(groups, Step(gi, ai, r, next), rest.trace);
          Run([Step(gi, ai, r, next)] + rest.trace, rest.result)
  }

  /** A step that ran and left no response, in front of a chained trace
      from the request it returned. */
  lemma PrependStep(groups: seq<SpaActionGroup>, st: Step, t: seq<Step>)
    requires StepRan(groups, st) && st.after.response.None?
    requires Chained(groups, st.after, t) && ShortCircuits(t)
    ensures Chained(groups, st.before, [st] + t)
    ensures ShortCircuits([st] + t)
    ensures Last(st.before, [st] + t) == Last(st.after, t)
    ensures ([st] + t)[0] == st
    ensures forall k :: 1 <= k <= |t| ==> ([st] + t)[k] == t[k - 1]
  {
  }

  /** Runs the groups from `gi` on: a group whose guard rejects the request
      is skipped; after a group that ran, a response ends the run. */
  function RunGroups(groups: seq<SpaActionGroup>, gi: nat, r: SpaRequest): (run: Run)
    requires gi <= |groups|
    ensures forall k :: 0 <= k < |run.trace| ==> gi <= run.trace[k].group
    ensures |run.trace| > 0 ==> run.trace[0].action == 0
    ensures run.result.Aborted? ==> gi <= run.result.group
    decreases |groups| - gi
  {
    if gi == |groups| then Run([], Completed(r))
    else if !groups[gi].guard(r) then RunGroups(groups, gi + 1, r)
    else
      var g := RunActions(groups, gi, 0, r);
      match g.result
      case Aborted(_, _, _, _) => g
      case Completed(next) =>
        if next.response.Some? then g
        else
          var rest := RunGroups(groups, gi + 1, next);
          Run(g.trace + rest.trace, rest.result)
  }

  /** What a run of the groups from `gi` on guarantees: each step is its
      action run on its predecessor's result; steps go through the groups in
      order and through each group's actions in order; only the last step
      can leave a response; a completed run ends with the last step's
      request; an aborted run carries the wrapped exception of the action
      that threw on the last step's request. */
  ghost predicate SoundRun(groups: seq<SpaActionGroup>, r: SpaRequest, run: Run) {
    && Chained(groups, r, run.trace)
    && Ordered(groups, run.trace)
    && ShortCircuits(run.trace)
    && (run.result.Completed? ==> run.result.final == Last(r, run.trace))
    && (run.result.Aborted? ==>
          && (forall k :: 0 <= k < |run.trace| ==> run.trace[k].after.response.None?)
          && WrapsFailure(groups, Last(r, run.trace), run.result))
  }

  lemma {:induction false} RunGroupsSound(groups: seq<SpaActionGroup>, gi: nat, r: SpaRequest)
    requires gi <= |groups|
    ensures SoundRun(groups, r, RunGroups(groups, gi, r))
    decreases |groups| - gi
  {
    if gi == |groups| {
    } else if !groups[gi].guard(r) {
      RunGroupsSound(groups, gi + 1, r);
    } else {
      var g := RunActions(groups, gi, 0, r);
      if g.result.Completed? && g.result.final.response.None? {
        RunGroupsSound(groups, gi + 1, g.result.final);
        RunGroupsSoundMore(groups, gi, r);
      } else {
        RunGroupsSoundStop(groups, gi, r);
      }
    }
  }

  /** A group that ran and ended the run: its own steps are the run. */
  lemma RunGroupsSoundStop(groups: seq<SpaActionGroup>, gi: nat, r: SpaRequest)
    requires gi < |groups| && groups[gi].guard(r)
    requires var g := RunActions(groups, gi, 0, r);
      !(g.result.Completed? && g.result.final.response.None?)
    ensures SoundRun(groups, r, RunGroups(groups, gi, r))
  {
    var g := RunActions(groups, gi, 0, r);
    GroupTraceOrdered(groups, gi, r);
    assert RunGroups(groups, gi, r) == g;
  }

  /** The steps of one group go through its actions in order. */
  lemma GroupTraceOrdered(groups: seq<SpaActionGroup>, gi: nat, r: SpaRequest)
    requires gi < |groups|
    ensures Ordered(groups, RunActions(groups, gi, 0, r).trace)
  {
    var t := RunActions(groups, gi, 0, r).trace;
    forall k | 0 <= k < |t| - 1
      ensures ValidStep(groups, t[k]) && Follows(groups, t[k], t[k + 1])
    {
      assert t[k].group == gi && t[k].action == k;
      assert t[k + 1].group == gi && t[k + 1].action == k + 1;
    }
  }

  /** A group that ran to its end without a response, followed by a sound
      run of the later groups. */
  lemma RunGroupsSoundMore(groups: seq<SpaActionGroup>, gi: nat, r: SpaRequest)
    requires gi < |groups| && groups[gi].guard(r)
    requires var g := RunActions(groups, gi, 0, r);
      g.result.Completed? && g.result.final.response.None?
    requires var next := RunActions(groups, gi, 0, r).result.final;
      SoundRun(groups, next, RunGroups(groups, gi + 1, next))
    ensures SoundRun(groups, r, RunGroups(groups, gi, r))
  {
    var g := RunActions(groups, gi, 0, r);
    var next := g.result.final;
    var rest := RunGroups(groups, gi + 1, next);
    assert RunGroups(groups, gi, r) == Run(g.trace + rest.trace, rest.result);
    GroupTraceOrdered(groups, gi, r);
    if |g.trace| > 0 && |rest.trace| > 0 {
      var a := g.trace[|g.trace| - 1];
      assert |g.trace| == |groups[gi].actions|;
      assert a.group == gi && a.action == |groups[gi].actions| - 1;
      assert gi < rest.trace[0].group && rest.trace[0].action == 0;
      assert ValidStep(groups, a) && Follows(groups, a, rest.trace[0]);
    }
    ConcatRuns(groups, r, g.trace, rest.trace);
  }

  /** Gluing the steps of a group that ran to its end without leaving a
      response to the steps of the later groups. */
  lemma ConcatRuns(groups: seq<SpaActionGroup>, r: SpaRequest, t1: seq<Step>, t2: seq<Step>)
    requires Chained(groups, r, t1) && Chained(groups, Last(r, t1), t2)
    requires Ordered(groups, t1) && Ordered(groups, t2)
    requires ShortCircuits(t1) && ShortCircuits(t2)
    requires |t1| > 0 ==> Last(r, t1).response.None?
    requires |t1| > 0 && |t2| > 0 ==> ValidStep(groups, t1[|t1| - 1]) && Follows(groups, t1[|t1| - 1], t2[0])
    ensures Chained(groups, r, t1 + t2)
    ensures Ordered(groups, t1 + t2)
    ensures ShortCircuits(t1 + t2)
    ensures Last(r, t1 + t2) == Last(Last(r, t1), t2)
  {
    var t := t1 + t2;
    forall k | 0 <= k < |t| - 1
      ensures t[k + 1].before == t[k].after
      ensures ValidStep(groups, t[k]) && Follows(groups, t[k], t[k + 1])
      ensures t[k].after.response.None?
    {
      if k + 1 < |t1| {
        assert t[k] == t1[k] && t[k + 1] == t1[k + 1];
      } else if k + 1 == |t1| {
        assert t[k] == t1[|t1| - 1] && t[k + 1] == t2[0];
      } else {
        assert t[k] == t2[k - |t1|] && t[k + 1] == t2[k + 1 - |t1|];
      }
    }
    forall k | 0 <= k < |t|
      ensures StepRan(groups, t[k])
    {
      if k < |t1| {
        assert t[k] == t1[k];
      } else {
        assert t[k] == t2[k - |t1|];
      }
    }
  }

  /** No action of a group runs unless the group's guard accepted the
      request the group was reached with (the request its first action is
      given). */
  lemma {:induction false} RunGroupsGuarded(groups: seq<SpaActionGroup>, gi: nat, r: SpaRequest)
    requires gi <= |groups|
    ensures GuardsHeld(groups, RunGroups(groups, gi, r).trace)
    decreases |groups| - gi
  {
    if gi == |groups| {
    } else if !groups[gi].guard(r) {
      RunGroupsGuarded(groups, gi + 1, r);
    } else {
      var g := RunActions(groups, gi, 0, r);
      if g.result.Completed? && g.result.final.response.None? {
        RunGroupsGuarded(groups, gi + 1, g.result.final);
        GuardedMore(groups, gi, r);
      } else {
        GroupGuarded(groups, gi, r);
        assert RunGroups(groups, gi, r) == g;
      }
    }
  }

  /** The steps of a group entered on a request its guard accepts. */
  lemma GroupGuarded(groups: seq<SpaActionGroup>, gi: nat, r: SpaRequest)
    requires gi < |groups| && groups[gi].guard(r)
    ensures GuardsHeld(groups, RunActions(groups, gi, 0, r).trace)
  {
    var g := RunActions(groups, gi, 0, r);
    assert forall k :: 0 <= k < |g.trace| ==> g.trace[k].action == k;
    assert |g.trace| > 0 ==> g.trace[0].before == r;
  }

  /** A group that ran to its end without a response, followed by guarded
      later groups. */
  lemma GuardedMore(groups: seq<SpaActionGroup>, gi: nat, r: SpaRequest)
    requires gi < |groups| && groups[gi].guard(r)
    requires var g := RunActions(groups, gi, 0, r);
      g.result.Completed? && g.result.final.response.None?
    requires var next := RunActions(groups, gi, 0, r).result.final;
      GuardsHeld(groups, RunGroups(groups, gi + 1, next).trace)
    ensures GuardsHeld(groups, RunGroups(groups, gi, r).trace)
  {
    var g := RunActions(groups, gi, 0, r);
    var rest := RunGroups(groups, gi + 1, g.result.final);
    GroupGuarded(groups, gi, r);
    var t := g.trace + rest.trace;
    assert RunGroups(groups, gi, r) == Run(t, rest.result);
    forall k | 0 <= k < |t| && t[k].action == 0 && t[k].group < |groups|
      ensures groups[t[k].group].guard(t[k].before)
    {
      if k < |g.trace| {
        assert t[k] == g.trace[k];
      } else {
        assert t[k] == rest.trace[k - |g.trace|];
      }
    }
  }

  /** The last group, entered: its run is the run of its actions. */
  lemma LastGroupRuns(groups: seq<SpaActionGroup>, r: SpaRequest)
    requires |groups| > 0 && groups[|groups| - 1].guard(r)
    ensures RunGroups(groups, |groups| - 1, r) == RunActions(groups, |groups| - 1, 0, r)
  {
    var gi := |groups| - 1;
    var g := RunActions(groups, gi, 0, r);
    if g.result.Completed? && g.result.final.response.None? {
      assert RunGroups(groups, gi + 1, g.result.final) == Run([], Completed(g.result.final));
      assert g.trace + [] == g.trace;
    }
  }

  /** A group whose guard rejects the request it is reached with runs none
      of its actions: the run is the run of the later groups. */
  lemma GuardFalseSkipsGroup(groups: seq<SpaActionGroup>, gi: nat, r: SpaRequest)
    requires gi < |groups| && !groups[gi].guard(r)
    ensures RunGroups(groups, gi, r) == RunGroups(groups, gi + 1, r)
    ensures forall k :: 0 <= k < |RunGroups(groups, gi, r).trace| ==> RunGroups(groups, gi, r).trace[k].group != gi
    ensures RunGroups(groups, gi, r).result.Aborted? ==> RunGroups(groups, gi, r).result.group != gi
  {
  }

  /** A group whose guard accepts the request it is reached with, and that
      has actions, runs its first action on that request: the first step is
      that action, or the run aborts on it. */
  lemma GuardTrueEntersGroup(groups: seq<SpaActionGroup>, gi: nat, r: SpaRequest)
    requires gi < |groups| && groups[gi].guard(r) && |groups[gi].actions| > 0
    ensures var run := RunGroups(groups, gi, r);
      || (|run.trace| > 0 && run.trace[0].group == gi && run.trace[0].action == 0 && run.trace[0].before == r)
      || (|run.trace| == 0 && run.result.Aborted? && run.result.group == gi && run.result.action == 0)
  {
    var g := RunActions(groups, gi, 0, r);
    if g.result.Completed? && g.result.final.response.None? {
      var rest := RunGroups(groups, gi + 1, g.result.final);
      assert RunGroups(groups, gi, r) == Run(g.trace + rest.trace, rest.result);
      assert (g.trace + rest.trace)[0] == g.trace[0];
    }
  }

  /** No group from `lo` up to (not including) `hi` runs an action on
      `req`: each rejects it or has no actions. */
  predicate Skipped(groups: seq<SpaActionGroup>, lo: nat, hi: nat, req: SpaRequest) {
    && hi <= |groups|
    && forall g :: lo <= g < hi ==> !groups[g].guard(req) || |groups[g].actions| == 0
  }

  /** The run enters every group it runs at the group's first action, and
      passes over a group only when that group rejects, or has no action
      for, the request it is reached with. */
  ghost predicate EntersInOrder(groups: seq<SpaActionGroup>, gi: nat, r: SpaRequest, t: seq<Step>) {
    && (|t| > 0 ==> t[0].action == 0 && gi <= t[0].group && Skipped(groups, gi, t[0].group, r))
    && (forall k :: 0 <= k < |t| - 1 && t[k].group < t[k + 1].group ==>
          Skipped(groups, t[k].group + 1, t[k + 1].group, t[k].after))
  }

  /** The run went through every group to the end: its last step, if any,
      is the last action of its group, and every later group rejects, or
      has no action for, the request that step returned. */
  ghost predicate EndsAfterAll(groups: seq<SpaActionGroup>, gi: nat, r: SpaRequest, t: seq<Step>) {
    if |t| == 0 then Skipped(groups, gi, |groups|, r)
    else
      var a := t[|t| - 1];
      && ValidStep(groups, a) && a.action == |groups[a.group].actions| - 1
      && Skipped(groups, a.group + 1, |groups|, a.after)
  }

  /** The action that threw is the one the run reached next: the action
      after the last step in its group, or the first action of a group
      whose guard accepted the request after the groups in between were
      passed over. */
  ghost predicate AbortsWhereReached(groups: seq<SpaActionGroup>, gi: nat, r: SpaRequest, t: seq<Step>, res: RunResult)
    requires res.Aborted?
  {
    && (res.action == 0 ==> res.group < |groups| && groups[res.group].guard(Last(r, t)))
    && if |t| == 0 then res.action == 0 && gi <= res.group && Skipped(groups, gi, res.group, r)
       else
         var a := t[|t| - 1];
         || (res.group == a.group && res.action == a.action + 1)
         || (&& ValidStep(groups, a) && a.action == |groups[a.group].actions| - 1
             && res.action == 0 && a.group < res.group && Skipped(groups, a.group + 1, res.group, a.after))
  }

  /** The progress half of a run: no group is passed over whose guard
      accepted the request it was reached with, a run that completes
      without a response has been through every group, and an abort is at
      the action the run reached next. */
  ghost predicate Walks(groups: seq<SpaActionGroup>, gi: nat, r: SpaRequest, run: Run) {
    && EntersInOrder(groups, gi, r, run.trace)
    && (run.result.Completed? && run.result.final.response.None? ==> EndsAfterAll(groups, gi, r, run.trace))
    && (run.result.Aborted? ==> AbortsWhereReached(groups, gi, r, run.trace, run.result))
  }

  lemma {:induction false} RunGroupsComplete(groups: seq<SpaActionGroup>, gi: nat, r: SpaRequest)
    requires gi <= |groups|
    ensures Walks(groups, gi, r, RunGroups(groups, gi, r))
    decreases |groups| - gi
  {
    if gi == |groups| {
    } else if !groups[gi].guard(r) {
      RunGroupsComplete(groups, gi + 1, r);
      WalksExtend(groups, gi, r, RunGroups(groups, gi + 1, r));
    } else {
      var g := RunActions(groups, gi, 0, r);
      if g.result.Completed? && g.result.final.response.None? {
        RunGroupsComplete(groups, gi + 1, g.result.final);
        WalksMore(groups, gi, r);
      } else {
        WalksStop(groups, gi, r);
      }
    }
  }

  /** A run of the groups after `gi` on a request group `gi` passes over is
      also a walk from `gi`. */
  lemma WalksExtend(groups: seq<SpaActionGroup>, gi: nat, r: SpaRequest, run: Run)
    requires gi < |groups| && (!groups[gi].guard(r) || |groups[gi].actions| == 0)
    requires Walks(groups, gi + 1, r, run)
    ensures Walks(groups, gi, r, run)
  {
    if |run.trace| > 0 {
      SkippedFrom(groups, gi, run.trace[0].group, r);
    } else if run.result.Completed? && run.result.final.response.None? {
      SkippedFrom(groups, gi, |groups|, r);
    } else if run.result.Aborted? {
      SkippedFrom(groups, gi, run.result.group, r);
    }
  }

  /** Passing over group `lo` and then the groups after it up to `hi`. */
  lemma SkippedFrom(groups: seq<SpaActionGroup>, lo: nat, hi: nat, req: SpaRequest)
    requires lo < |groups| && (!groups[lo].guard(req) || |groups[lo].actions| == 0)
    requires Skipped(groups, lo + 1, hi, req)
    ensures Skipped(groups, lo, hi, req)
  {
  }

  /** A group that ran and ended the run walks as far as it got. */
  lemma WalksStop(groups: seq<SpaActionGroup>, gi: nat, r: SpaRequest)
    requires gi < |groups| && groups[gi].guard(r)
    requires var g := RunActions(groups, gi, 0, r);
      !(g.result.Completed? && g.result.final.response.None?)
    ensures Walks(groups, gi, r, RunGroups(groups, gi, r))
  {
    var g := RunActions(groups, gi, 0, r);
    assert RunGroups(groups, gi, r) == g;
  }

  /** A group that ran to its end without a response, followed by a walk of
      the later groups. */
  lemma WalksMore(groups: seq<SpaActionGroup>, gi: nat, r: SpaRequest)
    requires gi < |groups| && groups[gi].guard(r)
    requires var g := RunActions(groups, gi, 0, r);
      g.result.Completed? && g.result.final.response.None?
    requires var next := RunActions(groups, gi, 0, r).result.final;
      Walks(groups, gi + 1, next, RunGroups(groups, gi + 1, next))
    ensures Walks(groups, gi, r, RunGroups(groups, gi, r))
  {
    var g := RunActions(groups, gi, 0, r);
    var next := g.result.final;
    var rest := RunGroups(groups, gi + 1, next);
    assert RunGroups(groups, gi, r) == Run(g.trace + rest.trace, rest.result);
    if |g.trace| == 0 {
      assert g.trace + rest.trace == rest.trace;
      WalksExtend(groups, gi, r, rest);
    } else {
      WalksMoreEnters(groups, gi, r);
      WalksMoreEnds(groups, gi, r);
    }
  }

  lemma WalksMoreEnters(groups: seq<SpaActionGroup>, gi: nat, r: SpaRequest)
    requires gi < |groups| && groups[gi].guard(r)
    requires var g := RunActions(groups, gi, 0, r);
      g.result.Completed? && g.result.final.response.None? && |g.trace| > 0
    requires var next := RunActions(groups, gi, 0, r).result.final;
      EntersInOrder(groups, gi + 1, next, RunGroups(groups, gi + 1, next).trace)
    ensures var g := RunActions(groups, gi, 0, r);
      EntersInOrder(groups, gi, r, g.trace + RunGroups(groups, gi + 1, g.result.final).trace)
  {
    var g := RunActions(groups, gi, 0, r);
    EntersConcat(groups, gi, r, g.trace, RunGroups(groups, gi + 1, g.result.final).trace);
  }

  /** The steps of group `gi`, entered at its first action, followed by
      steps that enter the later groups in order from the request the last
      of them returned. */
  lemma EntersConcat(groups: seq<SpaActionGroup>, gi: nat, r: SpaRequest, t1: seq<Step>, t2: seq<Step>)
    requires gi < |groups| && |t1| > 0 && t1[0].action == 0
    requires forall k :: 0 <= k < |t1| ==> t1[k].group == gi
    requires EntersInOrder(groups, gi + 1, t1[|t1| - 1].after, t2)
    ensures EntersInOrder(groups, gi, r, t1 + t2)
  {
    var t := t1 + t2;
    assert t[0] == t1[0];
    forall k | 0 <= k < |t| - 1 && t[k].group < t[k + 1].group
      ensures Skipped(groups, t[k].group + 1, t[k + 1].group, t[k].after)
    {
      if k + 1 < |t1| {
        assert false;
      } else if k + 1 == |t1| {
        assert t[k] == t1[|t1| - 1] && t[k + 1] == t2[0];
      } else {
        assert t[k] == t2[k - |t1|] && t[k + 1] == t2[k + 1 - |t1|];
      }
    }
  }

  lemma WalksMoreEnds(groups: seq<SpaActionGroup>, gi: nat, r: SpaRequest)
    requires gi < |groups| && groups[gi].guard(r)
    requires var g := RunActions(groups, gi, 0, r);
      g.result.Completed? && g.result.final.response.None? && |g.trace| > 0
    requires var next := RunActions(groups, gi, 0, r).result.final;
      Walks(groups, gi + 1, next, RunGroups(groups, gi + 1, next))
    ensures var g := RunActions(groups, gi, 0, r);
      var rest := RunGroups(groups, gi + 1, g.result.final);
      && (rest.result.Completed? && rest.result.final.response.None? ==>
            EndsAfterAll(groups, gi, r, g.trace + rest.trace))
      && (rest.result.Aborted? ==> AbortsWhereReached(groups, gi, r, g.trace + rest.trace, rest.result))
  {
    var g := RunActions(groups, gi, 0, r);
    var next := g.result.final;
    var rest := RunGroups(groups, gi + 1, next);
    var t := g.trace + rest.trace;
    if |rest.trace| == 0 {
      assert t == g.trace;
      assert |g.trace| == |groups[gi].actions|;
      assert t[|t| - 1].group == gi && t[|t| - 1].action == |groups[gi].actions| - 1;
    } else {
      assert t[|t| - 1] == rest.trace[|rest.trace| - 1];
    }
  }
}
