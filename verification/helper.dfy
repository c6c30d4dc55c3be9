/** The SPA request helper: the default wiring of action groups, the
    response the pipeline returns, and the decision taken when the pipeline
    throws. */
module RequestHelper {
  import opened Wrappers
  import opened DataModels
  import opened Requests
  import opened Pipeline

  /** The message of the fallback error response. */
  const FallbackMessage: string := "Næh"

  /** The structured log entry written for a failed request: scheme, host
      and raw URL of the request, and the failing action's method name when
      the exception is an action exception. */
  datatype LogEntry = LogEntry(
    scheme: Option<string>, host: Option<string>, url: Option<string>, action: Option<string>)

  /** What the caller gets: a response or the exception, and the log entry
      written on the way (none when nothing failed). */
  datatype Reply = Reply(result: Result<Response, Exception>, log: Option<LogEntry>)

  /** Whether the request's accepted types include `text/html` (a null list
      accepts nothing). */
  predicate AcceptsHtml(http: HttpContextInfo) {
    http.acceptTypes.Some? && "text/html" in http.acceptTypes.value
  }

  /** The error handler: logs the failure, then answers with an HTML error
      page only when debugging is enabled and the client accepts HTML;
      otherwise it answers nothing and the exception propagates. */
  function HandleGetResponseException(r: SpaRequest, e: Exception): (out: (LogEntry, Option<Response>))
    ensures out.1.Some? <==> r.http.isDebuggingEnabled && AcceptsHtml(r.http)
    ensures out.1.Some? ==> out.1.value == HtmlErrorResponse(e)
    ensures out.0.action.Some? <==> e.SpaActionException?
    ensures e.SpaActionException? ==> out.0.action == Some(e.methodName)
    ensures out.0.url == r.http.rawUrl && out.0.scheme == r.http.scheme && out.0.host == r.http.host
  {
    var action := if e.SpaActionException? then Some(e.methodName) else None;
    var log := LogEntry(r.http.scheme, r.http.host, r.http.rawUrl, action);
    if r.http.isDebuggingEnabled && AcceptsHtml(r.http) then (log, Some(HtmlErrorResponse(e)))
    else (log, None)
  }

  /** The response once every group has run: the response the actions
      left, else a data response built from the status code and the data
      model, else the fallback error. */
  function FinalResponse(r: SpaRequest): Response {
    if r.response.None? && r.dataModel.Some? then DataResponse(r.responseStatusCode, r.dataModel.value)
    else r.response.GetOr(ErrorResponse(FallbackMessage))
  }

  /** Runs the groups on the request and answers it. */
  function GetResponse(groups: seq<SpaActionGroup>, r: SpaRequest): (reply: Reply)
    ensures var run := RunGroups(groups, 0, r);
      && (run.result.Completed? ==> reply == Reply(Success(FinalResponse(run.result.final)), None))
      && (run.result.Aborted? ==>
            var (log, handled) := HandleGetResponseException(run.result.partial, run.result.error);
            && reply.log == Some(log)
            && reply.result == (if handled.Some? then Success(handled.value) else Failure(run.result.error)))
  {
    var run := RunGroups(groups, 0, r);
    match run.result
    case Completed(final) => Reply(Success(FinalResponse(final)), None)
    case Aborted(partial, _, _, error) =>
      var (log, handled) := HandleGetResponseException(partial, error);
      match handled
      case Some(response) => Reply(Success(response), Some(log))
      case None => Reply(Failure(error), Some(log))
  }

  /** Once an action leaves a response on the request, no later action of
      any group runs, and that response is what the caller gets. */
  lemma ShortCircuitReturnsResponse(groups: seq<SpaActionGroup>, r: SpaRequest, k: nat)
    requires k < |RunGroups(groups, 0, r).trace|
    requires RunGroups(groups, 0, r).trace[k].after.response.Some?
    ensures var run := RunGroups(groups, 0, r);
      && k == |run.trace| - 1
      && run.result == Completed(run.trace[k].after)
      && GetResponse(groups, r).result == Success(run.trace[k].after.response.value)
  {
    RunGroupsSound(groups, 0, r);
  }

  /** A run that ends without a response but with a data model answers with
      a data response built from the request's status code and data model;
      with neither, it answers with the fallback error. */
  lemma CompletedRunAnswers(groups: seq<SpaActionGroup>, r: SpaRequest)
    requires RunGroups(groups, 0, r).result.Completed?
    ensures var f := RunGroups(groups, 0, r).result.final;
      && (f.response.None? && f.dataModel.Some? ==>
            GetResponse(groups, r) == Reply(Success(DataResponse(f.responseStatusCode, f.dataModel.value)), None))
      && (f.response.None? && f.dataModel.None? ==>
            GetResponse(groups, r) == Reply(Success(ErrorResponse(FallbackMessage)), None))
      && (f.response.Some? ==> GetResponse(groups, r) == Reply(Success(f.response.value), None))
  {
  }

  /** An action that throws aborts the run; the caller gets an HTML error
      page wrapping the action exception when debugging is on and HTML is
      accepted, and otherwise the action exception itself, which names the
      action's group and method and carries the thrown exception unaltered. */
  lemma FailingActionIsWrapped(groups: seq<SpaActionGroup>, r: SpaRequest)
    requires RunGroups(groups, 0, r).result.Aborted?
    ensures var run := RunGroups(groups, 0, r);
      var res := run.result;
      && res.group < |groups| && res.action < |groups[res.group].actions|
      && var action := groups[res.group].actions[res.action];
      && res.error.SpaActionException?
      && res.error == SpaActionException(res.group, action.name, res.error.inner)
      && action.run(Last(r, run.trace)) == Threw(res.partial, res.error.inner)
      && var http := res.partial.http;
      && (http.isDebuggingEnabled && AcceptsHtml(http) ==>
            GetResponse(groups, r).result == Success(HtmlErrorResponse(res.error)))
      && (!(http.isDebuggingEnabled && AcceptsHtml(http)) ==>
            GetResponse(groups, r).result == Failure(res.error))
  {
    RunGroupsSound(groups, 0, r);
  }

  // ---------------------------------------------------------------------
  // The default action groups
  // ---------------------------------------------------------------------

  /** The methods of the default pipeline, one per stage. */
  datatype Stage =
    | InitArguments | FindDomainAndCulture | UpdateArguments | ReadFromCache
    | InitSite | PostInitSite
    | PreContentLookup | ContentLookup | PostContentLookup
    | PreSetupCulture | SetupCulture | PostSetupCulture
    | InitSiteModel
    | HandleNotFound | HandleOutboundRedirects
    | PreInitModels | InitContentModel | InitDataModel | InitNavigationModel
    | InitCustomModels | PostInitModels
    | PrePushToCache | PushToCache
    | RaisinInTheSausageEnd

  /** The method name an action exception reports for a stage. */
  function MethodName(s: Stage): string {
    match s
    case InitArguments => "InitArguments"
    case FindDomainAndCulture => "FindDomainAndCulture"
    case UpdateArguments => "UpdateArguments"
    case ReadFromCache => "ReadFromCache"
    case InitSite => "InitSite"
    case PostInitSite => "PostInitSite"
    case PreContentLookup => "PreContentLookup"
    case ContentLookup => "ContentLookup"
    case PostContentLookup => "PostContentLookup"
    case PreSetupCulture => "PreSetupCulture"
    case SetupCulture => "SetupCulture"
    case PostSetupCulture => "PostSetupCulture"
    case InitSiteModel => "InitSiteModel"
    case HandleNotFound => "HandleNotFound"
    case HandleOutboundRedirects => "HandleOutboundRedirects"
    case PreInitModels => "PreInitModels"
    case InitContentModel => "InitContentModel"
    case InitDataModel => "InitDataModel"
    case InitNavigationModel => "InitNavigationModel"
    case InitCustomModels => "InitCustomModels"
    case PostInitModels => "PostInitModels"
    case PrePushToCache => "PrePushToCache"
    case PushToCache => "PushToCache"
    case RaisinInTheSausageEnd => "RaisinInTheSausageEnd"
  }

  /** The stage implementations. */
  type Stages = Stage -> (SpaRequest -> ActionResult)

  const SetupMethods: seq<Stage> :=
    [InitArguments, FindDomainAndCulture, UpdateArguments, ReadFromCache]

  const BuildMethods: seq<Stage> :=
    [InitSite, PostInitSite,
     PreContentLookup, ContentLookup, PostContentLookup,
     PreSetupCulture, SetupCulture, PostSetupCulture,
     InitSiteModel,
     HandleNotFound, HandleOutboundRedirects,
     PreInitModels, InitContentModel, InitDataModel, InitNavigationModel,
     InitCustomModels, PostInitModels,
     PrePushToCache, PushToCache]

  const FinishMethods: seq<Stage> := [RaisinInTheSausageEnd]

  /** The actions run exactly the stages of `methods`, in that order, each
      named after its method. */
  ghost predicate RunsMethods(actions: seq<SpaAction>, methods: seq<Stage>, stages: Stages) {
    && |actions| == |methods|
    && forall i :: 0 <= i < |methods| ==>
         actions[i].name == MethodName(methods[i]) && actions[i].run == stages(methods[i])
  }

  function Actions(methods: seq<Stage>, stages: Stages): (actions: seq<SpaAction>)
    ensures RunsMethods(actions, methods, stages)
  {
    if |methods| == 0 then []
    else [SpaAction(MethodName(methods[0]), stages(methods[0]))] + Actions(methods[1..], stages)
  }

  /** Three groups of stages: `setup`, always; `build`, only while there is
      no data model yet; `finish`, always. */
  function Wiring(setup: seq<Stage>, build: seq<Stage>, finish: seq<Stage>, stages: Stages): (groups: seq<SpaActionGroup>)
    ensures |groups| == 3
    ensures RunsMethods(groups[0].actions, setup, stages)
    ensures RunsMethods(groups[1].actions, build, stages)
    ensures RunsMethods(groups[2].actions, finish, stages)
  {
    [ SpaActionGroup(r => true, Actions(setup, stages)),
      SpaActionGroup((r: SpaRequest) => r.dataModel.None?, Actions(build, stages)),
      SpaActionGroup(r => true, Actions(finish, stages)) ]
  }

  /** The three default groups: setup and cache read, always; the build,
      only while there is no data model yet; the finishing action, always. */
  function DefaultGroups(stages: Stages): (groups: seq<SpaActionGroup>)
    ensures |groups| == 3
    ensures RunsMethods(groups[0].actions, SetupMethods, stages)
    ensures RunsMethods(groups[1].actions, BuildMethods, stages)
    ensures RunsMethods(groups[2].actions, FinishMethods, stages)
  {
    Wiring(SetupMethods, BuildMethods, FinishMethods, stages)
  }

  /** In three groups, when the first completes without a response on a
      request the second's guard rejects and the third's accepts, the run is
      the first group's steps followed directly by the third group's. */
  lemma {:induction false} SecondGroupSkipped(groups: seq<SpaActionGroup>, r: SpaRequest)
    requires |groups| == 3 && groups[0].guard(r)
    requires var first := RunActions(groups, 0, 0, r);
      && first.result.Completed? && first.result.final.response.None?
      && !groups[1].guard(first.result.final) && groups[2].guard(first.result.final)
    ensures var first := RunActions(groups, 0, 0, r);
      var third := RunActions(groups, 2, 0, first.result.final);
      RunGroups(groups, 0, r) == Run(first.trace + third.trace, third.result)
  {
    var first := RunActions(groups, 0, 0, r);
    var f := first.result.final;
    LastGroupRuns(groups, f);
    assert RunGroups(groups, 1, f) == RunGroups(groups, 2, f);
  }

  /** Setup and finishing groups always run; the build group only while
      the request has no data model. */
  lemma WiringGuards(setup: seq<Stage>, build: seq<Stage>, finish: seq<Stage>, stages: Stages, q: SpaRequest)
    ensures var groups := Wiring(setup, build, finish, stages);
      groups[0].guard(q) && groups[2].guard(q) && (groups[1].guard(q) <==> q.dataModel.None?)
  {
  }

  /** In the three-group wiring with at least one finishing stage (the
      default groups are one), a setup group that completes with a data model (a cache hit) and no response skips
      every build action: the run is the setup steps followed directly by
      the finishing group, which still runs. */
  lemma CacheHitSkipsBuild(setup: seq<Stage>, build: seq<Stage>, finish: seq<Stage>, stages: Stages, r: SpaRequest)
    requires |finish| > 0
    requires var first := RunActions(Wiring(setup, build, finish, stages), 0, 0, r);
      first.result.Completed? && first.result.final.response.None? && first.result.final.dataModel.Some?
    ensures var groups := Wiring(setup, build, finish, stages);
      var first := RunActions(groups, 0, 0, r);
      var last := RunActions(groups, 2, 0, first.result.final);
      var run := RunGroups(groups, 0, r);
      && run == Run(first.trace + last.trace, last.result)
      && (forall k :: 0 <= k < |run.trace| ==> run.trace[k].group != 1)
      && (run.result.Aborted? ==> run.result.group != 1)
      && (|last.trace| > 0 || (last.result.Aborted? && last.result.group == 2))
  {
    var groups := Wiring(setup, build, finish, stages);
    var first := RunActions(groups, 0, 0, r);
    WiringGuards(setup, build, finish, stages, r);
    WiringGuards(setup, build, finish, stages, first.result.final);
    SecondGroupSkipped(groups, r);
    var last := RunActions(groups, 2, 0, first.result.final);
    assert |groups[2].actions| > 0;
    ConcatAvoidsGroup(first.trace, last.trace, 1);
  }

  /** Two traces without a step of group `g` glue to one without. */
  lemma ConcatAvoidsGroup(t1: seq<Step>, t2: seq<Step>, g: nat)
    requires forall k :: 0 <= k < |t1| ==> t1[k].group != g
    requires forall k :: 0 <= k < |t2| ==> t2[k].group != g
    ensures forall k :: 0 <= k < |t1 + t2| ==> (t1 + t2)[k].group != g
  {
  }

  /** In the three-group wiring with at least one build stage (the default
      groups have nineteen), a setup group that completes without a data
      model and without a response (a cache miss) goes on to the build
      group's first action. */
  lemma CacheMissRunsBuild(setup: seq<Stage>, build: seq<Stage>, finish: seq<Stage>, stages: Stages, r: SpaRequest)
    requires |build| > 0
    requires var first := RunActions(Wiring(setup, build, finish, stages), 0, 0, r);
      first.result.Completed? && first.result.final.response.None? && first.result.final.dataModel.None?
    ensures var groups := Wiring(setup, build, finish, stages);
      var first := RunActions(groups, 0, 0, r);
      var run := RunGroups(groups, 0, r);
      || (|run.trace| > |first.trace| && run.trace[|first.trace|].group == 1
          && run.trace[|first.trace|].action == 0)
      || (|run.trace| == |first.trace| && run.result.Aborted? && run.result.group == 1 && run.result.action == 0)
  {
    var groups := Wiring(setup, build, finish, stages);
    var first := RunActions(groups, 0, 0, r);
    var f := first.result.final;
    WiringGuards(setup, build, finish, stages, r);
    WiringGuards(setup, build, finish, stages, f);
    GuardTrueEntersGroup(groups, 1, f);
    var rest := RunGroups(groups, 1, f);
    assert RunGroups(groups, 0, r) == Run(first.trace + rest.trace, rest.result);
    if |rest.trace| > 0 {
      assert (first.trace + rest.trace)[|first.trace|] == rest.trace[0];
    }
  }

  /** In three groups, when each of the first two is entered and completes
      without a response, the run is the three groups' steps in order. */
  lemma {:induction false} AllThreeGroupsRun(groups: seq<SpaActionGroup>, r: SpaRequest)
    requires |groups| == 3 && groups[0].guard(r)
    requires var first := RunActions(groups, 0, 0, r);
      && first.result.Completed? && first.result.final.response.None?
      && groups[1].guard(first.result.final)
    requires var second := RunActions(groups, 1, 0, RunActions(groups, 0, 0, r).result.final);
      && second.result.Completed? && second.result.final.response.None?
      && groups[2].guard(second.result.final)
    ensures var first := RunActions(groups, 0, 0, r);
      var second := RunActions(groups, 1, 0, first.result.final);
      var third := RunActions(groups, 2, 0, second.result.final);
      RunGroups(groups, 0, r) == Run(first.trace + second.trace + third.trace, third.result)
  {
    var first := RunActions(groups, 0, 0, r);
    var second := RunActions(groups, 1, 0, first.result.final);
    var third := RunActions(groups, 2, 0, second.result.final);
    LastGroupRuns(groups, second.result.final);
    assert RunGroups(groups, 1, first.result.final) == Run(second.trace + third.trace, third.result);
    assert first.trace + (second.trace + third.trace) == first.trace + second.trace + third.trace;
  }

  /** In the three-group wiring with at least one finishing stage, a cache
      miss whose build group completes without a response has run every
      build stage, and the finishing group still runs after it. */
  lemma CacheMissBuildThenFinish(setup: seq<Stage>, build: seq<Stage>, finish: seq<Stage>, stages: Stages, r: SpaRequest)
    requires |finish| > 0
    requires var first := RunActions(Wiring(setup, build, finish, stages), 0, 0, r);
      first.result.Completed? && first.result.final.response.None? && first.result.final.dataModel.None?
    requires var groups := Wiring(setup, build, finish, stages);
      var second := RunActions(groups, 1, 0, RunActions(groups, 0, 0, r).result.final);
      second.result.Completed? && second.result.final.response.None?
    ensures var groups := Wiring(setup, build, finish, stages);
      var first := RunActions(groups, 0, 0, r);
      var second := RunActions(groups, 1, 0, first.result.final);
      var last := RunActions(groups, 2, 0, second.result.final);
      && RunGroups(groups, 0, r) == Run(first.trace + second.trace + last.trace, last.result)
      && |second.trace| == |build|
      && (forall k :: 0 <= k < |second.trace| ==> second.trace[k].group == 1 && second.trace[k].action == k)
      && (|last.trace| > 0 || (last.result.Aborted? && last.result.group == 2 && last.result.action == 0))
  {
    var groups := Wiring(setup, build, finish, stages);
    var first := RunActions(groups, 0, 0, r);
    var second := RunActions(groups, 1, 0, first.result.final);
    WiringGuards(setup, build, finish, stages, r);
    WiringGuards(setup, build, finish, stages, first.result.final);
    WiringGuards(setup, build, finish, stages, second.result.final);
    AllThreeGroupsRun(groups, r);
    assert |groups[2].actions| > 0;
  }
}
