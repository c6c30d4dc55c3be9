/** The per-request state the SPA pipeline works on, the responses a
    request can end with, and the exceptions a stage can raise. */
module Requests {
  import opened Wrappers
  import opened DataModels

  /** Exceptions. `SpaActionException` is the wrapper the pipeline throws
      around a failing action: the index of its action group, the name of the
      action's method and the exception the action threw. */
  datatype Exception =
    | SpaActionException(group: nat, methodName: string, inner: Exception)
    | NullReferenceException
    | IndexOutOfRangeException
    | StageException(message: string)

  /** Responses. The factories that build them are not part of this model;
      a response is identified by the factory and the arguments it got. */
  datatype Response =
    | DataResponse(status: int, model: SpaDataModel)
    | RedirectResponse(url: string)
    | ErrorResponse(message: string)
    | HtmlErrorResponse(error: Exception)
    | StageResponse(tag: string)

  /** What the request's HTTP context exposes to the pipeline. */
  datatype HttpContextInfo = HttpContextInfo(
    scheme: Option<string>,
    host: Option<string>,
    rawUrl: Option<string>,
    isDebuggingEnabled: bool,
    acceptTypes: Option<seq<string>>)

  /** One SPA request, as the actions see and update it. */
  datatype SpaRequest = SpaRequest(
    url: Option<string>,
    isPreview: bool,
    parts: set<SpaApiPart>,
    site: Option<PublishedNode>,
    content: Option<PublishedNode>,
    siteModel: Option<SiteModel>,
    contentModel: Option<ContentModel>,
    dataModel: Option<SpaDataModel>,
    response: Option<Response>,
    responseStatusCode: int,
    http: HttpContextInfo)

  /** What running one action does: it returns the updated request, or it
      throws, leaving the request as far as it got. */
  datatype ActionResult =
    | Returned(request: SpaRequest)
    | Threw(partial: SpaRequest, error: Exception)
}
