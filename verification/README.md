# Skybrud.Umbraco.Spa core, modelled in Dafny

This project models the request pipeline and the JSON-facing models of the
Skybrud SPA package for Umbraco. Everything is written as pure functions
over immutable records. It covers six parts.

- **The request pipeline** (`pipeline.dfy`, `helper.dfy`).
  - `SpaRequestHelper.GetResponse` walks an ordered list of guarded action
    groups. It skips a group whose guard rejects the request.
  - It runs a group's actions in order and stops as soon as an action
    leaves a response on the request.
  - It wraps an exception thrown by an action with the action's group and
    method name.
  - When the run ends, it answers with the response, a data response built
    from the data model, or the fallback error `"Næh"`.
  - When the run fails, the error handler returns an HTML error page only
    when debugging is on and the client accepts `text/html`. Otherwise the
    exception propagates.
  - The default wiring has three groups. The second is guarded by "no data
    model yet", which is how a cache hit skips the build.
  - Actions are total functions from a request record to either a new
    record or an exception.
  - A run returns its trace: each step records the group, the action, and
    the request before and after the step. Ordering, chaining,
    short-circuit and guard properties are stated over that trace.
- **URL helpers** (`urls.dfy`).
  - `AddTrailingSlash` and `RemoveTrailingSlash` look only at the part of
    the URL before the first `?`.
  - `TryGetPreviewId` parses a preview URL. It models the `/umbraco/dialogs`
    shortcut, `Int32.TryParse`, and the `^/([0-9]+)\.aspx$` match.
- **Meta-tag builders.**
  - The Twitter summary card's `ToMeta` (`twitter.dfy`).
  - The Open Graph properties: base URL, image list and `WriteJson`
    emission order (`opengraph.dfy`).
  - `SpaMetaData` (`metadata.dfy`): link and script lists, the canonical
    link that `Canonical` aliases, the sanitizer list, and the memoised
    Open Graph and Twitter card values.
- **The response data model** (`datamodel.dfy`). This covers both
  `SpaDataModel` constructors, and the JSON member order and omission that
  the model's attributes impose.
- **The serialization filter** (`resolver.dfy`). This covers
  `ShouldSerialize` and the order overrides of the contract resolver.
- **Shared pieces.** `wrappers.dfy` holds `Option`/`Result`, and
  `strings.dfy` holds the .NET string operations the code relies on
  (`Split`, `Join`, `TrimEnd`, `StartsWith`, `IsNullOrWhiteSpace`, decimal
  digits).

How the model represents the source:
- A C# `null` is `None`.
- An exception the source throws is a `Failure` or a `Threw` result.
- Objects that the source mutates in place are records returned anew.

## Model

| member | source | states |
|---|---|---|
| Pipeline.RunActions | src/Skybrud.Umbraco.Spa/SpaRequestHelper.cs:188-201 | The actions of one group run in order, each on its predecessor's result. The run stops right after the first action that leaves a response. A throwing action aborts the run with an exception that names the group and method and carries the thrown exception unaltered. |
| Pipeline.RunGroups | src/Skybrud.Umbraco.Spa/SpaRequestHelper.cs:183-206 | A run from group `gi` only touches groups from `gi` on, and starts at a group's first action. |
| Pipeline.RunGroupsSound | src/Skybrud.Umbraco.Spa/SpaRequestHelper.cs:183-206 | Over the whole run, each step starts from the previous step's request. Steps go through the groups and their actions in order, never skipping an action inside a group that ran. Only the last step can leave a response. A completed run ends with the last step's request. An aborted run had no response before it failed and carries the wrapped exception. This is the safety half; RunGroupsComplete is the progress half. |
| Pipeline.RunGroupsComplete | src/Skybrud.Umbraco.Spa/SpaRequestHelper.cs:183-206 | The progress half. The run passes over a group only when the group's guard rejects the request it is reached with, or the group has no actions. A run entering a group starts at its first action. A run that completes without a response ends on the last action of a group and passes over every later group. An abort happens at the action the run reached next, and when that is a group's first action, the group's guard accepted the request. |
| Pipeline.ConcatRuns | src/Skybrud.Umbraco.Spa/SpaRequestHelper.cs:183-206 | The steps of a group that ran to its end without a response, followed by the steps of the later groups, still form a chained, ordered, short-circuiting trace. |
| Pipeline.RunGroupsGuarded | src/Skybrud.Umbraco.Spa/SpaRequestHelper.cs:186 | A group's first action only runs when the group's guard accepted the request the group was reached with. |
| Pipeline.GuardFalseSkipsGroup | src/Skybrud.Umbraco.Spa/SpaRequestHelper.cs:186 | A group whose guard is false runs none of its actions. The run is exactly the run of the later groups. |
| Pipeline.GuardTrueEntersGroup | src/Skybrud.Umbraco.Spa/SpaRequestHelper.cs:186-196 | A group whose guard is true, and that has actions, runs its first action on the request it was reached with. |
| RequestHelper.GetResponse | src/Skybrud.Umbraco.Spa/SpaRequestHelper.cs:178-228 | A completed run answers with the final response, without logging. An aborted run logs and answers with the handler's response if there is one, otherwise with the exception. |
| RequestHelper.ShortCircuitReturnsResponse | src/Skybrud.Umbraco.Spa/SpaRequestHelper.cs:199-204 | The step that first leaves a response is the last step of the run, and that response is exactly what the caller gets. |
| RequestHelper.CompletedRunAnswers | src/Skybrud.Umbraco.Spa/SpaRequestHelper.cs:209-214 | With no response but a data model, the answer is a data response built from the status code and the model. With neither, the answer is the fallback error `"Næh"`. |
| RequestHelper.FailingActionIsWrapped | src/Skybrud.Umbraco.Spa/SpaRequestHelper.cs:192-196 | An aborted run names the failing group and method and carries the exception the action threw. The caller gets the HTML error page if debugging is on and HTML is accepted, otherwise that exception. |
| RequestHelper.HandleGetResponseException | src/Skybrud.Umbraco.Spa/SpaRequestHelper.cs:244-273 | The handler answers if and only if debugging is enabled and the accepted types contain `text/html` (a null list counts as no). Its answer is the HTML error for the exception. The log names the action only for action exceptions. |
| RequestHelper.Actions | src/Skybrud.Umbraco.Spa/SpaRequestHelper.cs:121-167 | Each listed stage becomes one action, in order, named after its method and running that stage. |
| RequestHelper.Wiring | src/Skybrud.Umbraco.Spa/SpaRequestHelper.cs:114-171 | The wiring builds three groups. Each runs its list of stages in the order given, and each action is named after its method. |
| RequestHelper.DefaultGroups | src/Skybrud.Umbraco.Spa/SpaRequestHelper.cs:114-171 | The default wiring has exactly three groups. They run the four setup stages (ending with `ReadFromCache`), the nineteen build stages, and `RaisinInTheSausageEnd`, each in source order. |
| RequestHelper.WiringGuards | src/Skybrud.Umbraco.Spa/SpaRequestHelper.cs:121-167 | In the three-group wiring, the first and third groups always run. The second runs if and only if there is no data model yet. |
| RequestHelper.SecondGroupSkipped | src/Skybrud.Umbraco.Spa/SpaRequestHelper.cs:183-206 | When the first of three groups completes without a response and the second's guard rejects the request while the third's accepts it, the run is the first group's steps followed directly by the third group's. |
| RequestHelper.CacheHitSkipsBuild | src/Skybrud.Umbraco.Spa/SpaRequestHelper.cs:121-167 | In the three-group wiring with at least one finishing stage (the default groups are one), when the setup group (by default ending with `ReadFromCache`) leaves a data model and no response, no build action runs. The finishing group still runs. |
| RequestHelper.CacheMissRunsBuild | src/Skybrud.Umbraco.Spa/SpaRequestHelper.cs:133-164 | In the three-group wiring with at least one build stage (the default has nineteen), when the setup group leaves neither a data model nor a response, the next step is the build group's first action. |
| RequestHelper.AllThreeGroupsRun | src/Skybrud.Umbraco.Spa/SpaRequestHelper.cs:183-206 | When the first two of three groups are entered and complete without a response, and the third's guard accepts, the run is the three groups' steps in order. |
| RequestHelper.CacheMissBuildThenFinish | src/Skybrud.Umbraco.Spa/SpaRequestHelper.cs:133-167 | In the three-group wiring with a finishing stage, when a cache miss's build group completes without a response, every build stage ran in order and the finishing group runs next. |
| RequestUrls.PathPart | src/Skybrud.Umbraco.Spa/SpaRequestHelper.cs:312 | `url.Split('?')[0]` is the URL up to its first `?` and contains no `?`. |
| RequestUrls.WithTrailingSlash | src/Skybrud.Umbraco.Spa/SpaRequestHelper.cs:312-321 | There is no target if and only if the path part already ends with `/`. Otherwise the target is the URL with `/` inserted right before the first `?` (or appended), so the query is kept verbatim. |
| RequestUrls.WithoutTrailingSlash | src/Skybrud.Umbraco.Spa/SpaRequestHelper.cs:336-345 | There is no target if and only if the path part does not end with `/`. Otherwise the target is the URL with exactly the one `/` before the first `?` removed. |
| RequestUrls.RemoveUndoesAdd | src/Skybrud.Umbraco.Spa/SpaRequestHelper.cs:306-346 | Removing the slash that adding inserted gives back the original URL. |
| RequestUrls.AddUndoesRemove | src/Skybrud.Umbraco.Spa/SpaRequestHelper.cs:306-346 | Adding back the slash that removing dropped gives back the original URL, unless the path ends in `//`. |
| RequestUrls.AddIsIdempotent | src/Skybrud.Umbraco.Spa/SpaRequestHelper.cs:306-322 | Once the slash is added, adding again gives no target. |
| RequestUrls.AddTrailingSlash | src/Skybrud.Umbraco.Spa/SpaRequestHelper.cs:306-322 | Nothing happens for a null URL, in preview mode, or when the path ends with `/`. Otherwise the request gets a redirect to the URL with the slash inserted before the query. The action never throws. |
| RequestUrls.RemoveTrailingSlash | src/Skybrud.Umbraco.Spa/SpaRequestHelper.cs:330-346 | Nothing happens in preview mode or when the path does not end with `/`. A null URL throws a null reference. Otherwise the request gets a redirect with the one trailing slash of the path removed. |
| RequestUrls.IntRoundTrip | src/Skybrud.Umbraco.Spa/SpaRequestHelper.cs:290 | `Int32.TryParse` reads back every integer written in decimal. |
| RequestUrls.MatchPreviewPath | src/Skybrud.Umbraco.Spa/SpaRequestHelper.cs:293 | A match means the path is `/`, one or more ASCII digits, and `.aspx`, optionally followed by one final line feed (`PreviewShape`). |
| RequestUrls.MatchPreviewPathComplete | src/Skybrud.Umbraco.Spa/SpaRequestHelper.cs:293 | Every path of that shape matches, with its own digits. |
| RequestUrls.MatchPreviewPathExact | src/Skybrud.Umbraco.Spa/SpaRequestHelper.cs:293 | The pattern matches a path with given digits if and only if the path has that shape with those digits. |
| RequestUrls.PreviewIdFromPath | src/Skybrud.Umbraco.Spa/SpaRequestHelper.cs:293-294 | The path part with its trailing slashes trimmed decides the id. When it is `/<digits>.aspx`, the id is the value of those digits. When it has no such shape, the id is 0. A positive id always comes from such digits. |
| RequestUrls.TryGetPreviewId | src/Skybrud.Umbraco.Spa/SpaRequestHelper.cs:281-298 | A null URL gives (false, 0). Without the dialogs marker, the flag is "id > 0" for the id read from the path. With the marker, a URL without `=` throws an index-out-of-range exception. With the marker and a second `=` piece that parses as an int, the result is (true, that int); otherwise the path decides. A false flag always comes with 0. |
| RequestUrls.PreviewIdRoundTrip | src/Skybrud.Umbraco.Spa/SpaRequestHelper.cs:281-298 | The preview URL of a positive id, with any number of trailing slashes and any query without the dialogs marker, reads back as (true, id). |
| TwitterCards.AtHandle | src/Skybrud.Umbraco.Spa/Models/Meta/Twitter/TwitterSummaryCard.cs:54-55 | A handle always starts with `@`. A name that already does is kept as is; any other gets `@` in front. |
| TwitterCards.AtHandleIdempotent | src/Skybrud.Umbraco.Spa/Models/Meta/Twitter/TwitterSummaryCard.cs:54-55 | Making a handle of a handle changes nothing. |
| TwitterCards.Content | src/Skybrud.Umbraco.Spa/Models/Meta/Twitter/TwitterSummaryCard.cs:54-60 | A rendered entry never has empty content. |
| TwitterCards.ToMeta | src/Skybrud.Umbraco.Spa/Models/Meta/Twitter/TwitterSummaryCard.cs:48-64 | There are one to seven entries, and the first is always `("twitter:card", "summary")`. |
| TwitterCards.EmitLookup | src/Skybrud.Umbraco.Spa/Models/Meta/Twitter/TwitterSummaryCard.cs:54-60 | Looking up a property's name in the entries finds that property's content, or nothing when it is unset or empty. |
| TwitterCards.ToMetaRoundTrip | src/Skybrud.Umbraco.Spa/Models/Meta/Twitter/TwitterSummaryCard.cs:48-64 | Reading a card back from its entries gives the card with empty values as null, site and creator as `@` handles, and title, description, image and image text verbatim. |
| TwitterCards.NormalizeIdempotent | src/Skybrud.Umbraco.Spa/Models/Meta/Twitter/TwitterSummaryCard.cs:54-60 | Normalizing is idempotent, and a normalized card renders exactly the same entries as the original. |
| TwitterCards.ToMetaOrdered | src/Skybrud.Umbraco.Spa/Models/Meta/Twitter/TwitterSummaryCard.cs:50-60 | Entry names follow the order card, site, creator, title, description, image, image:alt. |
| OpenGraph.FromBaseUrl | src/Skybrud.Umbraco.Spa/Models/Meta/OpenGraph/SpaOpenGraphProperties.cs:48-51 | A new instance keeps the given base URL and has no images. |
| OpenGraph.FromNode | src/Skybrud.Umbraco.Spa/Models/Meta/OpenGraph/SpaOpenGraphProperties.cs:53-56 | A node-based instance has the site root as base URL and no images. |
| OpenGraph.SiteRootIsPrefix | src/Skybrud.Umbraco.Spa/Models/Meta/OpenGraph/SpaOpenGraphProperties.cs:54 | Joining the first three `/`-pieces of the node URL gives the longest prefix of that URL with at most two slashes. It stops right before the third `/`, or is the whole URL. |
| OpenGraph.Resolve | src/Skybrud.Umbraco.Spa/Models/Meta/OpenGraph/SpaOpenGraphProperties.cs:64 | A URL starting with `/` is stored as the base URL followed by it (a null base URL reading as empty). Any other URL is stored unchanged. |
| OpenGraph.ResolveIdempotent | src/Skybrud.Umbraco.Spa/Models/Meta/OpenGraph/SpaOpenGraphProperties.cs:64 | Resolving twice is resolving once, when the base URL is not itself site-relative. |
| OpenGraph.AppendImage | src/Skybrud.Umbraco.Spa/Models/Meta/OpenGraph/SpaOpenGraphProperties.cs:62-66 | A null or white-space URL changes nothing. Otherwise exactly one image without dimensions is added at the end, and nothing else changes. |
| OpenGraph.AppendSizedImage | src/Skybrud.Umbraco.Spa/Models/Meta/OpenGraph/SpaOpenGraphProperties.cs:68-72 | Same as `AppendImage`, and the added image has the given width and height. |
| OpenGraph.AllPresent | src/Skybrud.Umbraco.Spa/Models/Meta/OpenGraph/SpaOpenGraphProperties.cs:80-83 | A batch yields its URLs if and only if none of them is null. |
| OpenGraph.AppendImages | src/Skybrud.Umbraco.Spa/Models/Meta/OpenGraph/SpaOpenGraphProperties.cs:74-87 | A null or empty array changes nothing. The call fails with a null reference if and only if some URL is null, and then adds nothing. Otherwise one image per URL is appended in input order, blank URLs included, and the old images are unchanged. |
| OpenGraph.BatchKeepsBlankUrl | src/Skybrud.Umbraco.Spa/Models/Meta/OpenGraph/SpaOpenGraphProperties.cs:62-87 | An empty URL is dropped by `AppendImage` but stored by `AppendImages`. |
| OpenGraph.AppendImagesConcat | src/Skybrud.Umbraco.Spa/Models/Meta/OpenGraph/SpaOpenGraphProperties.cs:74-87 | Appending two batches in a row has the same result as appending their concatenation. |
| OpenGraph.CropImages | src/Skybrud.Umbraco.Spa/Models/Meta/OpenGraph/SpaOpenGraphProperties.cs:93-98 | Each content item gives one 1200×630 image whose URL is the base URL followed by the crop URL. |
| OpenGraph.AppendCropImages | src/Skybrud.Umbraco.Spa/Models/Meta/OpenGraph/SpaOpenGraphProperties.cs:89-102 | A null array changes nothing. Otherwise the crops are appended after the existing images. |
| OpenGraph.PrependImages | src/Skybrud.Umbraco.Spa/Models/Meta/OpenGraph/SpaOpenGraphProperties.cs:104-117 | A null array changes nothing. Otherwise the 1200×630 crops come first in input order, followed by the old list unchanged. |
| OpenGraph.PrependImagesTwice | src/Skybrud.Umbraco.Spa/Models/Meta/OpenGraph/SpaOpenGraphProperties.cs:104-117 | Prepending batch `a` and then batch `b` gives `b`, then `a`, then the old images. |
| OpenGraph.WriteJson | src/Skybrud.Umbraco.Spa/Models/Meta/OpenGraph/SpaOpenGraphProperties.cs:123-136 | The first four entries are og:title, og:description, og:site_name and og:url with their (possibly null) values. They are followed by exactly the images' entries, and each image adds one to three entries. |
| OpenGraph.WriteJsonImages | src/Skybrud.Umbraco.Spa/Models/Meta/OpenGraph/SpaOpenGraphProperties.cs:130-134 | Reading the entries back gives every image in list order. Width and height are recovered when positive and read as 0 otherwise. There is exactly one width entry per image of positive width and one height entry per image of positive height, and every dimension written is positive. |
| OpenGraph.ImagesEntriesCounts | src/Skybrud.Umbraco.Spa/Models/Meta/OpenGraph/SpaOpenGraphProperties.cs:130-134 | The image entries hold one `og:image` per image, a width entry exactly for each positive width and a height entry exactly for each positive height, each with a positive value. |
| MetaData.New | src/Skybrud.Umbraco.Spa/Models/Meta/SpaMetaData.cs:107-118 | A new instance has exactly one link, the canonical one with a null `href`, and an empty script list. Its sanitizer list is empty, and it has no Open Graph or Twitter card yet. |
| MetaData.SanitizersFor | src/Skybrud.Umbraco.Spa/Models/Meta/SpaMetaData.cs:116 | The sanitizer list is empty if and only if the script list is null or empty. Otherwise it is exactly `["script"]`. The constructor computes it once, from the still-empty script list. |
| MetaData.SetCanonical | src/Skybrud.Umbraco.Spa/Models/Meta/SpaMetaData.cs:36-39 | Reading `Canonical` after setting it returns the value written. Lists and sanitizers are untouched. |
| MetaData.CanonicalIsShared | src/Skybrud.Umbraco.Spa/Models/Meta/SpaMetaData.cs:36-39 | Setting `Canonical` changes the `href` of every canonical entry in `Links` and of no other entry. |
| MetaData.CanonicalReadsFirstLink | src/Skybrud.Umbraco.Spa/Models/Meta/SpaMetaData.cs:111-114 | On a new instance, the only link reads whatever `Canonical` was set to. |
| MetaData.AppendLink | src/Skybrud.Umbraco.Spa/Models/Meta/SpaMetaData.cs:164-168 | The entry is added at the end of the list (a null list is created first), earlier entries are unchanged, and the same entry is returned. Appending the canonical link object appends that object, which reads `Canonical`. |
| MetaData.AppendLinkWith | src/Skybrud.Umbraco.Spa/Models/Meta/SpaMetaData.cs:149-157 | A new link object built from the given attributes is appended and returned; it is never the canonical one. |
| MetaData.AppendScript | src/Skybrud.Umbraco.Spa/Models/Meta/SpaMetaData.cs:188-191 | A null script list fails with a null reference. Otherwise the script is added at the end and returned, and links and sanitizers are unchanged. |
| MetaData.AppendScriptWith | src/Skybrud.Umbraco.Spa/Models/Meta/SpaMetaData.cs:176-181 | The script built from source and type is appended and returned. |
| MetaData.SetLinks | src/Skybrud.Umbraco.Spa/Models/Meta/SpaMetaData.cs:83 | Assigning `Links` replaces the list. Each position reads its own link, or the current `Canonical` where it holds the canonical object, and `Canonical` is unchanged. |
| MetaData.CanonicalDetachedByNewLinks | src/Skybrud.Umbraco.Spa/Models/Meta/SpaMetaData.cs:36-39 | Once `Links` is a list without the canonical object, setting `Canonical` no longer changes how the list reads, yet `Canonical` still reads the value set. |
| MetaData.CanonicalFollowsNewLinks | src/Skybrud.Umbraco.Spa/Models/Meta/SpaMetaData.cs:36-39 | A new `Links` list that holds the canonical object, such as a copy of the old list, shows a later `Canonical` value at that position. |
| MetaData.CanonicalAppendedTwice | src/Skybrud.Umbraco.Spa/Models/Meta/SpaMetaData.cs:164-168 | Appending the canonical link read from a new instance's list puts the same object in the list twice, so both entries show a later `Canonical`. |
| MetaData.SetScripts | src/Skybrud.Umbraco.Spa/Models/Meta/SpaMetaData.cs:88 | Assigning `Scripts` leaves the sanitizer list, the links and the canonical link as they were. |
| MetaData.SanitizersStayEmpty | src/Skybrud.Umbraco.Spa/Models/Meta/SpaMetaData.cs:96 | After construction and any sequence of updates (canonical, links, scripts), the sanitizer list is still empty. |
| MetaData.SanitizersUnchanged | src/Skybrud.Umbraco.Spa/Models/Meta/SpaMetaData.cs:96 | No update ever changes the sanitizer list. |
| MetaData.NewAcceptsScripts | src/Skybrud.Umbraco.Spa/Models/Meta/SpaMetaData.cs:112-116 | A new instance accepts a script, and the sanitizer list stays empty. |
| MetaData.ReadOpenGraph | src/Skybrud.Umbraco.Spa/Models/Meta/SpaMetaData.cs:68 | A stored value is returned without calling the factory. Otherwise the factory's value is stored and returned. |
| MetaData.DefaultOpenGraph | src/Skybrud.Umbraco.Spa/Models/Meta/SpaMetaData.cs:128-130 | By default the factory builds properties for the page, with the page's site root as base URL and no images. |
| MetaData.OpenGraphMemoised | src/Skybrud.Umbraco.Spa/Models/Meta/SpaMetaData.cs:68 | Once `OpenGraph` has yielded a value, later reads yield the same value, whatever the factory would make. |
| MetaData.ReadTwitterCard | src/Skybrud.Umbraco.Spa/Models/Meta/SpaMetaData.cs:73 | A stored card is returned without calling the factory. Otherwise the factory's card is stored and returned. |
| MetaData.HasTwitterCard | src/Skybrud.Umbraco.Spa/Models/Meta/SpaMetaData.cs:78 | `HasTwitterCard` holds if and only if `TwitterCard` is not null. |
| MetaData.TwitterCardMemoised | src/Skybrud.Umbraco.Spa/Models/Meta/SpaMetaData.cs:73 | Once `TwitterCard` has yielded a card, later reads yield the same card. |
| MetaData.NoTwitterCardByDefault | src/Skybrud.Umbraco.Spa/Models/Meta/SpaMetaData.cs:136-138 | With the default factory, `HasTwitterCard` is false and the state does not change. |
| DataModels.NewDataModel | src/Skybrud.Umbraco.Spa/Models/SpaDataModel.cs:72-75 | The default constructor sets the content GUID and `ExecuteTimeMs = -1`, and leaves every section null. |
| DataModels.DataModelFor | src/Skybrud.Umbraco.Spa/Models/SpaDataModel.cs:81-97 | `PageId` is the content id or -1, and `SiteId` is the site id or -1. `ExecuteTimeMs` is -1. When the parts contain Site, `Site` is the given site model, and otherwise it is null; `Content` follows the same rule. `Navigation` is never set. |
| DataModels.EmitMembership | src/Skybrud.Umbraco.Spa/Models/SpaDataModel.cs:16-63 | A field appears in the JSON if and only if it is listed and written, that is not ignored by its default-value or null-value handling. |
| DataModels.EmitLookup | src/Skybrud.Umbraco.Spa/Models/SpaDataModel.cs:16-63 | A field that is written can be looked up in the JSON with its value. |
| DataModels.ToJsonStartsWithScalars | src/Skybrud.Umbraco.Spa/Models/SpaDataModel.cs:16-36 | The JSON always starts with pageId, siteId, contentGuid and executeTimeMs, in that order. |
| DataModels.ToJsonOrdered | src/Skybrud.Umbraco.Spa/Models/SpaDataModel.cs:16-63 | The JSON members are distinct and sorted by their `Order`, with members without an order counting as -1. |
| DataModels.ToJsonPresence | src/Skybrud.Umbraco.Spa/Models/SpaDataModel.cs:41-63 | `cached` appears if and only if it is true, and site, navigation and content each appear if and only if they are not null. |
| DataModels.KeyInToJson | src/Skybrud.Umbraco.Spa/Models/SpaDataModel.cs:41-63 | Every member the serializer knows is in the output if and only if the model writes it. The scalars are always written, `cached` only when true, and each section only when not null. |
| DataModels.ToJsonRoundTrip | src/Skybrud.Umbraco.Spa/Models/SpaDataModel.cs:16-63 | Reading the model back from its JSON gives the model. |
| DataModels.ContentOnlyOmitsOtherSections | src/Skybrud.Umbraco.Spa/Models/SpaDataModel.cs:89-95 | A request for the content part only serializes no site, navigation or cached member. It has a content member if and only if there is a content model. |
| ContractResolver.ShouldSerialize | src/Skybrud.Umbraco.Spa/Json/Resolvers/SpaPublishedContentContractResolver.cs:35-84 | A member is left out if and only if one of three rules applies: it is one of the 22 listed names declared in `Umbraco.Core.Models.PublishedContent`; it is one of the four SEO/preview names; or it is a property of type `Skybrud.Separator.SeparatorModel`. |
| ContractResolver.HiddenInPublishedContent | src/Skybrud.Umbraco.Spa/Json/Resolvers/SpaPublishedContentContractResolver.cs:38-63 | Each of the 22 names is left out when declared in the published-content namespace. |
| ContractResolver.KeptElsewhere | src/Skybrud.Umbraco.Spa/Json/Resolvers/SpaPublishedContentContractResolver.cs:38 | Outside that namespace the name rule does not apply; a member no other rule catches is kept. |
| ContractResolver.AlwaysHiddenEverywhere | src/Skybrud.Umbraco.Spa/Json/Resolvers/SpaPublishedContentContractResolver.cs:67-73 | SeoMetaDescription, Seodashboard, Preview and SeoTitle are left out in every namespace. |
| ContractResolver.SeparatorsHidden | src/Skybrud.Umbraco.Spa/Json/Resolvers/SpaPublishedContentContractResolver.cs:75-80 | A separator-typed property is left out whatever its name or namespace. |
| ContractResolver.OtherMembersByNameOnly | src/Skybrud.Umbraco.Spa/Json/Resolvers/SpaPublishedContentContractResolver.cs:75-82 | A member that is not a property is judged by name alone, the same as a property of no special type. |
| ContractResolver.OrderFor | src/Skybrud.Umbraco.Spa/Json/Resolvers/SpaPublishedContentContractResolver.cs:98-120 | Id, Key, Name, Level and Url get an order between -99 and -95. Every other member keeps its base order. |
| ContractResolver.OverridesOrdered | src/Skybrud.Umbraco.Spa/Json/Resolvers/SpaPublishedContentContractResolver.cs:98-120 | The overridden members sort as Id < Key < Name < Level < Url, and all of them before any member left at the default order. |
| ContractResolver.CreateProperty | src/Skybrud.Umbraco.Spa/Json/Resolvers/SpaPublishedContentContractResolver.cs:86-124 | The created property carries the serialization filter of its member, the camel-cased base name and the overridden order. Other members keep their base order. |

## Left out

- The bodies of the pipeline stages (`InitArguments` … `PushToCache`, `RaisinInTheSausageEnd`) and the response factories are not part of this model. Each stage is named by a `Stage` value, its implementation is a parameter of the default wiring, and responses are opaque values.
- The constructor of `SpaRequestHelper` and the Umbraco services and ambient context it wires up are left out. This is framework state. So is `OverwriteStatusCodes`, which the modelled code never reads.
- The logger calls in `HandleGetResponseException` are left out, because they are I/O. Only the fields they log are modelled, as a `LogEntry`.
- The cache backend and concurrent requests are left out. `ReadFromCache` is one of the abstract stages.
- Pipeline.RunGroups: the response check comes only after an action, and after the action loop of a group that ran. A skipped group moves on without looking at the response. This follows the code rather than a reading in which a response set earlier would stop everything.
- `StartsWith`, `EndsWith` and `Contains` are modelled as ordinal comparisons. .NET's default `StartsWith(string)`/`EndsWith(string)` are culture-sensitive.
- RequestUrls.TryParseInt: `Int32` overflow is not modelled, and neither is the trailing `\0` that .NET Framework also accepts. The same applies to overflow of `ToInt32` on the regex digits.
- RequestUrls.AddUndoesRemove: it requires a path that does not end in `//`. For such paths, removing one slash leaves a slash, so adding does nothing (for example `/a//?x`).
- The constructor `SpaOpenGraphImage(url)` is not part of this model. Its width and height are taken to be 0, which `WriteJson` then does not write.
- `SpaUtils.Json.AddMetaProperty` is not part of this model. `WriteJson` yields the ordered (name, value) list it is called with. Dimensions are written in decimal.
- `UrlWithDomain` and `GetCropUrl` are inputs given as strings.
- OpenGraph.AppendCropImages: a null content item in the array is not modelled. Its crop URL comes from Umbraco's `GetCropUrl`, which is not part of this model. If that call throws, the list is left unchanged, because the images are gathered in a temporary list first.
- OpenGraph.PrependImages: a null content item in the array is not modelled, for the same reason as in `AppendCropImages`.
- Assigning null to `SpaOpenGraphProperties.Images` is not modelled.
- `SpaMetaData`'s `MetaTitle`, `MetaDescription`, `HideFromSearch` and `Robots` are plain fields with no logic.
- Mutating a link object obtained from `Links` is not modelled, except the canonical link object through `Canonical`; that object keeps its identity when it is re-assigned or appended. Mutating the Open Graph object obtained from `OpenGraph` is not modelled either.
- `GetOpenGraph` and `GetTwitterCard` are virtual. Their results are parameters, and the defaults are `DefaultOpenGraph` and `DefaultTwitterCard`.
- `ITwitterCard` is modelled by its one implementation, `TwitterSummaryCard`. A subclass overriding `Card` is not modelled.
- `SpaMetaData`'s JSON converter and `SpaEnvironment.ContentGuid` are left out. The GUID is a parameter.
- The camel-casing of property names (`StringUtils.ToCamelCase`) is a library call that is not part of this model. `CreateProperty` takes it as a function parameter and promises only that the name is that function applied to the base name.
- `CreateContract`'s converter selection is left out, because it is Json.NET mechanics.
- The grid control base class and the constants file have no logic and are left out.
