/**
 * `PylonController`: the base for a custom Umbraco render controller, with
 * its content repository supplied at construction. `R` is the repository
 * type of the generic class; the non-generic class fixes it to Umbraco.Pylon's
 * `PublishedContentRepository`.
 *
 * `typeName` is `GetType().Name` of the concrete controller; `current` is the
 * ambient `HttpContext.Current`; the view engine and the renderer are supplied
 * by the caller.
 */
module PylonController {
  import opened Wrappers
  import opened Cms
  import opened Mvc
  import ContentAccessor
  import MediaAccessor
  import PylonRepository

  datatype Controller<R> = Controller(
    typeName: string,
    umbracoContext: Option<UmbracoContext>,
    getContent: Option<ContentAccessor.Accessor>,
    getMedia: Option<MediaAccessor.MediaAccessor>,
    contentRepo: R,
    viewStringRenderer: Option<ViewRenderer>,
    enableFileCheck: bool,
    controllerContext: Option<ControllerContext>)

  /** The controller after a call, with the call's result. */
  datatype Step<R, T> = Step(controller: Controller<R>, result: T)

  /** `InitController`: stores the accessors and the repository, installs the default renderer, turns file checking on. */
  function InitController<R>(c: Controller<R>, contentRepo: R, getContent: Option<ContentAccessor.Accessor>,
                             getMedia: Option<MediaAccessor.MediaAccessor>): (r: Controller<R>)
    ensures r.contentRepo == contentRepo && r.getContent == getContent && r.getMedia == getMedia
    ensures r.viewStringRenderer == Some(DefaultViewStringRenderer) && r.enableFileCheck
    ensures r.typeName == c.typeName && r.umbracoContext == c.umbracoContext && r.controllerContext == c.controllerContext
  {
    c.(contentRepo := contentRepo, getContent := getContent, getMedia := getMedia,
       viewStringRenderer := Some(DefaultViewStringRenderer), enableFileCheck := true)
  }

  /**
   * The generic constructor without a context: the framework's parameterless
   * base, which takes its Umbraco context from the ambient one
   * (`frameworkContext`), then `InitController`.
   */
  function New<R>(typeName: string, frameworkContext: Option<UmbracoContext>, contentRepo: R,
                  getContent: Option<ContentAccessor.Accessor>, getMedia: Option<MediaAccessor.MediaAccessor>): (c: Controller<R>)
    ensures c.typeName == typeName && c.umbracoContext == frameworkContext && c.controllerContext.None?
    ensures c.contentRepo == contentRepo && c.getContent == getContent && c.getMedia == getMedia
    ensures c.viewStringRenderer == Some(DefaultViewStringRenderer) && c.enableFileCheck
  {
    InitController(Controller(typeName, frameworkContext, None, None, contentRepo, None, false, None), contentRepo, getContent, getMedia)
  }

  /**
   * The generic constructor with an Umbraco context, handed to the
   * framework's base class, which rejects a null one; the context is
   * therefore never null here.
   */
  function NewWithContext<R>(typeName: string, contentRepo: R, getContent: Option<ContentAccessor.Accessor>,
                             getMedia: Option<MediaAccessor.MediaAccessor>, umbracoContext: UmbracoContext): (c: Controller<R>)
    ensures c.typeName == typeName && c.umbracoContext == Some(umbracoContext) && c.controllerContext.None?
    ensures c.contentRepo == contentRepo && c.getContent == getContent && c.getMedia == getMedia
    ensures c.viewStringRenderer == Some(DefaultViewStringRenderer) && c.enableFileCheck
  {
    InitController(Controller(typeName, Some(umbracoContext), None, None, contentRepo, None, false, None), contentRepo, getContent, getMedia)
  }

  /** The non-generic constructor without a context: a repository with no helper, through the context-free generic constructor. */
  function NewDefault(typeName: string, frameworkContext: Option<UmbracoContext>, getContent: Option<ContentAccessor.Accessor>,
                      getMedia: Option<MediaAccessor.MediaAccessor>): (c: Controller<PylonRepository.Repository>)
    ensures c.contentRepo == PylonRepository.New()
    ensures c.contentRepo.umbraco.None?
    ensures c.umbracoContext == frameworkContext
  {
    New(typeName, frameworkContext, PylonRepository.New(), getContent, getMedia)
  }

  /**
   * The non-generic constructor with a context: a repository bound to that
   * context, built through the context-free generic constructor — the context
   * reaches the repository only, and the controller's own Umbraco context is
   * the one the framework supplies.
   */
  function NewDefaultWithContext(typeName: string, frameworkContext: Option<UmbracoContext>, getContent: Option<ContentAccessor.Accessor>,
                                 getMedia: Option<MediaAccessor.MediaAccessor>, umbracoContext: UmbracoContext): (c: Controller<PylonRepository.Repository>)
    ensures c.contentRepo == PylonRepository.NewWithContext(umbracoContext)
    ensures c.contentRepo.umbraco == Some(HelperFor(umbracoContext))
    ensures c.umbracoContext == frameworkContext
  {
    New(typeName, frameworkContext, PylonRepository.NewWithContext(umbracoContext), getContent, getMedia)
  }

  /**
   * `EnsurePhsyicalViewExists(template)`: true with checking off, otherwise
   * whether the view engine finds the view; the lookup throws while the
   * controller has no context, or for an empty name.
   */
  function EnsurePhysicalViewExists<R>(c: Controller<R>, template: string, findView: ViewLocator): (r: Result<bool>)
    ensures !c.enableFileCheck ==> r == Success(true)
    ensures c.enableFileCheck && c.controllerContext.None? ==> r == Failure(ArgumentNull("controllerContext"))
    ensures c.enableFileCheck && c.controllerContext.Some? && template == "" ==> r == Failure(ArgumentNullOrEmpty("viewName"))
    ensures c.enableFileCheck && c.controllerContext.Some? && template != "" ==> r == Success(findView(c.controllerContext.value, template))
  {
    ViewExists(c.enableFileCheck, c.controllerContext, template, findView)
  }

  /**
   * `SetDefaultContext()`: an existing context is kept; otherwise the default
   * one is built and installed. Without an HTTP context the build throws
   * before the assignment and the context stays null.
   */
  function SetDefaultContext<R>(c: Controller<R>, current: Option<HttpContext>): (r: Step<R, Result<ControllerContext>>)
    ensures c.controllerContext.Some? ==> r == Step(c, Success(c.controllerContext.value))
    ensures c.controllerContext.None? && current.None? ==> r == Step(c, Failure(ArgumentNull("httpContext")))
    ensures c.controllerContext.None? && current.Some? ==>
              && r.result == DefaultContext(current, c.typeName)
              && r.result.Success?
              && r.controller == c.(controllerContext := Some(r.result.value))
  {
    var context := EnsureContext(c.controllerContext, current, c.typeName);
    if context.Failure? then Step(c, context)
    else Step(c.(controllerContext := Some(context.value)), context)
  }

  /** `PartialAsString(viewName, model)`: a default context first, whose failure propagates, then the held renderer. */
  function PartialAsString<R, M>(c: Controller<R>, viewName: string, model: M, current: Option<HttpContext>, render: Render<M>): (r: Step<R, Result<string>>)
    ensures r.controller == SetDefaultContext(c, current).controller
    ensures r.controller.controllerContext.Some? <==> c.controllerContext.Some? || current.Some?
    ensures SetDefaultContext(c, current).result.Failure? ==> r.result == Failure(ArgumentNull("httpContext"))
    ensures SetDefaultContext(c, current).result.Success? && c.viewStringRenderer.None? ==> r.result == Failure(NullReference)
    ensures SetDefaultContext(c, current).result.Success? && c.viewStringRenderer.Some? ==>
              r.result == Success(render(c.viewStringRenderer.value, viewName, model, SetDefaultContext(c, current).result.value))
  {
    var step := SetDefaultContext(c, current);
    Step(step.controller, RenderPartial(step.result, c.viewStringRenderer, viewName, model, render))
  }

  /**
   * `SetDefaultContext` is idempotent once it has succeeded; the context it
   * yields is the existing one or the default with the derived route name,
   * and it fails exactly when neither a context nor an HTTP context exists.
   */
  lemma SetDefaultContextIsIdempotent<R>(c: Controller<R>, current: Option<HttpContext>, later: Option<HttpContext>)
    ensures SetDefaultContext(c, current).result.Success? ==>
              SetDefaultContext(SetDefaultContext(c, current).controller, later)
              == Step(SetDefaultContext(c, current).controller, SetDefaultContext(c, current).result)
    ensures SetDefaultContext(c, current).result.Failure? <==> c.controllerContext.None? && current.None?
    ensures SetDefaultContext(c, current).result.Success? ==>
              SetDefaultContext(c, current).result.value.routeValues
              == (if c.controllerContext.Some? then c.controllerContext.value.routeValues
                  else [("controller", Value(ControllerRouteName(c.typeName)))])
  {
  }

  /**
   * Whichever constructor is used, the controller renders with the default
   * renderer, checks files — so its view check throws until a controller
   * context is set — and holds the repository it was given.
   */
  lemma ConstructorsInitialise<R>(typeName: string, frameworkContext: Option<UmbracoContext>, repo: R, context: UmbracoContext,
                                  template: string, findView: ViewLocator)
    ensures var c := New(typeName, frameworkContext, repo, None, None);
            c.viewStringRenderer == Some(DefaultViewStringRenderer)
            && EnsurePhysicalViewExists(c, template, findView) == Failure(ArgumentNull("controllerContext"))
    ensures var c := NewWithContext(typeName, repo, None, None, context);
            c.viewStringRenderer == Some(DefaultViewStringRenderer) && c.contentRepo == repo && c.umbracoContext == Some(context)
            && EnsurePhysicalViewExists(c, template, findView) == Failure(ArgumentNull("controllerContext"))
    ensures PylonRepository.Umbraco(NewDefault(typeName, frameworkContext, None, None).contentRepo).Failure?
    ensures PylonRepository.Umbraco(NewDefaultWithContext(typeName, frameworkContext, None, None, context).contentRepo) == Success(HelperFor(context))
    ensures NewDefaultWithContext(typeName, None, None, None, context).umbracoContext.None?
  {
  }
}
